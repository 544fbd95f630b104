# SiteInsightAI site catalog, modelled in Dafny

This project models the site catalog of `ai_insight.py`. The catalog is the
`SitesInformation` object: a dictionary from site name to `SiteInformation`
record, loaded from a JSON data file. The model covers:

- choosing the data source: the default URL when none is given, the
  `.json` extension check, and remote versus local by the `http` prefix;
- dropping the `$schema` key;
- building one record per entry, where a missing required key aborts the
  whole load with that key, and an entry that is not an object is skipped;
- `remove_nsfw_sites` with its case-insensitive allow list;
- `site_name_list`, a sort keyed by the lower-cased name;
- `__iter__` and `__len__`;
- the description extraction and cluster write-back of `analyze_site_descriptions`;
- the two-rule lint of `detect_anomalies`.

Modules, one per file:

- `Wrappers`: `Option` and `Result`.
- `Seqs`: `Filter`, `Subsequence`, `Distinct` and their lemmas.
- `Text`: ASCII lower-casing, code-point ordering, and Python's whitespace
  and word characters.
- `Ordering`: the stable sort keyed by the lower-cased name.
- `Json`: the values the code inspects, and the parsed document (its key
  order plus a map).
- `Patterns`: the two regular expressions.
- `Sites`: the `SiteInformation` record and the reading of one entry.
- `CatalogSpec`: the catalog as a value, with the specification functions
  for the build, the NSFW filter and the lint.
- `SiteCatalog`: the `SitesInformation` class, whose methods update
  `names`/`sites` in place.
- `Loader`: the source handling of `__init__`.

Behaviour of the code that the model keeps:

- `detect_anomalies` applies the URL rule to the key `url`, which holds the
  username URL template. It does not check `urlMain`.
- `detect_anomalies` can raise. `re.match` raises `TypeError` when the value
  under a rule key is not a string. The model reports this as `raised` and
  checks nothing after that point.
- No check is made that the URL template contains the `{}` placeholder.
- The default of `username_unclaimed` is evaluated once, when the function is
  defined. Every record therefore gets the same token, represented by one
  `unclaimed` parameter.
- The missing-attribute error names only the missing key, not the site.
- A local path whose lower-cased form starts with `http` is treated as a
  URL and fetched remotely.

## Model

| member | source | states |
|---|---|---|
| Sites.SiteInformation.ToString | ai_insight.py:58-68 | the rendering is the name, then " (", then the displayed home URL, then ")" |
| Sites.ReadEntry | ai_insight.py:151-166 | a non-object entry is skipped; an object with urlMain, url and username_claimed is built; otherwise the first missing key of the three, in that order, is reported. A built record takes its name, URL fields, claimed name, whole entry as information, and isNSFW (default False) from the entry |
| CatalogSpec.Catalog.Records | ai_insight.py:237-248 | iteration yields each record once, in insertion order, and yields every record |
| CatalogSpec.Catalog.Len | ai_insight.py:250-259 | the length is the number of names and the number of records iterated |
| CatalogSpec.BuildPrefixOk | ai_insight.py:151-160 | a build prefix that has not aborted is a consistent catalog; its names are the object entries of the prefix, in file order, and each record is the one read from its own entry |
| CatalogSpec.BuildPrefixErrStays | ai_insight.py:161-164 | once the build has aborted, later entries do not change the error |
| CatalogSpec.BuildPrefixErr | ai_insight.py:151-164 | the build aborts iff some object entry lacks a required key; the error is MissingAttribute of the key missing in the first such entry |
| CatalogSpec.BuildRecords | ai_insight.py:151-166 | a successful build keeps file order and leaves out non-object entries; every record is filed under its name, holds its entry as information, takes urlMain/url/username_claimed/isNSFW from it, and has the shared unclaimed name |
| CatalogSpec.BuildSize | ai_insight.py:151-166 | a successful build has one record per object entry, and a key is a site iff its entry is an object |
| CatalogSpec.BuildFailsOnMissingKey | ai_insight.py:161-164 | one object entry without a required key makes the whole load fail with a missing-attribute error |
| CatalogSpec.AbortAt | ai_insight.py:151-166 | reaching an object entry that lacks key k after an unaborted prefix fixes the outcome: MissingAttribute(k), with the non-object entries before it reported as skipped |
| CatalogSpec.SkippedPrefixOk | ai_insight.py:151-166 | while the build goes on, the names reported as skipped are the non-object entries reached, in file order |
| CatalogSpec.SkippedPrefixErrStays | ai_insight.py:161-166 | after the abort no further name is reported as skipped |
| CatalogSpec.SkippedPrefixErr | ai_insight.py:151-166 | on an aborted build, the names reported are the non-object entries before the first object entry that lacks a required key |
| CatalogSpec.SkippedEntries | ai_insight.py:151-166 | a successful load reports every non-object entry, in order; an aborted one reports those before the failing entry |
| CatalogSpec.Folded | ai_insight.py:180 | a string is in the folded list iff it is the case-folded form of some allow-list entry |
| CatalogSpec.RemoveNsfw | ai_insight.py:179-185 | the filtered catalog is still consistent: distinct names, each filed under its own name |
| CatalogSpec.RemoveNsfwCollected | ai_insight.py:179-185 | the names and records collected by one pass over the catalog, keeping each kept name's record, are exactly RemoveNsfw's catalog |
| CatalogSpec.RemoveNsfwKeeps | ai_insight.py:181-184 | a site survives iff it is not NSFW or some allow-list entry case-folds to its case-folded name; survivors are unchanged and keep their relative order |
| CatalogSpec.RemoveNsfwIdempotent | ai_insight.py:168-185 | filtering twice with the same allow list gives the same catalog as filtering once |
| CatalogSpec.AllowListIgnoresCase | ai_insight.py:174-182 | an allow list "X" keeps a site named "x" |
| CatalogSpec.SiteDiagnosticsInRuleOrder | ai_insight.py:227-235 | for one site, the url diagnostic comes before the username_claimed diagnostic, each present iff that value fails its pattern |
| CatalogSpec.CheckRulesRaised | ai_insight.py:233-235 | one site raises iff a rule key holds a non-string; otherwise it reports exactly the rule keys whose value fails their pattern |
| CatalogSpec.LintPrefixSound | ai_insight.py:232-235 | the lint does not raise iff no rule key of any record holds a non-string; then it reports (site, key) iff that key is present with a string that fails the key's pattern |
| CatalogSpec.CheckRulesRaisedStays | ai_insight.py:233-234 | after a site raises, later rules add nothing |
| CatalogSpec.LintPrefixRaisedStays | ai_insight.py:232-234 | after the lint raises, later records add nothing |
| Ordering.SortByLower | ai_insight.py:197 | the sort result is ordered by the lower-cased form and is a permutation of its input |
| Ordering.SortStable | ai_insight.py:197 | names that lower-case alike stay in input order (stability of sorted) |
| Text.Lower | ai_insight.py:109-112 | lower-casing keeps the length and maps each character by the ASCII rule |
| SiteCatalog.SitesInformation.constructor | ai_insight.py:138 | a new catalog starts empty and consistent |
| SiteCatalog.SitesInformation.InitializeSites | ai_insight.py:141-166 | the loop leaves the catalog the build describes, or reports the same error as the build; the skipped names are those SkippedNames gives: on success all non-object entries in order, on abort those before the failing entry |
| SiteCatalog.SitesInformation.RemoveNsfwSites | ai_insight.py:168-185 | the new catalog is the one RemoveNsfw describes for the old catalog |
| SiteCatalog.SitesInformation.Records | ai_insight.py:237-248 | iteration yields each record once, in insertion order, and yields every record |
| SiteCatalog.SitesInformation.Len | ai_insight.py:250-259 | the length is the number of names and the number of records iterated |
| SiteCatalog.SitesInformation.SiteNameList | ai_insight.py:187-197 | the names are sorted by their lower-cased form, are a permutation of the record names, have no duplicates, and keep insertion order among names that lower-case alike |
| SiteCatalog.SortStableAll | ai_insight.py:197 | for every key, sorting keeps the relative order of names that lower-case to that key |
| SiteCatalog.SitesInformation.Descriptions | ai_insight.py:208 | one description per record, in iteration order, each the record's `description` or the empty string; AssignClusters leaves this list unchanged |
| SiteCatalog.ClusteringKeepsDescription | ai_insight.py:208-215 | writing the cluster label into a record never changes its description, so the write-back does not alter the corpus it came from |
| SiteCatalog.SitesInformation.AssignClusters | ai_insight.py:214-215 | record i, in iteration order, gets cluster labels[i] in its information; names, keys and everything else stay the same, and so does the description list |
| SiteCatalog.SitesInformation.DetectAnomalies | ai_insight.py:218-235 | the report is the lint of the records, iterated in order |
| SiteCatalog.LintRecords | ai_insight.py:232-235 | the nested loop computes exactly the lint the specification function gives |
| Loader.EffectivePath | ai_insight.py:106-107 | None or the empty string selects the default URL; any other path is used as given |
| Loader.Classify | ai_insight.py:106-112 | a source is refused iff its lower-cased path does not end in ".json"; otherwise it is remote iff the lower-cased path starts with "http", and local in every other case |
| Loader.DefaultSourceIsRemote | ai_insight.py:106-112 | the default source passes the extension test and is fetched remotely |
| Loader.ClassifyIgnoresCase | ai_insight.py:109-112 | a path and its lower-cased form are classified alike |
| Loader.ClassifyRejectsOtherExtension | ai_insight.py:109-110 | "data.csv" is refused |
| Loader.ClassifyUpperCaseLocalFile | ai_insight.py:109-112 | "DATA.JSON" is accepted as a local file |
| Loader.ClassifyUpperCaseUrl | ai_insight.py:109-112 | "HTTPS://EXAMPLE.COM/DATA.JSON" is accepted and fetched remotely |
| Loader.DropSchema | ai_insight.py:136 | "$schema" is removed; every other key keeps its entry and its place in the order |
| Loader.RejectedBeforeFetch | ai_insight.py:109-114 | a refused source fails with the incorrect-extension error whatever the fetch would do |
| Loader.SchemaNeverSite | ai_insight.py:136-139 | "$schema" never becomes a site |
| Loader.LoadOneSite | ai_insight.py:106-139 | a local file with one well-formed site SiteA loads into a catalog of size one whose home URL is https://a.com |
| Loader.OneSiteBuilds | ai_insight.py:151-160 | the one-site document builds into a catalog of size one holding SiteA with home URL https://a.com |
| Loader.Load | ai_insight.py:72-139 | construction fails with the error LoadSpec gives, or yields a fresh consistent object in the state LoadSpec describes; the names reported as skipped are those LoadSkipped gives, none when the data was never read |
| Patterns.WellFormedUrlMatches | ai_insight.py:228 | "https://a.com" matches the URL pattern |
| Patterns.MalformedUrlFails | ai_insight.py:228 | "not a url" does not match the URL pattern |
| Patterns.SpaceDefeatsUrlShape | ai_insight.py:228 | a string with whitespace anywhere does not have the shape of the URL pattern |
| Patterns.SpaceInsideUrlFails | ai_insight.py:228 | a URL with whitespace inside never matches |
| Patterns.WordPatternExamples | ai_insight.py:229 | "admin" matches the word pattern; "" and "john doe" do not |

## Left out

- The HTTP request and the file read with its JSON parse are a `fetch` parameter of `Loader.LoadSpec`/`Loader.Load`. Its failures are the `AccessProblem` and `ParseProblem` errors. Python's `FileNotFoundError`/`ValueError` classes become `LoadError` constructors.
- A top-level JSON value that is not an object is not modelled; the document is always an ordered map.
- `TfidfVectorizer` and `KMeans` (lines 209-212) are left out. The cluster labels are the parameter of `AssignClusters`, and the final `print` is omitted.
- `secrets.token_urlsafe(10)` is randomness. The shared default token is the `unclaimed` parameter.
- The messages `print`ed by `_initialize_sites` and `detect_anomalies` are returned instead: the `skipped` names and the `Lint` diagnostics.
- Text.Lower: only ASCII letters are lower-cased; Python's `str.lower` and `str.casefold` also handle non-ASCII letters. `CaseFold` is `Lower` here.
- Patterns.WordShape: `\w` is limited to ASCII letters, digits and `_`; Python's `\w` on `str` also accepts other Unicode word characters.
- JSON values other than null, booleans, integers and strings are opaque (`Json.Other`), with only their truthiness and displayed text kept.
- The record's `information` is the entry's dictionary itself, so `AssignClusters` also changes the loaded data. The model keeps no such alias.
- The partial catalog left when `_initialize_sites` aborts is not described: it is never observable, because the constructor raises.
