/**
 * The abstract state of a `SitesInformation` object and the specification
 * of its operations: building the catalog from the parsed data file,
 * removing NSFW sites, and the anomaly lint.
 */
module CatalogSpec {
  import opened Wrappers
  import opened Seqs
  import opened Text
  import opened Json
  import opened Patterns
  import opened Sites

  /** Why loading the catalog fails. */
  datatype LoadError =
    | IncorrectExtension(path: string)  // FileNotFoundError: the name does not end in ".json"
    | AccessProblem(path: string)       // FileNotFoundError: the URL or file cannot be read
    | ParseProblem(path: string)        // ValueError: the content is not JSON
    | MissingAttribute(key: string)     // ValueError: an entry lacks a required key

  /** The dict `sites`: its keys in insertion order and the record under each key. */
  datatype Catalog = Catalog(names: seq<string>, sites: map<string, SiteInformation>)
  {
    /** Every key once, the same key set on both sides, and every record filed under its own name. */
    predicate Valid() {
      && Distinct(names)
      && (forall n :: n in sites ==> n in names)
      && (forall n :: n in names ==> n in sites)
      && (forall n :: n in sites ==> sites[n].name == n)
    }

    /** `__iter__`: every record exactly once, in insertion order. */
    function Records(): (r: seq<SiteInformation>)
      requires Valid()
      ensures |r| == |names|
      ensures forall i :: 0 <= i < |r| ==> r[i] == sites[names[i]] && r[i].name == names[i]
      ensures forall i, j :: 0 <= i < j < |r| ==> r[i] != r[j]
      ensures forall n :: n in sites ==> sites[n] in r
    {
      var r := seq(|names|, i requires 0 <= i < |names| => sites[names[i]]);
      assert forall n :: n in sites ==> exists i :: 0 <= i < |names| && names[i] == n && r[i] == sites[n];
      r
    }

    /** `__len__`: the number of records, which is the number of names. */
    function Len(): (n: nat)
      requires Valid()
      ensures n == |names| && n == |Records()|
    {
      DistinctCardinality(names);
      assert sites.Keys == set x | x in names;
      |sites|
    }
  }

  // ---------------------------------------------------------------------------
  // _initialize_sites

  /** The entry stored under the `i`-th key of the document. */
  function EntryAt(doc: Document, i: nat): Entry
    requires i < |doc.order|
  {
    doc.entries[doc.order[i]]
  }

  /** Holds of the keys whose entry is a mapping. */
  function IsMapping(entries: map<string, Entry>): string -> bool {
    k => k in entries && entries[k].Mapping?
  }

  /** Holds of the keys whose entry is not a mapping (these are skipped). */
  function IsNotMapping(entries: map<string, Entry>): string -> bool {
    k => k in entries && entries[k].NotMapping?
  }

  /**
   * The state `self.sites` reaches after the loop of `_initialize_sites` has
   * processed the first `n` keys of `doc`, or the error that aborted it.
   */
  function BuildPrefix(doc: Document, n: nat, unclaimed: string): Result<Catalog, LoadError>
    requires n <= |doc.order|
    decreases n
  {
    if n == 0 then Ok(Catalog([], map[]))
    else
      match BuildPrefix(doc, n - 1, unclaimed)
      case Err(e) => Err(e)
      case Ok(c) =>
        var name := doc.order[n - 1];
        match ReadEntry(name, EntryAt(doc, n - 1), unclaimed)
        case Skipped => Ok(c)
        case Missing(k) => Err(MissingAttribute(k))
        case Built(site) => Ok(Catalog(c.names + [name], c.sites[name := site]))
  }

  /** The outcome of the whole build. */
  function Build(doc: Document, unclaimed: string): Result<Catalog, LoadError> {
    BuildPrefix(doc, |doc.order|, unclaimed)
  }

  /**
   * A build that has not aborted holds one record per mapping entry, in file
   * order, each filed under its own name and built from its own entry.
   */
  lemma {:induction false} BuildPrefixOk(doc: Document, n: nat, unclaimed: string)
    requires n <= |doc.order|
    requires BuildPrefix(doc, n, unclaimed).Ok?
    ensures BuiltFrom(doc, n, unclaimed, BuildPrefix(doc, n, unclaimed).value)
    decreases n
  {
    if n > 0 {
      BuildPrefixOk(doc, n - 1, unclaimed);
      NextStep(doc, n - 1, unclaimed, BuildPrefix(doc, n - 1, unclaimed).value);
    }
  }

  /** One more key handled without an abort keeps `BuiltFrom`. */
  lemma NextStep(doc: Document, i: nat, unclaimed: string, c: Catalog)
    requires i < |doc.order| && BuildPrefix(doc, i, unclaimed) == Ok(c)
    requires BuiltFrom(doc, i, unclaimed, c) && BuildPrefix(doc, i + 1, unclaimed).Ok?
    ensures BuiltFrom(doc, i + 1, unclaimed, BuildPrefix(doc, i + 1, unclaimed).value)
  {
    match ReadEntry(doc.order[i], EntryAt(doc, i), unclaimed)
    case Skipped => SkipStep(doc, i, unclaimed, c);
    case Built(site) => BuildStep(doc, i, unclaimed, c, site);
    case Missing(_) =>
  }

  /**
   * `c` is what the first `n` keys build to: a consistent catalog whose
   * names are the mapping keys among them, in file order, and whose every
   * record is the one read from its own entry.
   */
  predicate BuiltFrom(doc: Document, n: nat, unclaimed: string, c: Catalog)
    requires n <= |doc.order|
  {
    && c.Valid()
    && c.names == Filter(doc.order[..n], IsMapping(doc.entries))
    && forall k :: k in c.sites ==>
         k in doc.entries && ReadEntry(k, doc.entries[k], unclaimed) == Built(c.sites[k])
  }

  /** A skipped entry leaves the catalog as it was. */
  lemma SkipStep(doc: Document, i: nat, unclaimed: string, c: Catalog)
    requires i < |doc.order| && BuiltFrom(doc, i, unclaimed, c)
    requires ReadEntry(doc.order[i], EntryAt(doc, i), unclaimed).Skipped?
    ensures BuiltFrom(doc, i + 1, unclaimed, c)
  {
    FilterSnoc(doc.order, i, IsMapping(doc.entries));
    assert !IsMapping(doc.entries)(doc.order[i]);
  }

  /** A built entry is appended under its own name. */
  lemma BuildStep(doc: Document, i: nat, unclaimed: string, c: Catalog, site: SiteInformation)
    requires i < |doc.order| && BuiltFrom(doc, i, unclaimed, c)
    requires ReadEntry(doc.order[i], EntryAt(doc, i), unclaimed) == Built(site)
    ensures BuiltFrom(doc, i + 1, unclaimed, Catalog(c.names + [doc.order[i]], c.sites[doc.order[i] := site]))
  {
    var name := doc.order[i];
    FilterSnoc(doc.order, i, IsMapping(doc.entries));
    assert IsMapping(doc.entries)(name);
    NextKeyIsNew(doc, i, c.names);
    AddKeepsValid(c, name, site);
  }

  /** The key at position `i` is not among the mapping keys before it. */
  lemma NextKeyIsNew(doc: Document, i: nat, names: seq<string>)
    requires i < |doc.order| && names == Filter(doc.order[..i], IsMapping(doc.entries))
    ensures doc.order[i] !in names
  {
    FilterMembers(doc.order[..i], IsMapping(doc.entries));
    DistinctNotInPrefix(doc.order, i);
  }

  /** Filing a new record under its own name keeps a catalog consistent. */
  lemma AddKeepsValid(c: Catalog, name: string, site: SiteInformation)
    requires c.Valid() && name !in c.names && site.name == name
    ensures Catalog(c.names + [name], c.sites[name := site]).Valid()
  {
    var d := Catalog(c.names + [name], c.sites[name := site]);
    assert forall i :: 0 <= i < |c.names| ==> d.names[i] == c.names[i];
  }

  /** Once the build has aborted it stays aborted with the same error. */
  lemma {:induction false} BuildPrefixErrStays(doc: Document, n: nat, m: nat, unclaimed: string)
    requires n <= m <= |doc.order|
    requires BuildPrefix(doc, n, unclaimed).Err?
    ensures BuildPrefix(doc, m, unclaimed) == BuildPrefix(doc, n, unclaimed)
    decreases m
  {
    if m > n {
      BuildPrefixErrStays(doc, n, m - 1, unclaimed);
    }
  }

  /**
   * The build of the first `n` keys aborts exactly when one of them is a
   * mapping that lacks a required key, and then with the key reported for
   * the first such entry.
   */
  lemma {:induction false} BuildPrefixErr(doc: Document, n: nat, unclaimed: string)
    requires n <= |doc.order|
    ensures BuildPrefix(doc, n, unclaimed).Err?
        <==> exists i :: 0 <= i < n && ReadEntry(doc.order[i], EntryAt(doc, i), unclaimed).Missing?
    ensures BuildPrefix(doc, n, unclaimed).Err? ==>
      exists i, k :: 0 <= i < n
        && ReadEntry(doc.order[i], EntryAt(doc, i), unclaimed) == Missing(k)
        && BuildPrefix(doc, n, unclaimed) == Err(MissingAttribute(k))
        && forall j :: 0 <= j < i ==> !ReadEntry(doc.order[j], EntryAt(doc, j), unclaimed).Missing?
    decreases n
  {
    if n > 0 {
      BuildPrefixErr(doc, n - 1, unclaimed);
    }
  }

  /**
   * `_initialize_sites` on success: every key is its record's name, the
   * three required fields, `information`, `is_nsfw` and `username_unclaimed`
   * come from the entry as the constructor call reads them, the records keep
   * file order, non-mapping entries are left out, and `$schema`-like keys
   * appear only if the document has them.
   */
  lemma BuildRecords(doc: Document, unclaimed: string)
    requires Build(doc, unclaimed).Ok?
    ensures var c := Build(doc, unclaimed).value;
      && c.Valid()
      && c.names == Filter(doc.order, IsMapping(doc.entries))
      && forall k :: k in c.sites ==>
           && k in doc.entries
           && c.sites[k].name == k
           && doc.entries[k] == Mapping(c.sites[k].information)
           && "urlMain" in c.sites[k].information && "url" in c.sites[k].information
           && "username_claimed" in c.sites[k].information
           && c.sites[k].urlHome == c.sites[k].information["urlMain"]
           && c.sites[k].urlUsernameFormat == c.sites[k].information["url"]
           && c.sites[k].usernameClaimed == c.sites[k].information["username_claimed"]
           && c.sites[k].isNsfw == (if "isNSFW" in c.sites[k].information
                                    then c.sites[k].information["isNSFW"] else Bool(false))
           && c.sites[k].usernameUnclaimed == unclaimed
  {
    BuildPrefixOk(doc, |doc.order|, unclaimed);
    assert doc.order[..|doc.order|] == doc.order;
    var c := Build(doc, unclaimed).value;
    FilterMembers(doc.order, IsMapping(doc.entries));
  }

  /**
   * The size of a successful build is the number of mapping entries of the
   * document, and every non-mapping entry is skipped without stopping the build.
   */
  lemma BuildSize(doc: Document, unclaimed: string)
    requires Build(doc, unclaimed).Ok?
    ensures Build(doc, unclaimed).value.Valid()
    ensures Build(doc, unclaimed).value.Len() == |Filter(doc.order, IsMapping(doc.entries))|
    ensures forall k :: k in doc.entries ==> (k in Build(doc, unclaimed).value.sites <==> doc.entries[k].Mapping?)
  {
    BuildRecords(doc, unclaimed);
    FilterMembers(doc.order, IsMapping(doc.entries));
  }

  /** A mapping entry without a required key makes the whole build fail. */
  lemma BuildFailsOnMissingKey(doc: Document, i: nat, unclaimed: string)
    requires i < |doc.order| && EntryAt(doc, i).Mapping?
    requires exists k :: k in RequiredKeys && k !in EntryAt(doc, i).fields
    ensures Build(doc, unclaimed).Err? && Build(doc, unclaimed).error.MissingAttribute?
  {
    BuildPrefixErr(doc, |doc.order|, unclaimed);
    assert ReadEntry(doc.order[i], EntryAt(doc, i), unclaimed).Missing?;
  }

  /**
   * The names `_initialize_sites` reports as skipped while handling the
   * first `n` keys: the non-mapping entries it reaches before the load aborts.
   */
  function SkippedPrefix(doc: Document, n: nat, unclaimed: string): seq<string>
    requires n <= |doc.order|
    decreases n
  {
    if n == 0 then []
    else if BuildPrefix(doc, n - 1, unclaimed).Err? then SkippedPrefix(doc, n - 1, unclaimed)
    else SkippedPrefix(doc, n - 1, unclaimed)
         + (if EntryAt(doc, n - 1).NotMapping? then [doc.order[n - 1]] else [])
  }

  function SkippedNames(doc: Document, unclaimed: string): seq<string> {
    SkippedPrefix(doc, |doc.order|, unclaimed)
  }

  /** While the build goes on, every non-mapping entry reached is reported, in file order. */
  lemma {:induction false} SkippedPrefixOk(doc: Document, n: nat, unclaimed: string)
    requires n <= |doc.order|
    requires BuildPrefix(doc, n, unclaimed).Ok?
    ensures SkippedPrefix(doc, n, unclaimed) == Filter(doc.order[..n], IsNotMapping(doc.entries))
    decreases n
  {
    if n > 0 {
      SkippedPrefixOk(doc, n - 1, unclaimed);
      FilterSnoc(doc.order, n - 1, IsNotMapping(doc.entries));
      if EntryAt(doc, n - 1).NotMapping? {
        assert IsNotMapping(doc.entries)(doc.order[n - 1]);
      } else {
        assert !IsNotMapping(doc.entries)(doc.order[n - 1]);
      }
    }
  }

  /** After the abort nothing more is reported. */
  lemma {:induction false} SkippedPrefixErrStays(doc: Document, n: nat, m: nat, unclaimed: string)
    requires n <= m <= |doc.order|
    requires BuildPrefix(doc, n, unclaimed).Err?
    ensures SkippedPrefix(doc, m, unclaimed) == SkippedPrefix(doc, n, unclaimed)
    decreases m
  {
    if m > n {
      SkippedPrefixErrStays(doc, n, m - 1, unclaimed);
      BuildPrefixErrStays(doc, n, m - 1, unclaimed);
    }
  }

  /**
   * On an aborted build, the reported names are the non-mapping entries
   * before the first mapping that lacks a required key.
   */
  lemma {:induction false} SkippedPrefixErr(doc: Document, n: nat, unclaimed: string)
    requires n <= |doc.order|
    requires BuildPrefix(doc, n, unclaimed).Err?
    ensures exists i :: (0 <= i < n
      && BuildPrefix(doc, i, unclaimed).Ok?
      && ReadEntry(doc.order[i], EntryAt(doc, i), unclaimed).Missing?
      && SkippedPrefix(doc, n, unclaimed) == Filter(doc.order[..i], IsNotMapping(doc.entries)))
    decreases n
  {
    if BuildPrefix(doc, n - 1, unclaimed).Err? {
      SkippedPrefixErr(doc, n - 1, unclaimed);
    } else {
      SkippedPrefixOk(doc, n - 1, unclaimed);
      assert ReadEntry(doc.order[n - 1], EntryAt(doc, n - 1), unclaimed).Missing?;
    }
  }

  /**
   * Reaching a mapping that lacks key `k` right after the first `i` keys
   * built fixes the outcome: that error, and the names skipped so far.
   */
  lemma AbortAt(doc: Document, i: nat, unclaimed: string, k: string)
    requires i < |doc.order| && BuildPrefix(doc, i, unclaimed).Ok?
    requires ReadEntry(doc.order[i], EntryAt(doc, i), unclaimed) == Missing(k)
    ensures Build(doc, unclaimed) == Err(MissingAttribute(k))
    ensures SkippedNames(doc, unclaimed) == Filter(doc.order[..i], IsNotMapping(doc.entries))
  {
    assert BuildPrefix(doc, i + 1, unclaimed) == Err(MissingAttribute(k));
    BuildPrefixErrStays(doc, i + 1, |doc.order|, unclaimed);
    assert !EntryAt(doc, i).NotMapping?;
    assert SkippedPrefix(doc, i + 1, unclaimed) == SkippedPrefix(doc, i, unclaimed);
    SkippedPrefixOk(doc, i, unclaimed);
    SkippedPrefixErrStays(doc, i + 1, |doc.order|, unclaimed);
  }

  /** A successful build reports every non-mapping entry; an aborted one those before the failing entry. */
  lemma SkippedEntries(doc: Document, unclaimed: string)
    ensures Build(doc, unclaimed).Ok? ==>
      SkippedNames(doc, unclaimed) == Filter(doc.order, IsNotMapping(doc.entries))
    ensures Build(doc, unclaimed).Err? ==> exists i :: (0 <= i < |doc.order|
      && BuildPrefix(doc, i, unclaimed).Ok?
      && ReadEntry(doc.order[i], EntryAt(doc, i), unclaimed).Missing?
      && SkippedNames(doc, unclaimed) == Filter(doc.order[..i], IsNotMapping(doc.entries)))
  {
    if Build(doc, unclaimed).Ok? {
      SkippedPrefixOk(doc, |doc.order|, unclaimed);
      assert doc.order[..|doc.order|] == doc.order;
    } else {
      SkippedPrefixErr(doc, |doc.order|, unclaimed);
    }
  }

  // ---------------------------------------------------------------------------
  // remove_nsfw_sites

  /** `[site.casefold() for site in do_not_remove]` */
  function Folded(keep: seq<string>): (r: seq<string>)
    ensures forall x :: x in r <==> exists j :: 0 <= j < |keep| && CaseFold(keep[j]) == x
  {
    var r := seq(|keep|, i requires 0 <= i < |keep| => CaseFold(keep[i]));
    assert forall j :: 0 <= j < |keep| ==> r[j] == CaseFold(keep[j]);
    r
  }

  /** Holds of the names `remove_nsfw_sites` keeps: not NSFW, or allow-listed up to case. */
  function Keeps(sites: map<string, SiteInformation>, folded: seq<string>): string -> bool {
    n => n in sites && (!Truthy(sites[n].isNsfw) || CaseFold(n) in folded)
  }

  /** The catalog left by `remove_nsfw_sites(keep)`. */
  function RemoveNsfw(c: Catalog, keep: seq<string>): (r: Catalog)
    requires c.Valid()
    ensures r.Valid()
  {
    var names := Filter(c.names, Keeps(c.sites, Folded(keep)));
    FilterMembers(c.names, Keeps(c.sites, Folded(keep)));
    FilterDistinct(c.names, Keeps(c.sites, Folded(keep)));
    Catalog(names, map n | n in names :: c.sites[n])
  }

  /**
   * The names and records a left-to-right pass collects, keeping each name
   * that `Keeps` accepts, form exactly the catalog `RemoveNsfw` describes.
   */
  lemma RemoveNsfwCollected(c: Catalog, keep: seq<string>, kept: seq<string>,
                            keptSites: map<string, SiteInformation>)
    requires c.Valid()
    requires kept == Filter(c.names, Keeps(c.sites, Folded(keep)))
    requires forall n :: n in keptSites <==> n in kept
    requires forall n :: n in keptSites ==> n in c.sites && keptSites[n] == c.sites[n]
    ensures RemoveNsfw(c, keep) == Catalog(kept, keptSites)
  {
    var r := RemoveNsfw(c, keep);
    assert r.names == kept;
    assert r.sites == keptSites;
  }

  /** `keep` names a site when some entry of it case-folds to the site's case-folded name. */
  predicate AllowListed(name: string, keep: seq<string>) {
    exists j :: 0 <= j < |keep| && CaseFold(keep[j]) == CaseFold(name)
  }

  /**
   * Exactly the records that are not NSFW or are allow-listed survive,
   * unaltered, and nothing is added; the survivors keep their relative order.
   */
  lemma RemoveNsfwKeeps(c: Catalog, keep: seq<string>)
    requires c.Valid()
    ensures var r := RemoveNsfw(c, keep);
      && (forall n :: n in r.sites <==>
            n in c.sites && (!Truthy(c.sites[n].isNsfw) || AllowListed(n, keep)))
      && (forall n :: n in r.sites ==> r.sites[n] == c.sites[n])
      && Subsequence(r.names, c.names)
  {
    var folded := Folded(keep);
    FilterMembers(c.names, Keeps(c.sites, folded));
    FilterIsSubsequence(c.names, Keeps(c.sites, folded));
    forall n ensures CaseFold(n) in folded <==> AllowListed(n, keep) {
      if CaseFold(n) in folded {
        var j :| 0 <= j < |folded| && folded[j] == CaseFold(n);
        assert CaseFold(keep[j]) == CaseFold(n);
      }
    }
  }

  /** Removing NSFW sites twice with the same allow list is the same as once. */
  lemma RemoveNsfwIdempotent(c: Catalog, keep: seq<string>)
    requires c.Valid()
    ensures RemoveNsfw(RemoveNsfw(c, keep), keep) == RemoveNsfw(c, keep)
  {
    var r := RemoveNsfw(c, keep);
    var folded := Folded(keep);
    FilterMembers(c.names, Keeps(c.sites, folded));
    forall i | 0 <= i < |r.names| ensures Keeps(r.sites, folded)(r.names[i]) {
      assert r.names[i] in r.names;
    }
    FilterAll(r.names, Keeps(r.sites, folded));
    assert RemoveNsfw(r, keep).names == r.names;
  }

  /** The allow list ignores case: `["X"]` spares an NSFW site called "x". */
  lemma AllowListIgnoresCase(c: Catalog)
    requires c.Valid() && "x" in c.sites
    ensures "x" in RemoveNsfw(c, ["X"]).sites
  {
    RemoveNsfwKeeps(c, ["X"]);
    assert CaseFold(["X"][0]) == CaseFold("x");
  }

  // ---------------------------------------------------------------------------
  // detect_anomalies

  /** "Anomaly detected for site `site`: Invalid `key`". */
  datatype Diagnostic = Diagnostic(site: string, key: string)

  /**
   * What the lint reports: the diagnostics in the order they are printed and,
   * when `re.match` raised `TypeError` on a value that is not a string, the
   * site and key at which it did (nothing after that point is checked).
   */
  datatype Lint = Lint(anomalies: seq<Diagnostic>, raised: Option<Diagnostic>)

  /** The rules of `detect_anomalies`, in dict order. The key `url` is the username URL template. */
  const Rules: seq<(string, Pattern)> := [("url", UrlPattern), ("username_claimed", WordPattern)]

  const Clean := Lint([], None)

  /** Running one part of the lint after another: nothing runs after a raise. */
  function Combine(a: Lint, b: Lint): Lint {
    if a.raised.Some? then a else Lint(a.anomalies + b.anomalies, b.raised)
  }

  /** The value under the rule's key is a string that fails the rule's pattern. */
  predicate Anomalous(site: SiteInformation, rule: (string, Pattern)) {
    rule.0 in site.information && site.information[rule.0].Str?
    && !Matches(rule.1, site.information[rule.0].s)
  }

  /** The value under the rule's key is not a string, so `re.match` raises. */
  predicate NotString(site: SiteInformation, rule: (string, Pattern)) {
    rule.0 in site.information && !site.information[rule.0].Str?
  }

  function CheckRule(site: SiteInformation, rule: (string, Pattern)): Lint {
    if NotString(site, rule) then Lint([], Some(Diagnostic(site.name, rule.0)))
    else if Anomalous(site, rule) then Lint([Diagnostic(site.name, rule.0)], None)
    else Clean
  }

  /** The first `n` rules checked on one site. */
  function CheckRules(site: SiteInformation, n: nat): Lint
    requires n <= |Rules|
  {
    if n == 0 then Clean else Combine(CheckRules(site, n - 1), CheckRule(site, Rules[n - 1]))
  }

  /** The lint of the first `n` records. */
  function LintPrefix(rs: seq<SiteInformation>, n: nat): Lint
    requires n <= |rs|
  {
    if n == 0 then Clean else Combine(LintPrefix(rs, n - 1), CheckRules(rs[n - 1], |Rules|))
  }

  function LintAll(rs: seq<SiteInformation>): Lint {
    LintPrefix(rs, |rs|)
  }

  lemma CombineAssociative(a: Lint, b: Lint, c: Lint)
    ensures Combine(Combine(a, b), c) == Combine(a, Combine(b, c))
  {
  }

  /** Within one site, the `url` diagnostic comes before the `username_claimed` one. */
  lemma SiteDiagnosticsInRuleOrder(site: SiteInformation)
    requires !NotString(site, Rules[0]) && !NotString(site, Rules[1])
    ensures CheckRules(site, |Rules|)
         == Lint((if Anomalous(site, Rules[0]) then [Diagnostic(site.name, "url")] else [])
                 + (if Anomalous(site, Rules[1]) then [Diagnostic(site.name, "username_claimed")] else []),
                 None)
  {
    assert CheckRules(site, 1) == Combine(Clean, CheckRule(site, Rules[0]));
  }

  /** One site raises exactly when one of its rule keys holds a non-string. */
  lemma {:induction false} CheckRulesRaised(site: SiteInformation, n: nat)
    requires n <= |Rules|
    ensures CheckRules(site, n).raised.None? <==> forall j :: 0 <= j < n ==> !NotString(site, Rules[j])
    ensures CheckRules(site, n).raised.None? ==>
      forall d :: d in CheckRules(site, n).anomalies <==>
        exists j :: 0 <= j < n && d == Diagnostic(site.name, Rules[j].0) && Anomalous(site, Rules[j])
    decreases n
  {
    if n > 0 {
      CheckRulesRaised(site, n - 1);
    }
  }

  /**
   * The lint finishes without raising exactly when every rule key present
   * holds a string, and then it reports `(site, key)` exactly when `key` is
   * present in the site's entry with a value that fails the key's pattern.
   */
  lemma {:induction false} LintPrefixSound(rs: seq<SiteInformation>, n: nat)
    requires n <= |rs|
    ensures LintPrefix(rs, n).raised.None?
        <==> forall i, j :: 0 <= i < n && 0 <= j < |Rules| ==> !NotString(rs[i], Rules[j])
    ensures LintPrefix(rs, n).raised.None? ==>
      forall d :: d in LintPrefix(rs, n).anomalies <==>
        exists i, j :: 0 <= i < n && 0 <= j < |Rules|
          && d == Diagnostic(rs[i].name, Rules[j].0) && Anomalous(rs[i], Rules[j])
    decreases n
  {
    if n > 0 {
      LintPrefixSound(rs, n - 1);
      CheckRulesRaised(rs[n - 1], |Rules|);
    }
  }

  /** Once a site has raised, its later rules change nothing. */
  lemma {:induction false} CheckRulesRaisedStays(site: SiteInformation, n: nat, m: nat)
    requires n <= m <= |Rules|
    requires CheckRules(site, n).raised.Some?
    ensures CheckRules(site, m) == CheckRules(site, n)
    decreases m
  {
    if m > n {
      CheckRulesRaisedStays(site, n, m - 1);
    }
  }

  /** Once the lint has raised, later records change nothing. */
  lemma {:induction false} LintPrefixRaisedStays(rs: seq<SiteInformation>, n: nat, m: nat)
    requires n <= m <= |rs|
    requires LintPrefix(rs, n).raised.Some?
    ensures LintPrefix(rs, m) == LintPrefix(rs, n)
    decreases m
  {
    if m > n {
      LintPrefixRaisedStays(rs, n, m - 1);
    }
  }
}
