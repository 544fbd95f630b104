/**
 * The loading half of `SitesInformation.__init__`: choosing the data
 * source, fetching it (a parameter here), dropping `$schema`, and building
 * the catalog.
 */
module Loader {
  import opened Wrappers
  import opened Seqs
  import opened Text
  import opened Json
  import opened Sites
  import opened CatalogSpec
  import opened SiteCatalog

  /**
   * The data file used when no source is given. It is written as the scheme
   * followed by the rest of the URL so that proofs can read off its first
   * characters; the verifier does not index far into one long literal.
   */
  const DefaultDataUrl: string :=
    "https://" + "raw.githubusercontent.com/sherlock-project/sherlock/master/sherlock_project/resources/data.json"

  /** Where the data comes from, or why the source name was refused. */
  datatype DataSource =
    | Rejected(path: string)  // does not end in ".json"
    | Remote(path: string)    // fetched with requests.get
    | Local(path: string)     // opened as a file

  /** `None` and the empty string are falsy and select the default URL. */
  function EffectivePath(source: Option<string>): (p: string)
    ensures source.None? || source.value == "" ==> p == DefaultDataUrl
    ensures source.Some? && source.value != "" ==> p == source.value
  {
    match source
    case None => DefaultDataUrl
    case Some(s) => if s == "" then DefaultDataUrl else s
  }

  /** The two tests on the lower-cased source name, made before any I/O. */
  function Classify(source: Option<string>): (r: DataSource)
    ensures r.path == EffectivePath(source)
    ensures r.Rejected? <==> !EndsWith(Lower(r.path), ".json")
    ensures r.Remote? <==> EndsWith(Lower(r.path), ".json") && StartsWith(Lower(r.path), "http")
  {
    var path := EffectivePath(source);
    var lowered := Lower(path);
    if !EndsWith(lowered, ".json") then Rejected(path)
    else if StartsWith(lowered, "http") then Remote(path)
    else Local(path)
  }

  /** Without a source, the default URL is used; it passes the extension test and is fetched remotely. */
  lemma DefaultSourceIsRemote()
    ensures Classify(None) == Remote(DefaultDataUrl)
    ensures Classify(Some("")) == Remote(DefaultDataUrl)
  {
    var lowered := Lower(DefaultDataUrl);
    var n := |DefaultDataUrl|;
    assert DefaultDataUrl[n - 5..] == ".json";
    assert lowered[n - 5..] == ".json" by {
      forall i | n - 5 <= i < n ensures lowered[i] == DefaultDataUrl[i] {
      }
    }
    assert DefaultDataUrl[..4] == "https://"[..4] == "http";
    assert lowered[..4] == "http" by {
      assert DefaultDataUrl[0] == 'h' && DefaultDataUrl[1] == 't';
      assert DefaultDataUrl[2] == 't' && DefaultDataUrl[3] == 'p';
    }
  }

  /** The extension and scheme tests ignore case: the source and its lower-cased form are treated alike. */
  lemma ClassifyIgnoresCase(path: string)
    ensures Classify(Some(Lower(path))).Rejected? == Classify(Some(path)).Rejected?
    ensures Classify(Some(Lower(path))).Remote? == Classify(Some(path)).Remote?
  {
    LowerIdempotent(path);
  }

  /** A file that is not JSON is refused before anything is read. */
  lemma ClassifyRejectsOtherExtension()
    ensures Classify(Some("data.csv")) == Rejected("data.csv")
  {
    assert Lower("data.csv")[4] == '.';
    assert Lower("data.csv")[5] == 'c';
  }

  /** The extension check ignores case. */
  lemma ClassifyUpperCaseLocalFile()
    ensures Classify(Some("DATA.JSON")) == Local("DATA.JSON")
  {
    var u := "DATA.JSON";
    assert Lower(u) == "data.json";
    assert Lower(u)[..4] != "http" by {
      assert Lower(u)[0] == 'd';
    }
  }

  /** The scheme check ignores case. */
  lemma ClassifyUpperCaseUrl()
    ensures Classify(Some("HTTPS://EXAMPLE.COM/DATA.JSON")) == Remote("HTTPS://EXAMPLE.COM/DATA.JSON")
  {
    var w := "HTTPS://EXAMPLE.COM/DATA.JSON";
    assert Lower(w)[..4] == "http";
    assert Lower(w)[|w| - 5..] == ".json";
  }

  function NotSchema(key: string): bool {
    key != "$schema"
  }

  /** `site_data.pop('$schema', None)`: the other entries stay, in their order. */
  function DropSchema(doc: Document): (r: Document)
    ensures "$schema" !in r.entries && "$schema" !in r.order
    ensures forall k :: k in r.entries <==> k in doc.entries && k != "$schema"
    ensures forall k :: k in r.entries ==> r.entries[k] == doc.entries[k]
    ensures r.order == Filter(doc.order, NotSchema)
  {
    var order := Filter(doc.order, NotSchema);
    FilterMembers(doc.order, NotSchema);
    FilterDistinct(doc.order, NotSchema);
    RawDocument(order, doc.entries - {"$schema"})
  }

  /**
   * What `SitesInformation(source)` ends with: the refusal of the source
   * name, the error of the fetch, the build error, or the catalog.
   * `fetch` stands for the HTTP request or the file read and JSON parse.
   */
  function LoadSpec(source: Option<string>, fetch: DataSource -> Result<Document, LoadError>,
                    unclaimed: string): Result<Catalog, LoadError>
  {
    var src := Classify(source);
    if src.Rejected? then Err(IncorrectExtension(src.path))
    else match fetch(src)
      case Err(e) => Err(e)
      case Ok(doc) => Build(DropSchema(doc), unclaimed)
  }

  /** The names reported as skipped by `SitesInformation(source)`: none unless the data was read. */
  function LoadSkipped(source: Option<string>, fetch: DataSource -> Result<Document, LoadError>,
                       unclaimed: string): seq<string>
  {
    var src := Classify(source);
    if src.Rejected? then []
    else match fetch(src)
      case Err(_) => []
      case Ok(doc) => SkippedNames(DropSchema(doc), unclaimed)
  }

  /** A refused source name fails the same way whatever the fetch would have done: it is never fetched. */
  lemma RejectedBeforeFetch(source: Option<string>, fetch1: DataSource -> Result<Document, LoadError>,
                            fetch2: DataSource -> Result<Document, LoadError>, unclaimed: string)
    requires !EndsWith(Lower(EffectivePath(source)), ".json")
    ensures LoadSpec(source, fetch1, unclaimed) == LoadSpec(source, fetch2, unclaimed)
    ensures LoadSpec(source, fetch1, unclaimed) == Err(IncorrectExtension(EffectivePath(source)))
  {
  }

  /** The reserved `$schema` key never becomes a site. */
  lemma SchemaNeverSite(source: Option<string>, fetch: DataSource -> Result<Document, LoadError>,
                        unclaimed: string)
    requires LoadSpec(source, fetch, unclaimed).Ok?
    ensures "$schema" !in LoadSpec(source, fetch, unclaimed).value.sites
    ensures "$schema" !in LoadSpec(source, fetch, unclaimed).value.names
  {
    var doc := DropSchema(fetch(Classify(source)).value);
    BuildRecords(doc, unclaimed);
  }

  /** A local file with one well-formed site gives a catalog of that one site. */
  lemma LoadOneSite(fetch: DataSource -> Result<Document, LoadError>, unclaimed: string)
    requires fetch(Local("site.json")) == Ok(OneSiteDocument())
    ensures LoadSpec(Some("site.json"), fetch, unclaimed).Ok?
    ensures var c := LoadSpec(Some("site.json"), fetch, unclaimed).value;
      c.Valid() && c.Len() == 1 && c.names == ["SiteA"]
      && c.sites["SiteA"].urlHome == Str("https://a.com")
  {
    assert Classify(Some("site.json")) == Local("site.json") by {
      var lowered := Lower("site.json");
      assert lowered[0] == 's';
    }
    var doc := OneSiteDocument();
    assert DropSchema(doc) == doc by {
      FilterAll(doc.order, NotSchema);
      assert doc.entries - {"$schema"} == doc.entries;
    }
    OneSiteBuilds(unclaimed);
  }

  lemma OneSiteBuilds(unclaimed: string)
    ensures Build(OneSiteDocument(), unclaimed).Ok?
    ensures var c := Build(OneSiteDocument(), unclaimed).value;
      c.Valid() && c.Len() == 1 && c.names == ["SiteA"]
      && c.sites["SiteA"].urlHome == Str("https://a.com")
  {
    var doc := OneSiteDocument();
    assert BuildPrefix(doc, 0, unclaimed) == Ok(Catalog([], map[]));
    var fields := doc.entries["SiteA"].fields;
    assert "urlMain" in fields && "url" in fields && "username_claimed" in fields;
    assert fields["urlMain"] == Str("https://a.com");
    var site := ReadEntry("SiteA", EntryAt(doc, 0), unclaimed);
    assert site.Built? && site.site.urlHome == Str("https://a.com");
    var c := Catalog(["SiteA"], map["SiteA" := site.site]);
    assert |doc.order| == 1 && doc.order[0] == "SiteA";
    assert BuildPrefix(doc, 1, unclaimed) == Ok(c) by {
      assert [] + ["SiteA"] == c.names;
      assert map[]["SiteA" := site.site] == c.sites;
    }
    BuildRecords(doc, unclaimed);
    assert c.sites["SiteA"] == site.site;
  }

  /** `{"SiteA": {"urlMain": "https://a.com", "url": "https://a.com/{}", "username_claimed": "admin"}}` */
  function OneSiteDocument(): Document {
    var fields := map["urlMain" := Str("https://a.com"), "url" := Str("https://a.com/{}"),
                      "username_claimed" := Str("admin")];
    RawDocument(["SiteA"], map["SiteA" := Mapping(fields)])
  }

  /**
   * `SitesInformation(data_file_path)`: a fresh catalog object in the state
   * `LoadSpec` describes, or the error; `skipped` lists the entries passed
   * over because they are not mappings.
   */
  method Load(source: Option<string>, fetch: DataSource -> Result<Document, LoadError>, unclaimed: string)
    returns (r: Result<SitesInformation, LoadError>, skipped: seq<string>)
    ensures r.Err? <==> LoadSpec(source, fetch, unclaimed).Err?
    ensures r.Err? ==> r.error == LoadSpec(source, fetch, unclaimed).error
    ensures r.Ok? ==> fresh(r.value) && r.value.Valid()
                      && r.value.View() == LoadSpec(source, fetch, unclaimed).value
    ensures skipped == LoadSkipped(source, fetch, unclaimed)
  {
    skipped := [];
    var src := Classify(source);
    if src.Rejected? {
      return Err(IncorrectExtension(src.path)), skipped;
    }
    var fetched := fetch(src);
    if fetched.Err? {
      return Err(fetched.error), skipped;
    }
    var siteData := DropSchema(fetched.value);
    var catalog := new SitesInformation();
    var failure;
    failure, skipped := catalog.InitializeSites(siteData, unclaimed);
    if failure.Some? {
      return Err(failure.value), skipped;
    }
    r := Ok(catalog);
  }
}
