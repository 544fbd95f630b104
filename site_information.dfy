/** `SiteInformation`: the record kept for one website of the catalog. */
module Sites {
  import opened Json

  /**
   * The probing metadata of one site. `urlHome`, `urlUsernameFormat`,
   * `usernameClaimed` and `isNsfw` hold whatever JSON value the data file
   * gives; `information` is the site's whole entry.
   */
  datatype SiteInformation = SiteInformation(
    name: string,
    urlHome: Value,
    urlUsernameFormat: Value,
    usernameClaimed: Value,
    information: map<string, Value>,
    isNsfw: Value,
    usernameUnclaimed: string)
  {
    /**
     * `__str__`: the name, a space, and the home URL in parentheses; the
     * name and the URL text can be read back from the fixed positions.
     */
    function ToString(): (r: string)
      ensures |r| == |name| + |Display(urlHome)| + 3
      ensures r[..|name|] == name
      ensures r[|name|..|name| + 2] == " ("
      ensures r[|name| + 2..|r| - 1] == Display(urlHome)
      ensures r[|r| - 1] == ')'
    {
      name + " (" + Display(urlHome) + ")"
    }
  }

  /** The keys `_initialize_sites` reads from every entry, in the order it reads them. */
  const RequiredKeys: seq<string> := ["urlMain", "url", "username_claimed"]

  /** What building one record from one entry gives. */
  datatype EntryResult =
    | Built(site: SiteInformation)
    | Missing(key: string)   // KeyError, re-raised by the loader as ValueError
    | Skipped                // TypeError: the entry is not a mapping

  /**
   * The constructor call of `_initialize_sites` for the entry `entry` stored
   * under `name`. `unclaimed` is the default `username_unclaimed`, which is
   * evaluated once for all records.
   */
  function ReadEntry(name: string, entry: Entry, unclaimed: string): (r: EntryResult)
    ensures r.Skipped? <==> entry.NotMapping?
    ensures r.Built? <==> entry.Mapping? && forall k :: k in RequiredKeys ==> k in entry.fields
    ensures r.Missing? ==>
      && entry.Mapping?
      && exists i :: 0 <= i < |RequiredKeys| && r.key == RequiredKeys[i]
           && r.key !in entry.fields
           && forall j :: 0 <= j < i ==> RequiredKeys[j] in entry.fields
    ensures r.Built? ==>
      && r.site.name == name
      && entry == Mapping(r.site.information)
      && r.site.urlHome == entry.fields["urlMain"]
      && r.site.urlUsernameFormat == entry.fields["url"]
      && r.site.usernameClaimed == entry.fields["username_claimed"]
      && r.site.isNsfw == (if "isNSFW" in entry.fields then entry.fields["isNSFW"] else Bool(false))
      && r.site.usernameUnclaimed == unclaimed
  {
    match entry
    case NotMapping => Skipped
    case Mapping(m) =>
      assert RequiredKeys[0] == "urlMain" && RequiredKeys[1] == "url";
      if "urlMain" !in m then Missing("urlMain")
      else if "url" !in m then Missing("url")
      else if "username_claimed" !in m then Missing("username_claimed")
      else
        var nsfw := if "isNSFW" in m then m["isNSFW"] else Bool(false);
        Built(SiteInformation(name, m["urlMain"], m["url"], m["username_claimed"], m, nsfw, unclaimed))
  }
}
