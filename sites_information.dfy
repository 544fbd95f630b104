/** `SitesInformation`: the catalog object, whose dict `sites` its methods update in place. */
module SiteCatalog {
  import opened Wrappers
  import opened Seqs
  import opened Text
  import opened Ordering
  import opened Json
  import opened Patterns
  import opened Sites
  import opened CatalogSpec

  class SitesInformation {
    /** The keys of `self.sites`, in insertion order. */
    var names: seq<string>
    /** The values of `self.sites`. */
    var sites: map<string, SiteInformation>

    function View(): Catalog
      reads this
    {
      Catalog(names, sites)
    }

    predicate Valid()
      reads this
    {
      View().Valid()
    }

    /** `self.sites = {}` */
    constructor ()
      ensures Valid() && names == [] && sites == map[]
    {
      names := [];
      sites := map[];
    }

    /**
     * `_initialize_sites(site_data)`: one record per entry, in file order.
     * An entry that is not a mapping is reported in `skipped` and passed
     * over; a mapping that lacks a required key aborts with `failure`.
     */
    method InitializeSites(data: Document, unclaimed: string)
      returns (failure: Option<LoadError>, skipped: seq<string>)
      requires names == [] && sites == map[]
      modifies this
      ensures Valid()
      ensures Build(data, unclaimed) == if failure.None? then Ok(View()) else Err(failure.value)
      ensures failure.None? ==> skipped == Filter(data.order, IsNotMapping(data.entries))
      ensures skipped == SkippedNames(data, unclaimed)
    {
      failure, skipped := None, [];
      // the entries read so far; `self.sites` is this catalog's dict
      var built := Catalog([], map[]);
      var i := 0;
      while i < |data.order|
        invariant 0 <= i <= |data.order|
        invariant BuildPrefix(data, i, unclaimed) == Ok(built)
        invariant skipped == Filter(data.order[..i], IsNotMapping(data.entries))
      {
        var name := data.order[i];
        FilterSnoc(data.order, i, IsNotMapping(data.entries));
        // the constructor call of the try block, with its KeyError and TypeError outcomes
        var read := ReadEntry(name, data.entries[name], unclaimed);
        match read {
          case Skipped =>
            assert IsNotMapping(data.entries)(name);
            skipped := skipped + [name];
          case Missing(key) =>
            // the KeyError is re-raised as ValueError, which aborts the load
            AbortAt(data, i, unclaimed, key);
            failure := Some(MissingAttribute(key));
            break;
          case Built(site) =>
            assert !IsNotMapping(data.entries)(name);
            built := Catalog(built.names + [name], built.sites[name := site]);
        }
        i := i + 1;
      }
      BuildPrefixOk(data, i, unclaimed);
      if failure.None? {
        assert data.order[..i] == data.order;
        SkippedPrefixOk(data, i, unclaimed);
      }
      names, sites := built.names, built.sites;
    }

    /**
     * `remove_nsfw_sites(do_not_remove)`: builds a fresh dict with the sites
     * that are not NSFW or whose case-folded name is in the case-folded list,
     * and makes it the new `sites`.
     */
    method RemoveNsfwSites(doNotRemove: seq<string>)
      requires Valid()
      modifies this
      ensures Valid()
      ensures View() == RemoveNsfw(old(View()), doNotRemove)
    {
      var folded := Folded(doNotRemove);
      var current, order := sites, names;
      var kept: seq<string> := [];
      var keptSites: map<string, SiteInformation> := map[];
      var i := 0;
      while i < |order|
        invariant 0 <= i <= |order|
        invariant kept == Filter(order[..i], Keeps(current, folded))
        invariant forall n :: n in keptSites <==> n in kept
        invariant forall n :: n in keptSites ==> n in current && keptSites[n] == current[n]
      {
        var site := order[i];
        FilterSnoc(order, i, Keeps(current, folded));
        if Truthy(current[site].isNsfw) && CaseFold(site) !in folded {
          // continue: the site is dropped
          assert !Keeps(current, folded)(site);
        } else {
          assert Keeps(current, folded)(site);
          kept := kept + [site];
          keptSites := keptSites[site := current[site]];
        }
        i := i + 1;
      }
      assert order[..i] == order;
      RemoveNsfwCollected(Catalog(order, current), doNotRemove, kept, keptSites);
      names, sites := kept, keptSites;
    }

    /** `__iter__`: the records in insertion order. */
    function Records(): (r: seq<SiteInformation>)
      reads this
      requires Valid()
      ensures |r| == |names|
      ensures forall i :: 0 <= i < |r| ==> r[i] == sites[names[i]]
      ensures forall i, j :: 0 <= i < j < |r| ==> r[i] != r[j]
      ensures forall n :: n in sites ==> sites[n] in r
    {
      View().Records()
    }

    /** `__len__` */
    function Len(): (n: nat)
      reads this
      requires Valid()
      ensures n == |names| && n == |Records()|
    {
      View().Len()
    }

    /**
     * `site_name_list()`: the names of the records, sorted by their
     * lower-cased form; names that lower-case alike keep insertion order.
     */
    function SiteNameList(): (r: seq<string>)
      reads this
      requires Valid()
      ensures SortedByLower(r)
      ensures multiset(r) == multiset(names) && Distinct(r)
      ensures forall key :: Filter(r, SameLower(key)) == Filter(names, SameLower(key))
    {
      var rs := Records();
      var listed := seq(|rs|, i requires 0 <= i < |rs| => rs[i].name);
      assert listed == names;
      SortStableAll(names);
      SortDistinct(names);
      SortByLower(listed)
    }

    /** `[site.information.get('description', '') for site in self.sites.values()]` */
    function Descriptions(): (r: seq<Value>)
      reads this
      requires Valid()
      ensures |r| == Len()
      ensures forall i :: 0 <= i < |r| ==> r[i] == Description(sites[names[i]])
    {
      var rs := Records();
      seq(|rs|, i requires 0 <= i < |rs| => Description(rs[i]))
    }

    /**
     * The write-back loop of `analyze_site_descriptions`: record `i` (in
     * iteration order) gets `information['cluster'] = labels[i]`.
     */
    method AssignClusters(labels: seq<int>)
      requires Valid() && |labels| == |names|
      modifies this
      ensures Valid() && names == old(names) && sites.Keys == old(sites).Keys
      ensures forall i :: 0 <= i < |names| ==> sites[names[i]] == Clustered(old(sites)[names[i]], labels[i])
      ensures Descriptions() == old(Descriptions())
    {
      var order, current := names, sites;
      assert Distinct(order);
      var i := 0;
      while i < |order|
        invariant 0 <= i <= |order|
        invariant current.Keys == sites.Keys
        invariant forall j :: 0 <= j < i ==> current[order[j]] == Clustered(sites[order[j]], labels[j])
        invariant forall j :: i <= j < |order| ==> current[order[j]] == sites[order[j]]
      {
        // site.information['cluster'] = int(clusters[i])
        assert forall j :: 0 <= j < |order| && j != i ==> order[j] != order[i];
        current := current[order[i] := Clustered(current[order[i]], labels[i])];
        i := i + 1;
      }
      assert Catalog(order, current).Valid() by {
        assert forall n :: n in current ==> n in order;
      }
      forall j | 0 <= j < |order|
        ensures Description(current[order[j]]) == Description(sites[order[j]])
      {
        ClusteringKeepsDescription(sites[order[j]], labels[j]);
      }
      sites := current;
    }

    /**
     * `detect_anomalies()`: checks every record against the rules in order
     * and reports the diagnostics it prints; the catalog is not changed.
     */
    method DetectAnomalies() returns (lint: Lint)
      requires Valid()
      ensures lint == LintAll(Records())
    {
      lint := LintRecords(Records());
    }
  }

  /** The nested loop of `detect_anomalies` over the records, in iteration order, and the rules. */
  method LintRecords(rs: seq<SiteInformation>) returns (lint: Lint)
    ensures lint == LintAll(rs)
  {
    lint := Clean;
    var i := 0;
    while i < |rs|
      invariant 0 <= i <= |rs|
      invariant lint == LintPrefix(rs, i) && lint.raised.None?
    {
      var site := rs[i];
      var j := 0;
      while j < |Rules|
        invariant 0 <= j <= |Rules|
        invariant lint == Combine(LintPrefix(rs, i), CheckRules(site, j)) && lint.raised.None?
      {
        var (key, pattern) := Rules[j];
        ghost var before, step := lint, CheckRule(site, Rules[j]);
        assert Combine(LintPrefix(rs, i), CheckRules(site, j + 1)) == Combine(before, step) by {
          CombineAssociative(LintPrefix(rs, i), CheckRules(site, j), step);
        }
        if key in site.information {
          var value := site.information[key];
          if !value.Str? {
            // re.match raises TypeError on a value that is not a string
            assert step == Lint([], Some(Diagnostic(site.name, key)));
            lint := Lint(lint.anomalies, Some(Diagnostic(site.name, key)));
            assert lint == LintPrefix(rs, i + 1) by {
              assert lint == Combine(before, step);
              CheckRulesRaisedStays(site, j + 1, |Rules|);
            }
            LintPrefixRaisedStays(rs, i + 1, |rs|);
            return;
          }
          if !Matches(pattern, value.s) {
            assert step == Lint([Diagnostic(site.name, key)], None);
            lint := Lint(lint.anomalies + [Diagnostic(site.name, key)], None);
          } else {
            assert step == Clean;
          }
        } else {
          assert step == Clean;
        }
        assert lint == Combine(before, step);
        j := j + 1;
      }
      assert lint == LintPrefix(rs, i + 1);
      i := i + 1;
    }
  }

  /** A record after the write-back of its cluster label. */
  /** `site.information.get('description', '')` */
  function Description(site: SiteInformation): Value {
    if "description" in site.information then site.information["description"] else Str("")
  }

  /** Writing the cluster back does not alter the description it was computed from. */
  lemma ClusteringKeepsDescription(site: SiteInformation, cluster: int)
    ensures Description(Clustered(site, cluster)) == Description(site)
  {
    assert "cluster" != "description";
  }

  function Clustered(site: SiteInformation, cluster: int): SiteInformation {
    site.(information := site.information["cluster" := Int(cluster)])
  }

  /** Every tie class is listed in input order by the sort. */
  lemma SortStableAll(s: seq<string>)
    ensures forall key :: Filter(SortByLower(s), SameLower(key)) == Filter(s, SameLower(key))
  {
    forall key ensures Filter(SortByLower(s), SameLower(key)) == Filter(s, SameLower(key)) {
      SortStable(s, key);
    }
  }
}
