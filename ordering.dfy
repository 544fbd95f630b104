/**
 * `sorted(names, key=str.lower)`: a stable sort of strings by their
 * lower-cased form, written as an insertion sort.
 */
module Ordering {
  import opened Seqs
  import opened Text

  /** `a` goes no later than `b` when sorting by `str.lower`. */
  predicate LowerLe(a: string, b: string) {
    LexLe(Lower(a), Lower(b))
  }

  predicate SortedByLower(s: seq<string>) {
    forall i, j :: 0 <= i < j < |s| ==> LowerLe(s[i], s[j])
  }

  /** Holds of the strings whose lower-cased form is `key` (one class of ties). */
  function SameLower(key: string): string -> bool {
    s => Lower(s) == key
  }

  /** Puts `x` in front of the first element that does not sort before it. */
  function Insert(x: string, s: seq<string>): (r: seq<string>)
    ensures multiset(r) == multiset(s) + multiset{x}
    ensures SortedByLower(s) ==> SortedByLower(r)
    decreases |s|
  {
    if s == [] then [x]
    else if LowerLe(x, s[0]) then
      InsertFrontSorted(x, s);
      [x] + s
    else
      LexLeTotal(Lower(x), Lower(s[0]));
      var r := [s[0]] + Insert(x, s[1..]);
      assert s == [s[0]] + s[1..];
      InsertBehindSorted(s[0], x, s[1..], Insert(x, s[1..]));
      r
  }

  lemma InsertFrontSorted(x: string, s: seq<string>)
    requires s != [] && LowerLe(x, s[0])
    ensures SortedByLower(s) ==> SortedByLower([x] + s)
  {
    if SortedByLower(s) {
      forall j | 0 < j < |s| + 1
        ensures LowerLe(([x] + s)[0], ([x] + s)[j])
      {
        if j > 1 {
          LexLeTransitive(Lower(x), Lower(s[0]), Lower(s[j - 1]));
        }
      }
    }
  }

  lemma InsertBehindSorted(y: string, x: string, s: seq<string>, t: seq<string>)
    requires LowerLe(y, x)
    requires multiset(t) == multiset(s) + multiset{x}
    requires SortedByLower([y] + s) ==> SortedByLower(t)
    ensures SortedByLower([y] + s) ==> SortedByLower([y] + t)
  {
    if SortedByLower([y] + s) {
      forall j | 0 <= j < |t|
        ensures LowerLe(y, t[j])
      {
        assert t[j] in multiset(t);
        if t[j] != x {
          assert t[j] in multiset(s);
          var k :| 0 <= k < |s| && s[k] == t[j];
          assert ([y] + s)[k + 1] == s[k];
          assert LowerLe(([y] + s)[0], ([y] + s)[k + 1]);
        }
      }
    }
  }

  /** The sort of `site_name_list`: ordered by lower-cased form and a permutation of its input. */
  function SortByLower(s: seq<string>): (r: seq<string>)
    ensures SortedByLower(r)
    ensures multiset(r) == multiset(s)
    ensures |r| == |s|
    decreases |s|
  {
    if s == [] then []
    else
      assert s == [s[0]] + s[1..];
      Insert(s[0], SortByLower(s[1..]))
  }

  /** Insertion into a list without repetitions of a new element repeats nothing. */
  lemma {:induction false} InsertDistinct(x: string, s: seq<string>)
    requires Distinct(s) && x !in s
    ensures Distinct(Insert(x, s))
    decreases |s|
  {
    if s != [] && !LowerLe(x, s[0]) {
      InsertDistinct(x, s[1..]);
      assert s[0] !in multiset(Insert(x, s[1..]));
    }
  }

  /** Sorting a list without repetitions repeats nothing. */
  lemma {:induction false} SortDistinct(s: seq<string>)
    requires Distinct(s)
    ensures Distinct(SortByLower(s))
    decreases |s|
  {
    if s != [] {
      SortDistinct(s[1..]);
      assert s[0] !in multiset(SortByLower(s[1..]));
      InsertDistinct(s[0], SortByLower(s[1..]));
    }
  }

  lemma SortedTail(s: seq<string>)
    requires s != [] && SortedByLower(s)
    ensures SortedByLower(s[1..])
  {
    forall i, j | 0 <= i < j < |s| - 1 ensures LowerLe(s[1..][i], s[1..][j]) {
      assert s[1..][i] == s[i + 1] && s[1..][j] == s[j + 1];
    }
  }

  /** Inserting `x` keeps it in front of every element that ties with it. */
  lemma {:induction false} InsertStable(x: string, s: seq<string>, key: string)
    requires SortedByLower(s)
    ensures Filter(Insert(x, s), SameLower(key))
         == (if SameLower(key)(x) then [x] else []) + Filter(s, SameLower(key))
    decreases |s|
  {
    var f := SameLower(key);
    if s == [] {
      FilterCons(x, [], f);
    } else if LowerLe(x, s[0]) {
      FilterCons(x, s, f);
    } else {
      var y, rest := s[0], s[1..];
      var ins := Insert(x, rest);
      assert Insert(x, s) == [y] + ins;
      assert SortedByLower(rest) by {
        SortedTail(s);
      }
      InsertStable(x, rest, key);
      FilterCons(y, ins, f);
      assert s == [y] + rest;
      FilterCons(y, rest, f);
      if f(x) {
        assert !f(y) by {
          LexLeReflexive(Lower(x));
        }
        assert Filter(Insert(x, s), f) == Filter(ins, f) == [x] + Filter(rest, f);
        assert Filter(s, f) == Filter(rest, f);
      } else {
        assert Filter(ins, f) == Filter(rest, f);
      }
    }
  }

  /**
   * Stability of the sort: restricted to the strings of any one lower-cased
   * form, the output lists them in input order.
   */
  lemma {:induction false} SortStable(s: seq<string>, key: string)
    ensures Filter(SortByLower(s), SameLower(key)) == Filter(s, SameLower(key))
    decreases |s|
  {
    if s != [] {
      var x, rest := s[0], s[1..];
      var f := SameLower(key);
      var sortedRest := SortByLower(rest);
      var head := if f(x) then [x] else [];
      assert SortByLower(s) == Insert(x, sortedRest);
      SortStable(rest, key);
      assert Filter(sortedRest, f) == Filter(rest, f);
      InsertStable(x, sortedRest, key);
      assert Filter(Insert(x, sortedRest), f) == head + Filter(rest, f);
      assert s == [x] + rest;
      FilterCons(x, rest, f);
      assert Filter(s, f) == head + Filter(rest, f);
    }
  }
}
