/** Sequence helpers: distinctness, order-preserving filtering and subsequences. */
module Seqs {

  /** No element occurs twice. */
  predicate Distinct<T(==)>(s: seq<T>) {
    forall i, j :: 0 <= i < j < |s| ==> s[i] != s[j]
  }

  /** The elements of `s` that satisfy `f`, in their original order. */
  function Filter<T>(s: seq<T>, f: T -> bool): seq<T>
    decreases |s|
  {
    if s == [] then []
    else Filter(s[..|s| - 1], f) + (if f(s[|s| - 1]) then [s[|s| - 1]] else [])
  }

  /** `a` is obtained from `b` by deleting elements (relative order is kept). */
  predicate Subsequence<T(==)>(a: seq<T>, b: seq<T>)
    decreases |b|
  {
    if a == [] then true
    else if b == [] then false
    else if a[|a| - 1] == b[|b| - 1] then Subsequence(a[..|a| - 1], b[..|b| - 1])
    else Subsequence(a, b[..|b| - 1])
  }

  lemma {:induction false} FilterMembers<T>(s: seq<T>, f: T -> bool)
    ensures forall x :: x in Filter(s, f) <==> x in s && f(x)
    decreases |s|
  {
    if s != [] {
      FilterMembers(s[..|s| - 1], f);
      assert s == s[..|s| - 1] + [s[|s| - 1]];
    }
  }

  lemma {:induction false} FilterAppend<T>(a: seq<T>, b: seq<T>, f: T -> bool)
    ensures Filter(a + b, f) == Filter(a, f) + Filter(b, f)
    decreases |b|
  {
    if b != [] {
      var b' := b[..|b| - 1];
      assert (a + b)[..|a + b| - 1] == a + b';
      assert (a + b)[|a + b| - 1] == b[|b| - 1];
      FilterAppend(a, b', f);
    } else {
      assert a + b == a;
    }
  }

  /** One more element of `s` looked at by a loop that filters it from the left. */
  lemma FilterSnoc<T>(s: seq<T>, i: nat, f: T -> bool)
    requires i < |s|
    ensures Filter(s[..i + 1], f) == Filter(s[..i], f) + (if f(s[i]) then [s[i]] else [])
  {
    assert s[..i + 1][..i] == s[..i];
  }

  lemma FilterCons<T>(x: T, s: seq<T>, f: T -> bool)
    ensures Filter([x] + s, f) == (if f(x) then [x] else []) + Filter(s, f)
  {
    FilterAppend([x], s, f);
    assert [x][..0] == [];
  }

  lemma {:induction false} FilterDistinct<T>(s: seq<T>, f: T -> bool)
    requires Distinct(s)
    ensures Distinct(Filter(s, f))
    decreases |s|
  {
    if s != [] {
      var init := s[..|s| - 1];
      FilterDistinct(init, f);
      FilterMembers(init, f);
    }
  }

  /** Filtering by a predicate that every element already satisfies changes nothing. */
  lemma {:induction false} FilterAll<T>(s: seq<T>, f: T -> bool)
    requires forall i :: 0 <= i < |s| ==> f(s[i])
    ensures Filter(s, f) == s
    decreases |s|
  {
    if s != [] {
      FilterAll(s[..|s| - 1], f);
    }
  }

  lemma {:induction false} FilterIsSubsequence<T>(s: seq<T>, f: T -> bool)
    ensures Subsequence(Filter(s, f), s)
    decreases |s|
  {
    if s != [] {
      var init := s[..|s| - 1];
      FilterIsSubsequence(init, f);
      assert s == init + [s[|s| - 1]];
      if f(s[|s| - 1]) {
        assert (Filter(init, f) + [s[|s| - 1]])[..|Filter(init, f)|] == Filter(init, f);
      } else {
        assert Filter(s, f) == Filter(init, f) + [];
        SubsequenceExtend(Filter(init, f), init, s[|s| - 1]);
        assert Filter(init, f) + [] == Filter(init, f);
      }
    }
  }

  lemma {:induction false} SubsequenceExtend<T>(a: seq<T>, b: seq<T>, x: T)
    requires Subsequence(a, b)
    ensures Subsequence(a, b + [x])
    decreases |b|, 1
  {
    assert (b + [x])[..|b|] == b;
    if a != [] && a[|a| - 1] == x {
      SubsequenceDropLast(a, b);
    }
  }

  lemma {:induction false} SubsequenceDropLast<T>(a: seq<T>, b: seq<T>)
    requires a != [] && Subsequence(a, b)
    ensures Subsequence(a[..|a| - 1], b)
    decreases |b|, 0
  {
    var a', b' := a[..|a| - 1], b[..|b| - 1];
    if a[|a| - 1] == b[|b| - 1] {
      SubsequenceExtend(a', b', b[|b| - 1]);
    } else {
      SubsequenceDropLast(a, b');
      SubsequenceExtend(a', b', b[|b| - 1]);
    }
    assert b' + [b[|b| - 1]] == b;
  }

  /** In a sequence without repetitions, no element occurs before its own position. */
  lemma DistinctNotInPrefix<T>(s: seq<T>, i: nat)
    requires Distinct(s) && i < |s|
    ensures s[i] !in s[..i]
  {
  }

  /** A sequence without repetitions has as many elements as its set of elements. */
  lemma {:induction false} DistinctCardinality<T>(s: seq<T>)
    requires Distinct(s)
    ensures |set x | x in s| == |s|
    decreases |s|
  {
    if s != [] {
      var init := s[..|s| - 1];
      DistinctCardinality(init);
      assert (set x | x in s) == (set x | x in init) + {s[|s| - 1]};
    }
  }
}
