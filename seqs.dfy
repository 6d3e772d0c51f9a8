/** Sequence operations the dashboard code uses from JavaScript's Array: `filter`
    and `Array.from(new Set(...))`, with the facts the rest of the model needs. */
module Seqs {

  /** The elements of `s` that satisfy `p`, in their original order (`Array.prototype.filter`). */
  function Select<T(==,!new)>(s: seq<T>, p: T -> bool): (r: seq<T>)
    ensures |r| <= |s|
    ensures forall x :: x in r <==> x in s && p(x)
  {
    if s == [] then [] else (if p(s[0]) then [s[0]] else []) + Select(s[1..], p)
  }

  /** `a` can be obtained from `b` by deleting elements: order kept, nothing altered. */
  predicate IsSubseq<T(==,!new)>(a: seq<T>, b: seq<T>)
    decreases |b|
  {
    a == [] || (b != [] && ((a[0] == b[0] && IsSubseq(a[1..], b[1..])) || IsSubseq(a, b[1..])))
  }

  predicate NoDuplicates<T(==,!new)>(s: seq<T>) {
    forall i, j :: 0 <= i < j < |s| ==> s[i] != s[j]
  }

  lemma {:induction false} SelectIsSubseq<T(!new)>(s: seq<T>, p: T -> bool)
    ensures IsSubseq(Select(s, p), s)
  {
    if s != [] {
      SelectIsSubseq(s[1..], p);
      if p(s[0]) {
        assert Select(s, p) == [s[0]] + Select(s[1..], p);
      } else {
        assert Select(s, p) == Select(s[1..], p);
      }
    }
  }

  lemma {:induction false} SelectConcat<T(!new)>(a: seq<T>, b: seq<T>, p: T -> bool)
    ensures Select(a + b, p) == Select(a, p) + Select(b, p)
  {
    if a != [] {
      assert (a + b)[1..] == a[1..] + b;
      SelectConcat(a[1..], b, p);
    } else {
      assert a + b == b;
    }
  }

  /** Two predicates that agree everywhere select the same elements. */
  lemma {:induction false} SelectPointwise<T(!new)>(s: seq<T>, p: T -> bool, q: T -> bool)
    requires forall x :: p(x) == q(x)
    ensures Select(s, p) == Select(s, q)
  {
    if s != [] {
      SelectPointwise(s[1..], p, q);
    }
  }

  /** Filtering by `p` and then by `q` keeps exactly what satisfies both. */
  lemma {:induction false} SelectSelect<T(!new)>(s: seq<T>, p: T -> bool, q: T -> bool, both: T -> bool)
    requires forall x :: both(x) == (p(x) && q(x))
    ensures Select(Select(s, p), q) == Select(s, both)
  {
    if s != [] {
      SelectSelect(s[1..], p, q, both);
      if p(s[0]) {
        assert Select(s, p) == [s[0]] + Select(s[1..], p);
        SelectConcat([s[0]], Select(s[1..], p), q);
      } else {
        assert Select(s, p) == Select(s[1..], p);
      }
    }
  }

  /** `Select` keeps every occurrence of an element that satisfies `p`, and none of one that does not. */
  lemma {:induction false} SelectCount<T(!new)>(s: seq<T>, p: T -> bool, x: T)
    ensures multiset(Select(s, p))[x] == if p(x) then multiset(s)[x] else 0
  {
    if s != [] {
      SelectCount(s[1..], p, x);
      assert s == [s[0]] + s[1..];
      assert Select(s, p) == (if p(s[0]) then [s[0]] else []) + Select(s[1..], p);
    }
  }

  /** Two filters applied one after the other commute. */
  lemma SelectCommute<T(!new)>(s: seq<T>, p: T -> bool, q: T -> bool)
    ensures Select(Select(s, p), q) == Select(Select(s, q), p)
  {
    var both := x => p(x) && q(x);
    SelectSelect(s, p, q, both);
    SelectSelect(s, q, p, both);
  }

  /** Filtering twice by the same predicate is filtering once. */
  lemma SelectIdempotent<T(!new)>(s: seq<T>, p: T -> bool)
    ensures Select(Select(s, p), p) == Select(s, p)
  {
    SelectSelect(s, p, p, p);
  }

  /** A predicate that holds of every element keeps the whole sequence. */
  lemma {:induction false} SelectAll<T(!new)>(s: seq<T>, p: T -> bool)
    requires forall x :: x in s ==> p(x)
    ensures Select(s, p) == s
  {
    if s != [] {
      SelectAll(s[1..], p);
    }
  }

  /** The position of the first occurrence of `x` in `s`. */
  function FirstIndex<T(==,!new)>(s: seq<T>, x: T): (k: nat)
    requires x in s
    ensures k < |s| && s[k] == x && x !in s[..k]
  {
    if s[0] == x then 0 else 1 + FirstIndex(s[1..], x)
  }

  /** Dropping the last element does not move a first occurrence that lies before it. */
  lemma FirstIndexPrefix<T(!new)>(s: seq<T>, x: T)
    requires |s| > 0 && x in s[..|s| - 1]
    ensures FirstIndex(s, x) == FirstIndex(s[..|s| - 1], x)
  {
    var k, k' := FirstIndex(s, x), FirstIndex(s[..|s| - 1], x);
    assert s[..k'] == s[..|s| - 1][..k'];
  }

  /** `s` without repeats, each value at its first occurrence (`Array.from(new Set(s))`). */
  function Distinct<T(==,!new)>(s: seq<T>): (r: seq<T>)
    ensures forall x :: x in r <==> x in s
    ensures NoDuplicates(r)
  {
    if s == [] then []
    else
      var d := Distinct(s[..|s| - 1]);
      assert forall x :: x in s <==> x in s[..|s| - 1] || x == s[|s| - 1] by {
        assert s == s[..|s| - 1] + [s[|s| - 1]];
      }
      if s[|s| - 1] in d then d else d + [s[|s| - 1]]
  }

  /** The distinct values come out in the order of their first occurrence. */
  lemma {:induction false} DistinctFirstSeen<T(!new)>(s: seq<T>)
    ensures forall i, j :: 0 <= i < j < |Distinct(s)| ==>
      FirstIndex(s, Distinct(s)[i]) < FirstIndex(s, Distinct(s)[j])
  {
    if s != [] {
      var n := |s|;
      var init, last := s[..n - 1], s[n - 1];
      var d := Distinct(init);
      DistinctFirstSeen(init);
      forall y | y in d ensures FirstIndex(s, y) == FirstIndex(init, y) && FirstIndex(s, y) < n - 1 {
        FirstIndexPrefix(s, y);
      }
      if last !in d {
        assert last !in init;
        assert FirstIndex(s, last) == n - 1;
      }
    }
  }

  /** A sequence holding one value, however often, has that value as its only distinct element. */
  lemma {:induction false} DistinctOfConstant<T(!new)>(s: seq<T>, x: T)
    requires |s| > 0 && forall i :: 0 <= i < |s| ==> s[i] == x
    ensures Distinct(s) == [x]
  {
    if |s| > 1 {
      DistinctOfConstant(s[..|s| - 1], x);
    }
  }
}
