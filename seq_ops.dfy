// Array.prototype.filter and the stable Array.prototype.sort that the
// planning pages use, over sequences. A comparator `cmp(a, b)` of the
// source becomes the relation `le(a, b)`, "cmp(a, b) <= 0": a may stay
// before b.

module SeqOps {

  /** `s.filter(p)`: the elements satisfying p, in their order. */
  function Filter<T>(s: seq<T>, p: T -> bool): (r: seq<T>)
    ensures |r| <= |s|
  {
    if s == [] then []
    else
      var rest := Filter(s[1..], p);
      if p(s[0]) then [s[0]] + rest else rest
  }

  /** An element is kept by the filter exactly when it is in the input and satisfies p. */
  lemma {:induction false} FilterMember<T>(s: seq<T>, p: T -> bool, x: T)
    ensures x in Filter(s, p) <==> x in s && p(x)
    decreases |s|
  {
    if s != [] {
      FilterMember(s[1..], p, x);
      assert s == [s[0]] + s[1..];
    }
  }

  /** The filter keeps every element satisfying p as often as the input holds it, and no other. */
  lemma {:induction false} FilterCount<T>(s: seq<T>, p: T -> bool, x: T)
    ensures multiset(Filter(s, p))[x] == if p(x) then multiset(s)[x] else 0
    decreases |s|
  {
    if s != [] {
      FilterCount(s[1..], p, x);
      assert s == [s[0]] + s[1..];
    }
  }

  /** `le` orders its type totally, ties allowed: what a consistent comparator gives. */
  ghost predicate TotalPreorder<T(!new)>(le: (T, T) -> bool)
  {
    (forall a, b :: le(a, b) || le(b, a)) &&
    (forall a, b, c :: le(a, b) && le(b, c) ==> le(a, c))
  }

  predicate SortedBy<T>(s: seq<T>, le: (T, T) -> bool)
  {
    forall i, j :: 0 <= i < j < |s| ==> le(s[i], s[j])
  }

  /** x placed before the first element it may precede. */
  function Insert<T>(x: T, s: seq<T>, le: (T, T) -> bool): (r: seq<T>)
    ensures |r| == |s| + 1
    ensures multiset(r) == multiset(s) + multiset{x}
  {
    if s == [] || le(x, s[0]) then [x] + s
    else
      assert s == [s[0]] + s[1..];
      [s[0]] + Insert(x, s[1..], le)
  }

  /**
   * Insertion sort: each element goes before the first later-sorted
   * element it may precede, so equal elements keep their input order,
   * as the stable sort of ECMAScript 2019 requires.
   */
  function Sort<T>(s: seq<T>, le: (T, T) -> bool): (r: seq<T>)
    ensures |r| == |s|
    ensures multiset(r) == multiset(s)
  {
    if s == [] then []
    else
      assert s == [s[0]] + s[1..];
      Insert(s[0], Sort(s[1..], le), le)
  }

  lemma {:induction false} InsertSorted<T(!new)>(x: T, s: seq<T>, le: (T, T) -> bool)
    requires TotalPreorder(le) && SortedBy(s, le)
    ensures SortedBy(Insert(x, s, le), le)
  {
    if s == [] || le(x, s[0]) {
      var r := [x] + s;
      forall i, j | 0 <= i < j < |r|
        ensures le(r[i], r[j])
      {
        if i == 0 {
          assert le(s[0], s[j - 1]) || j == 1;
        }
      }
    } else {
      var tail := s[1..];
      InsertSorted(x, tail, le);
      var ins := Insert(x, tail, le);
      var r := [s[0]] + ins;
      assert le(s[0], x);
      forall k | 0 <= k < |ins|
        ensures le(s[0], ins[k])
      {
        assert ins[k] in multiset(ins);
        assert ins[k] in multiset(tail) + multiset{x};
        if ins[k] != x {
          assert ins[k] in multiset(tail);
          var m :| 0 <= m < |tail| && tail[m] == ins[k];
          assert s[m + 1] == ins[k];
        }
      }
      forall i, j | 0 <= i < j < |r|
        ensures le(r[i], r[j])
      {
        if i == 0 {
          assert r[j] == ins[j - 1];
        } else {
          assert r[i] == ins[i - 1] && r[j] == ins[j - 1];
        }
      }
    }
  }

  /** Sort gives a sorted permutation of its input. */
  lemma {:induction false} SortSorted<T(!new)>(s: seq<T>, le: (T, T) -> bool)
    requires TotalPreorder(le)
    ensures SortedBy(Sort(s, le), le) && multiset(Sort(s, le)) == multiset(s)
  {
    if s != [] {
      SortSorted(s[1..], le);
      InsertSorted(s[0], Sort(s[1..], le), le);
    }
  }

  /** Sorting keeps exactly the elements it is given. */
  lemma SortMember<T>(s: seq<T>, le: (T, T) -> bool, x: T)
    ensures x in Sort(s, le) <==> x in s
  {
    assert x in Sort(s, le) <==> x in multiset(Sort(s, le));
    assert x in s <==> x in multiset(s);
  }

  /** The first element after sorting is in the input and may precede every element of it. */
  lemma SortFirstIsLeast<T(!new)>(s: seq<T>, le: (T, T) -> bool)
    requires TotalPreorder(le) && |s| > 0
    ensures Sort(s, le)[0] in s
    ensures forall y :: y in s ==> le(Sort(s, le)[0], y)
  {
    var r := Sort(s, le);
    SortSorted(s, le);
    var least := r[0];
    assert least in multiset(r);
    assert le(least, least) || le(least, least);
    forall y | y in s
      ensures le(least, y)
    {
      assert y in multiset(s);
      assert y in multiset(r);
      var k :| 0 <= k < |r| && r[k] == y;
    }
  }

  /** The elements tied with y: each may precede the other. */
  function Ties<T>(le: (T, T) -> bool, y: T): T -> bool
  {
    t => le(t, y) && le(y, t)
  }

  /** The filter of a sequence with one element in front. */
  lemma FilterCons<T>(x: T, s: seq<T>, p: T -> bool)
    ensures Filter([x] + s, p) == if p(x) then [x] + Filter(s, p) else Filter(s, p)
  {
    assert ([x] + s)[1..] == s;
  }

  /**
   * Inserting x leaves the elements tied with y in their order, with x
   * first among them when it is tied with y itself: x goes in front of
   * every element it is tied with.
   */
  lemma {:induction false} InsertTies<T(!new)>(x: T, s: seq<T>, le: (T, T) -> bool, y: T)
    requires TotalPreorder(le)
    ensures Filter(Insert(x, s, le), Ties(le, y)) ==
      if Ties(le, y)(x) then [x] + Filter(s, Ties(le, y)) else Filter(s, Ties(le, y))
  {
    var p := Ties(le, y);
    if s == [] || le(x, s[0]) {
      FilterCons(x, s, p);
    } else {
      InsertTies(x, s[1..], le, y);
      FilterCons(s[0], Insert(x, s[1..], le), p);
      FilterCons(s[0], s[1..], p);
      assert s == [s[0]] + s[1..];
    }
  }

  /**
   * Sort is stable: the elements tied with any y come out in the order
   * they went in.
   */
  lemma {:induction false} SortStable<T(!new)>(s: seq<T>, le: (T, T) -> bool, y: T)
    requires TotalPreorder(le)
    ensures Filter(Sort(s, le), Ties(le, y)) == Filter(s, Ties(le, y))
  {
    if s != [] {
      SortStable(s[1..], le, y);
      InsertTies(s[0], Sort(s[1..], le), le, y);
      FilterCons(s[0], s[1..], Ties(le, y));
      assert s == [s[0]] + s[1..];
    }
  }
}
