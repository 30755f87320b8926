/** Sequence queries that stand for the document-store operations the
    backend uses: `findOne` (first match in natural order), `find`
    (filter, order kept), `countDocuments`, and `sort` (a stable
    insertion sort under a total preorder). */
module Seqs {
  import opened Common

  /** Index of the first element satisfying `p`: what `findOne` without a
      sort returns when the collection is read in natural order. */
  function First<T>(s: seq<T>, p: T -> bool): (r: Option<nat>)
    ensures r.Some? ==> r.value < |s| && p(s[r.value])
    ensures r.Some? ==> forall j :: 0 <= j < r.value ==> !p(s[j])
    ensures r.None? <==> forall j :: 0 <= j < |s| ==> !p(s[j])
  {
    if |s| == 0 then None
    else if p(s[0]) then Some(0)
    else match First(s[1..], p)
      case None => None
      case Some(k) => Some(k + 1)
  }

  /** Index of the element satisfying `p` with the smallest `key`, the
      first one among equal keys: what `findOne(...).sort({key: 1})`
      returns (a descending sort is the same with the key negated). */
  function ArgMin<T>(s: seq<T>, p: T -> bool, key: T -> int): (r: Option<nat>)
    ensures r.None? <==> forall j :: 0 <= j < |s| ==> !p(s[j])
    ensures r.Some? ==> r.value < |s| && p(s[r.value])
    ensures r.Some? ==> forall j :: 0 <= j < |s| && p(s[j]) ==> key(s[r.value]) <= key(s[j])
    ensures r.Some? ==> forall j :: 0 <= j < r.value && p(s[j]) ==> key(s[r.value]) < key(s[j])
    decreases |s|
  {
    if |s| == 0 then None
    else
      var rest := ArgMin(s[1..], p, key);
      if rest.None? then (if p(s[0]) then Some(0) else None)
      else if p(s[0]) && key(s[0]) <= key(s[rest.value + 1]) then Some(0)
      else Some(rest.value + 1)
  }

  /** `r` can be obtained from `s` by deleting elements, order kept. */
  predicate SubsequenceOf<T(==)>(r: seq<T>, s: seq<T>)
    decreases |s|
  {
    if |r| == 0 then true
    else if |s| == 0 then false
    else (r[0] == s[0] && SubsequenceOf(r[1..], s[1..])) || SubsequenceOf(r, s[1..])
  }

  /** The elements of `s` satisfying `p`, in their original order. */
  function Filter<T(==,!new)>(s: seq<T>, p: T -> bool): (r: seq<T>)
    ensures |r| <= |s|
    ensures forall x :: x in r <==> x in s && p(x)
    ensures SubsequenceOf(r, s)
  {
    if |s| == 0 then []
    else
      var rest := Filter(s[1..], p);
      assert forall x :: x in s <==> x == s[0] || x in s[1..];
      if p(s[0]) then
        var r := [s[0]] + rest;
        assert r[1..] == rest;
        r
      else rest
  }

  lemma {:induction false} FilterAppend<T(!new)>(a: seq<T>, b: seq<T>, p: T -> bool)
    ensures Filter(a + b, p) == Filter(a, p) + Filter(b, p)
    decreases |a|
  {
    if |a| == 0 {
      assert a + b == b;
    } else {
      assert (a + b)[1..] == a[1..] + b;
      FilterAppend(a[1..], b, p);
    }
  }

  /** Number of elements satisfying `p` (`countDocuments` / `filter().length`). */
  function Count<T>(s: seq<T>, p: T -> bool): (n: nat)
    ensures n <= |s|
  {
    if |s| == 0 then 0
    else (if p(s[0]) then 1 else 0) + Count(s[1..], p)
  }

  /** The count is zero exactly when nothing matches, and full exactly
      when everything does. */
  lemma {:induction false} CountExtremes<T>(s: seq<T>, p: T -> bool)
    ensures Count(s, p) == 0 <==> forall i :: 0 <= i < |s| ==> !p(s[i])
    ensures Count(s, p) == |s| <==> forall i :: 0 <= i < |s| ==> p(s[i])
    decreases |s|
  {
    if |s| > 0 {
      CountExtremes(s[1..], p);
      assert forall i :: 1 <= i < |s| ==> s[i] == s[1..][i - 1];
    }
  }

  lemma {:induction false} CountFilter<T(!new)>(s: seq<T>, p: T -> bool)
    ensures Count(s, p) == |Filter(s, p)|
  {
    if |s| > 0 {
      CountFilter(s[1..], p);
    }
  }

  lemma {:induction false} CountSnoc<T>(s: seq<T>, x: T, p: T -> bool)
    ensures Count(s + [x], p) == Count(s, p) + (if p(x) then 1 else 0)
    decreases |s|
  {
    if |s| == 0 {
      assert s + [x] == [x];
    } else {
      assert (s + [x])[1..] == s[1..] + [x];
      CountSnoc(s[1..], x, p);
    }
  }

  /** Counting under `p` and under its complement covers every element once. */
  lemma {:induction false} CountComplement<T>(s: seq<T>, p: T -> bool, q: T -> bool)
    requires forall x :: q(x) == !p(x)
    ensures Count(s, p) + Count(s, q) == |s|
  {
    if |s| > 0 {
      CountComplement(s[1..], p, q);
    }
  }

  /** `before` is reflexive-total and transitive: a sort key order with ties. */
  ghost predicate TotalPreorder<T(!new)>(before: (T, T) -> bool)
  {
    && (forall x, y :: before(x, y) || before(y, x))
    && (forall x, y, z :: before(x, y) && before(y, z) ==> before(x, z))
  }

  predicate SortedBy<T>(s: seq<T>, before: (T, T) -> bool)
  {
    forall i, j :: 0 <= i < j < |s| ==> before(s[i], s[j])
  }

  /** An element ordered before every element of a sorted sequence can be
      put in front of it. */
  lemma ConsSorted<T>(h: T, rest: seq<T>, before: (T, T) -> bool)
    requires SortedBy(rest, before)
    requires forall k :: 0 <= k < |rest| ==> before(h, rest[k])
    ensures SortedBy([h] + rest, before)
  {
    var r := [h] + rest;
    forall i, j | 0 <= i < j < |r|
      ensures before(r[i], r[j])
    {
      assert r[j] == rest[j - 1];
      if i > 0 {
        assert r[i] == rest[i - 1];
      }
    }
  }

  function Insert<T(!new)>(x: T, s: seq<T>, before: (T, T) -> bool): (r: seq<T>)
    requires TotalPreorder(before)
    requires SortedBy(s, before)
    ensures SortedBy(r, before)
    ensures multiset(r) == multiset(s) + multiset{x}
    ensures |r| == |s| + 1
  {
    if |s| == 0 then [x]
    else if before(x, s[0]) then [x] + s
    else
      var rest := Insert(x, s[1..], before);
      assert s == [s[0]] + s[1..];
      forall k | 0 <= k < |rest|
        ensures before(s[0], rest[k])
      {
        var y := rest[k];
        assert y in multiset(rest);
        if y != x {
          assert y in multiset(s[1..]);
          var m :| 0 <= m < |s[1..]| && s[1..][m] == y;
          assert s[m + 1] == y;
        }
      }
      ConsSorted(s[0], rest, before);
      [s[0]] + rest
  }

  /** A stable insertion sort: the reordering a `sort` stage applies. */
  function SortBy<T(!new)>(s: seq<T>, before: (T, T) -> bool): (r: seq<T>)
    requires TotalPreorder(before)
    ensures SortedBy(r, before)
    ensures multiset(r) == multiset(s)
    ensures |r| == |s|
  {
    if |s| == 0 then []
    else
      assert s == [s[0]] + s[1..];
      Insert(s[0], SortBy(s[1..], before), before)
  }
}
