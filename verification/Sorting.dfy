/** Stable sorting and index-driven retention of sequences: Rust's `sort_by` and `retain`. */
module Sorting {
  ghost predicate StrictOrder<T(!new)>(lt: (T, T) -> bool) {
    && (forall a, b :: lt(a, b) ==> !lt(b, a))
    && (forall a, b, c :: lt(a, b) && lt(b, c) ==> lt(a, c))
    && (forall a, b, c :: !lt(a, b) && !lt(b, c) ==> !lt(a, c))
  }

  /** No later element comes strictly before an earlier one. */
  predicate Sorted<T>(s: seq<T>, lt: (T, T) -> bool) {
    forall i, j | 0 <= i < j < |s| :: !lt(s[j], s[i])
  }

  function Insert<T>(x: T, s: seq<T>, lt: (T, T) -> bool): (r: seq<T>)
    ensures multiset(r) == multiset(s) + multiset{x}
    ensures |r| == |s| + 1
  {
    if s == [] then [x]
    else if lt(s[0], x) then
      assert s == [s[0]] + s[1..];
      [s[0]] + Insert(x, s[1..], lt)
    else [x] + s
  }

  function Sort<T>(s: seq<T>, lt: (T, T) -> bool): (r: seq<T>)
    ensures multiset(r) == multiset(s)
    ensures |r| == |s|
  {
    if s == [] then []
    else
      assert s == [s[0]] + s[1..];
      Insert(s[0], Sort(s[1..], lt), lt)
  }

  lemma MembersOfSort<T>(s: seq<T>, lt: (T, T) -> bool)
    ensures forall x :: x in Sort(s, lt) <==> x in s
  {
    forall x ensures x in Sort(s, lt) <==> x in s {
      assert x in multiset(Sort(s, lt)) <==> x in multiset(s);
    }
  }

  /** `tie` holds from every earlier element to every later one. */
  ghost predicate TieOrdered<T(!new)>(s: seq<T>, tie: (T, T) -> bool) {
    forall i, j | 0 <= i < j < |s| :: tie(s[i], s[j])
  }

  /** `a` may stand before `b`: strictly smaller, or equal and in `tie` order. */
  ghost predicate MayPrecede<T>(a: T, b: T, lt: (T, T) -> bool, tie: (T, T) -> bool) {
    !lt(b, a) && (lt(a, b) || tie(a, b))
  }

  /** Sorted by `lt`, and equal elements stand in `tie` order. */
  ghost predicate StablySorted<T(!new)>(s: seq<T>, lt: (T, T) -> bool, tie: (T, T) -> bool) {
    forall i, j | 0 <= i < j < |s| :: MayPrecede(s[i], s[j], lt, tie)
  }

  lemma PrependStable<T(!new)>(x: T, s: seq<T>, lt: (T, T) -> bool, tie: (T, T) -> bool)
    requires StablySorted(s, lt, tie) && forall y <- s :: MayPrecede(x, y, lt, tie)
    ensures StablySorted([x] + s, lt, tie)
  {
    hide MayPrecede;
  }

  lemma {:induction false} InsertStable<T(!new)>(x: T, s: seq<T>, lt: (T, T) -> bool, tie: (T, T) -> bool)
    requires StrictOrder(lt) && StablySorted(s, lt, tie)
    requires forall y <- s :: tie(x, y)
    ensures StablySorted(Insert(x, s, lt), lt, tie)
  {
    if s != [] && lt(s[0], x) {
      var t := Insert(x, s[1..], lt);
      InsertStable(x, s[1..], lt, tie);
      forall y <- t ensures MayPrecede(s[0], y, lt, tie) {
        assert y in multiset(t);
        assert y == x || y in s[1..];
      }
      PrependStable(s[0], t, lt, tie);
    } else if s != [] {
      forall y <- s ensures MayPrecede(x, y, lt, tie) {
        var k :| 0 <= k < |s| && s[k] == y;
        assert k == 0 || MayPrecede(s[0], s[k], lt, tie);
      }
      PrependStable(x, s, lt, tie);
    }
  }

  lemma {:induction false} SortStable<T(!new)>(s: seq<T>, lt: (T, T) -> bool, tie: (T, T) -> bool)
    requires StrictOrder(lt) && TieOrdered(s, tie)
    ensures StablySorted(Sort(s, lt), lt, tie)
  {
    if s != [] {
      SortStable(s[1..], lt, tie);
      MembersOfSort(s[1..], lt);
      InsertStable(s[0], Sort(s[1..], lt), lt, tie);
    }
  }

  lemma SortSorts<T(!new)>(s: seq<T>, lt: (T, T) -> bool)
    requires StrictOrder(lt)
    ensures Sorted(Sort(s, lt), lt)
  {
    SortStable(s, lt, (a, b) => true);
  }

  lemma {:induction false} SortOfSorted<T>(s: seq<T>, lt: (T, T) -> bool)
    requires Sorted(s, lt)
    ensures Sort(s, lt) == s
  {
    if s != [] {
      SortOfSorted(s[1..], lt);
      assert s == [s[0]] + s[1..];
    }
  }

  /** A symmetric relation between any two elements, such as carrying different ids. */
  ghost predicate Pairwise<T(!new)>(s: seq<T>, ok: (T, T) -> bool) {
    forall i, j | 0 <= i < j < |s| :: ok(s[i], s[j]) && ok(s[j], s[i])
  }

  lemma {:induction false} InsertPairwise<T(!new)>(x: T, s: seq<T>, lt: (T, T) -> bool, ok: (T, T) -> bool)
    requires Pairwise(s, ok) && forall y <- s :: ok(x, y) && ok(y, x)
    ensures Pairwise(Insert(x, s, lt), ok)
  {
    if s != [] && lt(s[0], x) {
      var t := Insert(x, s[1..], lt);
      InsertPairwise(x, s[1..], lt, ok);
      forall k | 0 <= k < |t| ensures ok(s[0], t[k]) && ok(t[k], s[0]) {
        assert t[k] in multiset(t);
        assert t[k] == x || t[k] in s[1..];
      }
    }
  }

  /** What holds between any two elements survives sorting. */
  lemma {:induction false} SortPairwise<T(!new)>(s: seq<T>, lt: (T, T) -> bool, ok: (T, T) -> bool)
    requires Pairwise(s, ok)
    ensures Pairwise(Sort(s, lt), ok)
  {
    if s != [] {
      SortPairwise(s[1..], lt, ok);
      var t := Sort(s[1..], lt);
      forall y <- t ensures ok(s[0], y) && ok(y, s[0]) {
        assert y in multiset(t);
        var k :| 0 <= k < |s[1..]| && s[1..][k] == y;
        assert s[k + 1] == y;
      }
      InsertPairwise(s[0], t, lt, ok);
    }
  }

  /** The members of `keep` below `n`, in ascending order. */
  function Indices(n: nat, keep: set<nat>): (r: seq<nat>)
    ensures forall k | 0 <= k < |r| :: r[k] < n && r[k] in keep
    ensures forall j, k | 0 <= j < k < |r| :: r[j] < r[k]
    ensures forall i: nat | i < n && i in keep :: i in r
    ensures |r| <= n
  {
    if n == 0 then []
    else if n - 1 in keep then Indices(n - 1, keep) + [n - 1]
    else Indices(n - 1, keep)
  }

  /** `Vec::retain` driven by an index set: survivors in their original order. */
  function Retain<T>(s: seq<T>, keep: set<nat>): (r: seq<T>)
    ensures |r| == |Indices(|s|, keep)|
    ensures forall k | 0 <= k < |r| :: r[k] == s[Indices(|s|, keep)[k]]
    ensures forall x <- r :: x in s
  {
    var ix := Indices(|s|, keep);
    seq(|ix|, k requires 0 <= k < |ix| => s[ix[k]])
  }

  lemma {:induction false} IndicesAll(n: nat, keep: set<nat>)
    requires forall i: nat | i < n :: i in keep
    ensures |Indices(n, keep)| == n && forall i | 0 <= i < n :: Indices(n, keep)[i] == i
  {
    if n > 0 { IndicesAll(n - 1, keep); }
  }

  lemma RetainAll<T>(s: seq<T>, keep: set<nat>)
    requires forall i: nat | i < |s| :: i in keep
    ensures Retain(s, keep) == s
  {
    IndicesAll(|s|, keep);
  }

  /** One `retain` pass, counting positions as the closure's captured counter does. */
  method RetainPass<T>(s: seq<T>, keep: set<nat>) returns (r: seq<T>)
    ensures r == Retain(s, keep)
  {
    r := [];
    for i := 0 to |s|
      invariant |r| == |Indices(i, keep)|
      invariant forall k | 0 <= k < |r| :: r[k] == s[Indices(i, keep)[k]]
    {
      if i in keep {
        r := r + [s[i]];
      }
    }
  }
}
