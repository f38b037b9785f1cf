/** Selecting payloads for a block, type by type: what internal/payload/builder.go and the
    fallback of internal/dfba/dfba.go have in common. */
module Selection {
  import opened Sorting

  type Lists<T> = map<string, seq<T>>

  function ListOf<T>(lists: Lists<T>, typ: string): seq<T> {
    if typ in lists then lists[typ] else []
  }

  function Min(a: int, b: int): int {
    if a < b then a else b
  }

  /** The best n of a list. */
  function Best<T>(s: seq<T>, less: (T, T) -> bool, n: int): (r: seq<T>)
    ensures |r| == if n <= 0 then 0 else Min(n, |s|)
  {
    if n <= 0 then [] else StableSort(s, less)[..Min(n, |s|)]
  }

  lemma BestTrim<T>(s: seq<T>, less: (T, T) -> bool, n: int)
    ensures Best(s, less, |Best(s, less, n)|) == Best(s, less, n) && Best(s, less, 0) == []
  {
  }

  /** The types in order, each with its best window items, up to max in all. */
  function PerType<T>(order: seq<string>, lists: Lists<T>, less: (T, T) -> bool, max: int, window: int): (r: seq<T>)
    ensures max >= 0 ==> |r| <= max
    decreases |order|
  {
    if order == [] then []
    else
      var sel := Best(ListOf(lists, order[0]), less, Min(window, max));
      sel + PerType(order[1..], lists, less, max - |sel|, window)
  }

  lemma PerTypeStep<T>(order: seq<string>, j: nat, lists: Lists<T>, less: (T, T) -> bool, max: int, window: int)
    requires j <= |order|
    ensures j == |order| || max == 0 ==> PerType(order[j..], lists, less, max, window) == []
    ensures j < |order| ==>
      var sel := Best(ListOf(lists, order[j]), less, Min(window, max));
      PerType(order[j..], lists, less, max, window) == sel + PerType(order[j + 1..], lists, less, max - |sel|, window)
  {
    hide Best;
    hide ListOf;
    if j < |order| {
      assert order[j..][0] == order[j] && order[j..][1..] == order[j + 1..];
    }
  }

  /** A limit that is not positive means 1024. */
  function Cap(maxN: int): (max: int)
    ensures max > 0
  {
    if maxN <= 0 then 1024 else maxN
  }

  function WindowOf(window: int, max: int): int {
    if window <= 0 || window > max then max else window
  }

  // ----- relabelling

  /** Relabelling by f keeps the comparison on the elements of s. */
  ghost predicate Keeps<T(!new), U>(s: seq<T>, f: T -> U, less: (T, T) -> bool, less': (U, U) -> bool) {
    forall x, y :: x in s && y in s ==> less'(f(x), f(y)) == less(x, y)
  }

  lemma BestMap<T(!new), U>(s: seq<T>, f: T -> U, less: (T, T) -> bool, less': (U, U) -> bool, n: int)
    requires Keeps(s, f, less, less')
    ensures Best(Map(f, s), less', n) == Map(f, Best(s, less, n))
  {
    StableSortMap(s, f, less, less');
  }

  lemma MapAppend<T, U>(f: T -> U, a: seq<T>, b: seq<T>)
    ensures Map(f, a + b) == Map(f, a) + Map(f, b)
  {
  }

  /** Selection commutes with relabelling, ties included. */
  lemma {:induction false} PerTypeMap<T(!new), U>(
      order: seq<string>, a: Lists<T>, b: Lists<U>, f: T -> U, less: (T, T) -> bool, less': (U, U) -> bool, max: int, window: int)
    requires forall i :: 0 <= i < |order| ==>
      ListOf(b, order[i]) == Map(f, ListOf(a, order[i])) && Keeps(ListOf(a, order[i]), f, less, less')
    ensures PerType(order, b, less', max, window) == Map(f, PerType(order, a, less, max, window))
  {
    hide Keeps;
    hide Best;
    hide ListOf;
    if order != [] {
      var n := Min(window, max);
      BestMap(ListOf(a, order[0]), f, less, less', n);
      var sel := Best(ListOf(a, order[0]), less, n);
      assert forall i :: 0 <= i < |order| - 1 ==> order[1..][i] == order[i + 1];
      PerTypeMap(order[1..], a, b, f, less, less', max - |sel|, window);
      var rest := PerType(order[1..], a, less, max - |sel|, window);
      MapAppend(f, sel, rest);
      assert PerType(order, b, less', max, window) == Map(f, sel) + Map(f, rest);
    }
  }

  // ----- order of candidates

  /** The comparison orders s and tells its elements apart. */
  ghost predicate Separates<T(!new)>(less: (T, T) -> bool, s: seq<T>) {
    Orders(less, s) && Decides(less, s)
  }

  lemma BestPermute<T(!new)>(a: seq<T>, b: seq<T>, less: (T, T) -> bool, n: int)
    requires multiset(a) == multiset(b) && Separates(less, a)
    ensures Best(a, less, n) == Best(b, less, n)
  {
    PermutedSort(a, b, less);
    assert |multiset(a)| == |a| && |multiset(b)| == |b|;
  }

  /** The order in which a pool lists its candidates does not matter. */
  lemma {:induction false} PerTypePermute<T(!new)>(
      order: seq<string>, a: Lists<T>, b: Lists<T>, less: (T, T) -> bool, max: int, window: int)
    requires forall i :: 0 <= i < |order| ==>
      multiset(ListOf(a, order[i])) == multiset(ListOf(b, order[i])) && Separates(less, ListOf(a, order[i]))
    ensures PerType(order, a, less, max, window) == PerType(order, b, less, max, window)
  {
    hide Separates;
    hide Best;
    hide ListOf;
    if order != [] {
      var n := Min(window, max);
      BestPermute(ListOf(a, order[0]), ListOf(b, order[0]), less, n);
      PerTypePermute(order[1..], a, b, less, max - |Best(ListOf(a, order[0]), less, n)|, window);
    }
  }

  lemma {:induction false} PerTypeFrame<T>(
      order: seq<string>, a: Lists<T>, b: Lists<T>, less: (T, T) -> bool, max: int, window: int)
    requires forall i :: 0 <= i < |order| ==> ListOf(a, order[i]) == ListOf(b, order[i])
    ensures PerType(order, a, less, max, window) == PerType(order, b, less, max, window)
  {
    hide Best;
    hide ListOf;
    if order != [] {
      PerTypeFrame(order[1..], a, b, less, max - |Best(ListOf(a, order[0]), less, Min(window, max))|, window);
    }
  }

  // ----- shape of a selection

  /** Position of a type in the policy's order, -1 when it is not listed. */
  function Rank(order: seq<string>, typ: string): (k: int)
    ensures -1 <= k < |order|
    ensures k >= 0 ==> order[k] == typ
    ensures k < 0 ==> typ !in order
    ensures forall j :: k < j < |order| ==> order[j] != typ
  {
    if order == [] then -1
    else if order[|order| - 1] == typ then |order| - 1
    else Rank(order[..|order| - 1], typ)
  }

  ghost predicate DistinctTypes(order: seq<string>) {
    forall i, j :: 0 <= i < j < |order| ==> order[i] != order[j]
  }
}
