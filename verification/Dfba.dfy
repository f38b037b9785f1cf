/** The dual-flow batch auction: matched numbers of bids and user transactions. */
module DualFlow {
  import opened Sorting
  import opened Selection

  const BID := "auction_bid_v1"
  const USER := "plaintext_v1"

  predicate Flow(typ: string) {
    typ == BID || typ == USER
  }

  /** How many bids are matched with as many user transactions. */
  function Pairs<T>(lists: Lists<T>, max: int, window: int): int {
    Min(Min(|ListOf(lists, BID)|, |ListOf(lists, USER)|), Min(window, max / 2))
  }

  /** What a type contributes once taken items are selected. */
  function Share<T>(typ: string, lists: Lists<T>, less: (T, T) -> bool, k: int, max: int, window: int, taken: nat): seq<T> {
    Best(ListOf(lists, typ), less, if Flow(typ) then k else Min(window, max - taken))
  }

  function Dual<T>(order: seq<string>, lists: Lists<T>, less: (T, T) -> bool, k: int, max: int, window: int, taken: nat): seq<T> {
    if order == [] then []
    else
      var sel := Share(order[0], lists, less, k, max, window, taken);
      sel + Dual(order[1..], lists, less, k, max, window, taken + |sel|)
  }

  /** Without a full pair, selection is per type. */
  predicate Unpaired<T>(lists: Lists<T>, max: int) {
    ListOf(lists, BID) == [] || ListOf(lists, USER) == [] || max / 2 <= 0
  }

  function Solve<T>(order: seq<string>, lists: Lists<T>, less: (T, T) -> bool, maxN: int, win: int): seq<T> {
    var max := Cap(maxN);
    var window := WindowOf(win, max);
    if Unpaired(lists, max) then PerType(order, lists, less, max, window)
    else Dual(order, lists, less, Pairs(lists, max, window), max, window, 0)
  }

  lemma PairsPositive<T>(lists: Lists<T>, max: int, window: int)
    requires !Unpaired(lists, max) && window > 0
    ensures var k := Pairs(lists, max, window);
            && 0 < k <= |ListOf(lists, BID)| && k <= |ListOf(lists, USER)| && k <= window && k + k <= max
            && (k == |ListOf(lists, BID)| || k == |ListOf(lists, USER)| || k == window || k == max / 2)
  {
  }

  lemma DualStep<T>(order: seq<string>, j: nat, lists: Lists<T>, less: (T, T) -> bool, k: int, max: int, window: int, taken: nat)
    requires j <= |order|
    ensures j == |order| ==> Dual(order[j..], lists, less, k, max, window, taken) == []
    ensures j < |order| ==>
      var sel := Share(order[j], lists, less, k, max, window, taken);
      Dual(order[j..], lists, less, k, max, window, taken)
        == sel + Dual(order[j + 1..], lists, less, k, max, window, taken + |sel|)
  {
    hide Share;
    if j < |order| {
      assert order[j..][0] == order[j] && order[j..][1..] == order[j + 1..];
    }
  }

  // ----- relabelling

  ghost predicate Relabels<T(!new), U>(
      order: seq<string>, a: Lists<T>, b: Lists<U>, f: T -> U, less: (T, T) -> bool, less': (U, U) -> bool) {
    forall i :: 0 <= i < |order| ==>
      ListOf(b, order[i]) == Map(f, ListOf(a, order[i])) && Keeps(ListOf(a, order[i]), f, less, less')
  }

  lemma RelabelsParts<T(!new), U>(
      order: seq<string>, a: Lists<T>, b: Lists<U>, f: T -> U, less: (T, T) -> bool, less': (U, U) -> bool)
    requires Relabels(order, a, b, f, less, less') && order != []
    ensures ListOf(b, order[0]) == Map(f, ListOf(a, order[0])) && Keeps(ListOf(a, order[0]), f, less, less')
    ensures Relabels(order[1..], a, b, f, less, less')
  {
    hide Keeps;
    hide ListOf;
    forall i | 0 <= i < |order| - 1
      ensures ListOf(b, order[1..][i]) == Map(f, ListOf(a, order[1..][i])) && Keeps(ListOf(a, order[1..][i]), f, less, less')
    {
      assert order[1..][i] == order[i + 1];
    }
  }

  lemma ShareMap<T(!new), U>(
      typ: string, a: Lists<T>, b: Lists<U>, f: T -> U, less: (T, T) -> bool, less': (U, U) -> bool,
      k: int, max: int, window: int, taken: nat)
    requires ListOf(b, typ) == Map(f, ListOf(a, typ)) && Keeps(ListOf(a, typ), f, less, less')
    ensures Share(typ, b, less', k, max, window, taken) == Map(f, Share(typ, a, less, k, max, window, taken))
  {
    hide Keeps;
    hide Best;
    hide ListOf;
    BestMap(ListOf(a, typ), f, less, less', if Flow(typ) then k else Min(window, max - taken));
  }

  lemma {:induction false} DualMap<T(!new), U>(
      order: seq<string>, a: Lists<T>, b: Lists<U>, f: T -> U, less: (T, T) -> bool, less': (U, U) -> bool,
      k: int, max: int, window: int, taken: nat)
    requires Relabels(order, a, b, f, less, less')
    ensures Dual(order, b, less', k, max, window, taken) == Map(f, Dual(order, a, less, k, max, window, taken))
  {
    hide Keeps;
    hide Relabels;
    hide Best;
    hide ListOf;
    hide Flow;
    if order != [] {
      RelabelsParts(order, a, b, f, less, less');
      ShareMap(order[0], a, b, f, less, less', k, max, window, taken);
      hide Share;
      var sel := Share(order[0], a, less, k, max, window, taken);
      DualMap(order[1..], a, b, f, less, less', k, max, window, taken + |sel|);
      MapAppend(f, sel, Dual(order[1..], a, less, k, max, window, taken + |sel|));
    }
  }

  lemma SolveMap<T(!new), U>(
      order: seq<string>, a: Lists<T>, b: Lists<U>, f: T -> U, less: (T, T) -> bool, less': (U, U) -> bool, maxN: int, win: int)
    requires Relabels(order, a, b, f, less, less')
    requires |ListOf(a, BID)| == |ListOf(b, BID)| && |ListOf(a, USER)| == |ListOf(b, USER)|
    ensures Solve(order, b, less', maxN, win) == Map(f, Solve(order, a, less, maxN, win))
  {
    hide Keeps;
    hide ListOf;
    hide PerType;
    hide Dual;
    var max := Cap(maxN);
    var window := WindowOf(win, max);
    PerTypeMap(order, a, b, f, less, less', max, window);
    DualMap(order, a, b, f, less, less', Pairs(a, max, window), max, window, 0);
  }

  // ----- how much is selected

  ghost predicate Enough<T>(lists: Lists<T>, k: int) {
    0 < k <= |ListOf(lists, BID)| && k <= |ListOf(lists, USER)|
  }

  ghost function Flows(order: seq<string>): nat {
    if order == [] then 0 else Flows(order[1..]) + if Flow(order[0]) then 1 else 0
  }

  /** What the types up to the last flow take when nothing holds them back. */
  ghost function Required<T>(order: seq<string>, lists: Lists<T>, k: int, window: int): int {
    if Flows(order) == 0 then 0
    else Required(order[1..], lists, k, window) +
         (if Flow(order[0]) then k else Min(window, |ListOf(lists, order[0])|))
  }

  lemma ShareSize<T>(typ: string, lists: Lists<T>, less: (T, T) -> bool, k: int, max: int, window: int, taken: nat)
    requires Enough(lists, k)
    ensures |Share(typ, lists, less, k, max, window, taken)| ==
      if Flow(typ) then k
      else if max <= taken || window <= 0 then 0
      else Min(Min(window, max - taken), |ListOf(lists, typ)|)
  {
    hide Best;
  }

  lemma {:induction false} RequiredAtLeast<T>(order: seq<string>, lists: Lists<T>, k: int, window: int)
    requires k > 0 && window > 0
    ensures Required(order, lists, k, window) >= if Flows(order) > 0 then k else 0
  {
    if Flows(order) > 0 {
      RequiredAtLeast(order[1..], lists, k, window);
    }
  }

  /** The selection stays within the cap exactly when the types up to the last flow fit. */
  lemma {:induction false} DualFits<T>(
      order: seq<string>, lists: Lists<T>, less: (T, T) -> bool, k: int, max: int, window: int, taken: nat)
    requires Enough(lists, k) && window > 0
    ensures taken + |Dual(order, lists, less, k, max, window, taken)| <= max <==>
            taken + Required(order, lists, k, window) <= max
  {
    hide Best;
    if order != [] {
      var sel := Share(order[0], lists, less, k, max, window, taken);
      ShareSize(order[0], lists, less, k, max, window, taken);
      DualFits(order[1..], lists, less, k, max, window, taken + |sel|);
      RequiredAtLeast(order[1..], lists, k, window);
      assert |Dual(order, lists, less, k, max, window, taken)|
          == |sel| + |Dual(order[1..], lists, less, k, max, window, taken + |sel|)|;
      hide Dual;
      hide Share;
      hide ListOf;
    }
  }

  /** In any case the flows alone can overrun it. */
  lemma {:induction false} DualBound<T>(
      order: seq<string>, lists: Lists<T>, less: (T, T) -> bool, k: int, max: int, window: int, taken: nat)
    requires Enough(lists, k)
    ensures taken + |Dual(order, lists, less, k, max, window, taken)|
              <= (if taken > max then taken else max) + FlowTotal(order, k)
  {
    hide Best;
    if order != [] {
      var sel := Share(order[0], lists, less, k, max, window, taken);
      DualBound(order[1..], lists, less, k, max, window, taken + |sel|);
      ShareSize(order[0], lists, less, k, max, window, taken);
      assert |Dual(order, lists, less, k, max, window, taken)|
          == |sel| + |Dual(order[1..], lists, less, k, max, window, taken + |sel|)|;
      hide Dual;
      hide Share;
      hide ListOf;
    }
  }

  ghost function FlowTotal(order: seq<string>, k: int): int {
    if order == [] then 0 else FlowTotal(order[1..], k) + if Flow(order[0]) then k else 0
  }

  lemma {:induction false} FlowTotalAbsent(order: seq<string>, k: int)
    requires forall i :: 0 <= i < |order| ==> !Flow(order[i])
    ensures FlowTotal(order, k) == 0 && Flows(order) == 0
  {
    if order != [] {
      FlowTotalAbsent(order[1..], k);
    }
  }

  lemma {:induction false} FlowTotalOne(order: seq<string>, k: int, other: string)
    requires k >= 0 && DistinctTypes(order) && other !in order && Flow(other)
    ensures FlowTotal(order, k) <= k
  {
    if order != [] {
      if Flow(order[0]) {
        FlowTotalAbsent(order[1..], k);
      } else {
        FlowTotalOne(order[1..], k, other);
      }
    }
  }

  lemma {:induction false} FlowTotalTwo(order: seq<string>, k: int)
    requires k >= 0 && DistinctTypes(order)
    ensures FlowTotal(order, k) <= k + k
  {
    if order != [] {
      if Flow(order[0]) {
        FlowTotalOne(order[1..], k, order[0]);
      } else {
        FlowTotalTwo(order[1..], k);
      }
    }
  }

  /** Size of a matched selection: at most max + 2k, and at most max exactly when the
      types up to the last flow fit. */
  lemma SolveSize<T>(order: seq<string>, lists: Lists<T>, less: (T, T) -> bool, maxN: int, win: int)
    requires DistinctTypes(order) && !Unpaired(lists, Cap(maxN))
    ensures var max := Cap(maxN);
            var window := WindowOf(win, max);
            var k := Pairs(lists, max, window);
            && |Solve(order, lists, less, maxN, win)| <= max + k + k
            && (|Solve(order, lists, less, maxN, win)| <= max <==> Required(order, lists, k, window) <= max)
  {
    var max := Cap(maxN);
    var window := WindowOf(win, max);
    PairsPositive(lists, max, window);
    var k := Pairs(lists, max, window);
    DualFits(order, lists, less, k, max, window, 0);
    DualBound(order, lists, less, k, max, window, 0);
    FlowTotalTwo(order, k);
  }

  /** Both flows precede every other type. */
  ghost predicate FlowsFirst(order: seq<string>) {
    forall i, j :: 0 <= i < j < |order| && Flow(order[j]) ==> Flow(order[i])
  }

  lemma {:induction false} RequiredFlowsFirst<T>(order: seq<string>, lists: Lists<T>, k: int, window: int)
    requires FlowsFirst(order)
    ensures Required(order, lists, k, window) == FlowTotal(order, k)
  {
    if order != [] {
      RequiredFlowsFirst(order[1..], lists, k, window);
      if !Flow(order[0]) {
        forall i | 0 <= i < |order|
          ensures !Flow(order[i])
        {
        }
        FlowTotalAbsent(order, k);
      }
    }
  }

  /** With the flows first the cap is respected. */
  lemma FlowsFirstFit<T>(order: seq<string>, lists: Lists<T>, less: (T, T) -> bool, maxN: int, win: int)
    requires DistinctTypes(order) && FlowsFirst(order)
    ensures |Solve(order, lists, less, maxN, win)| <= Cap(maxN)
  {
    var max := Cap(maxN);
    if !Unpaired(lists, max) {
      var window := WindowOf(win, max);
      PairsPositive(lists, max, window);
      SolveSize(order, lists, less, maxN, win);
      RequiredFlowsFirst(order, lists, Pairs(lists, max, window), window);
      FlowTotalTwo(order, Pairs(lists, max, window));
    }
  }

  /** With another type ahead of the flows, a cap of 2 can yield four items. */
  lemma CapOverrun<T>(x: T, less: (T, T) -> bool)
    ensures var lists := map["other" := [x, x], BID := [x], USER := [x]];
            |Solve(["other", BID, USER], lists, less, 2, 0)| == 4
  {
    var lists := map["other" := [x, x], BID := [x], USER := [x]];
    var order := ["other", BID, USER];
    assert order[1..] == [BID, USER] && order[1..][1..] == [USER] && order[1..][1..][1..] == [];
    var s0 := Share("other", lists, less, 1, 2, 2, 0);
    var s1 := Share(BID, lists, less, 1, 2, 2, 2);
    var s2 := Share(USER, lists, less, 1, 2, 2, 3);
    assert |s0| == 2 && |s1| == 1 && |s2| == 1;
    assert Dual([USER], lists, less, 1, 2, 2, 3) == s2 + Dual([USER][1..], lists, less, 1, 2, 2, 4);
    assert Dual([BID, USER], lists, less, 1, 2, 2, 2) == s1 + Dual([BID, USER][1..], lists, less, 1, 2, 2, 3);
  }
}

/** The solver of internal/dfba/dfba.go and the path through it in
    internal/payload/builder.go. */
module Dfba {
  import opened Outcomes
  import opened Sorting
  import opened Selection
  import opened DualFlow
  import opened Builder

  datatype Item = Item(payload: Payload, typ: string, key: nat, hash: seq<Byte>)

  /** Key descending, then hash ascending; hashes of different lengths are not compared. */
  predicate LessByKeyHash(a: Item, b: Item) {
    if a.key != b.key then a.key > b.key else |a.hash| == |b.hash| && HashLess(a.hash, b.hash)
  }

  function OfType(typ: string): Item -> bool {
    (it: Item) => it.typ == typ
  }

  // ----- the solver

  function Grouped(items: seq<Item>): Lists<Item> {
    if items == [] then map[]
    else
      var g, it := Grouped(items[..|items| - 1]), items[|items| - 1];
      g[it.typ := ListOf(g, it.typ) + [it]]
  }

  lemma {:induction false} GroupedExact(items: seq<Item>, typ: string)
    ensures ListOf(Grouped(items), typ) == Filter(items, OfType(typ))
  {
    if items != [] {
      var n := |items| - 1;
      GroupedExact(items[..n], typ);
      FilterAppend(items[..n], [items[n]], OfType(typ));
      assert items == items[..n] + [items[n]];
    }
  }

  method GroupByType(items: seq<Item>) returns (byType: Lists<Item>)
    ensures byType == Grouped(items)
  {
    byType := map[];
    for i := 0 to |items|
      invariant byType == Grouped(items[..i])
    {
      assert items[..i + 1][..i] == items[..i];
      byType := byType[items[i].typ := ListOf(byType, items[i].typ) + [items[i]]];
    }
    assert items[..|items|] == items;
  }

  /** Sorting a list and taking up to need of it. */
  method BestOf(list: seq<Item>, need: int) returns (sel: seq<Item>)
    ensures sel == Best(list, LessByKeyHash, need)
  {
    if |list| == 0 {
      return [];
    }
    var sorted := StableSort(list, LessByKeyHash);
    var n := need;
    if n > |list| {
      n := |list|;
    }
    sel := if n > 0 then sorted[..n] else [];
  }

  method SelectPerType(byType: Lists<Item>, order: seq<string>, max: int, window: int) returns (selected: seq<Item>)
    requires max > 0 && window > 0
    ensures selected == PerType(order, byType, LessByKeyHash, max, window)
  {
    hide PerType;
    hide Best;
    hide ListOf;
    selected := [];
    var remain, j := max, 0;
    assert order[0..] == order;
    while j < |order|
      invariant 0 <= j <= |order| && remain == max - |selected| >= 0
      invariant selected + PerType(order[j..], byType, LessByKeyHash, remain, window)
             == PerType(order, byType, LessByKeyHash, max, window)
    {
      if remain <= 0 {
        break;
      }
      PerTypeStep(order, j, byType, LessByKeyHash, remain, window);
      var list := ListOf(byType, order[j]);
      var sel := BestOf(list, Min(window, remain));
      selected := selected + sel;
      remain := max - |selected|;
      j := j + 1;
    }
    PerTypeStep(order, j, byType, LessByKeyHash, remain, window);
  }

  method SolveDeterministic(items: seq<Item>, order: seq<string>, maxN: int, win: int) returns (selected: seq<Item>)
    ensures selected == Solve(order, Grouped(items), LessByKeyHash, maxN, win)
  {
    var max := Cap(maxN);
    var window := WindowOf(win, max);
    var byType := GroupByType(items);
    var bids, users := ListOf(byType, BID), ListOf(byType, USER);
    hide Grouped;
    hide PerType;
    if |bids| == 0 || |users| == 0 || max / 2 <= 0 {
      selected := SelectPerType(byType, order, max, window);
      return;
    }
    bids, users := StableSort(bids, LessByKeyHash), StableSort(users, LessByKeyHash);
    var k := Min(|bids|, |users|);
    k := Min(k, window);
    k := Min(k, max / 2);
    assert k == Pairs(byType, max, window);
    PairsPositive(byType, max, window);
    selected := SelectMatched(byType, order, bids[..k], users[..k], k, max, window);
  }

  /** The matched flows and the best of the other types, in the policy's order. */
  method SelectMatched(byType: Lists<Item>, order: seq<string>, bids: seq<Item>, users: seq<Item>, k: int, max: int, window: int)
    returns (selected: seq<Item>)
    requires bids == Best(ListOf(byType, BID), LessByKeyHash, k) && users == Best(ListOf(byType, USER), LessByKeyHash, k)
    ensures selected == Dual(order, byType, LessByKeyHash, k, max, window, 0)
  {
    hide Dual;
    hide Share;
    selected := [];
    assert order[0..] == order;
    for j := 0 to |order|
      invariant selected + Dual(order[j..], byType, LessByKeyHash, k, max, window, |selected|)
             == Dual(order, byType, LessByKeyHash, k, max, window, 0)
    {
      DualStep(order, j, byType, LessByKeyHash, k, max, window, |selected|);
      var sel := SelectType(byType, order[j], bids, users, k, max, window, |selected|);
      selected := selected + sel;
    }
    DualStep(order, |order|, byType, LessByKeyHash, k, max, window, |selected|);
  }

  method SelectType(byType: Lists<Item>, typ: string, bids: seq<Item>, users: seq<Item>, k: int, max: int, window: int, taken: nat)
    returns (sel: seq<Item>)
    requires bids == Best(ListOf(byType, BID), LessByKeyHash, k) && users == Best(ListOf(byType, USER), LessByKeyHash, k)
    ensures sel == Share(typ, byType, LessByKeyHash, k, max, window, taken)
  {
    if typ == BID {
      return bids;
    }
    if typ == USER {
      return users;
    }
    sel := BestOf(ListOf(byType, typ), Min(window, max - taken));
  }

  // ----- the builder's path through the solver

  function Wrap(typ: string): Payload -> Item {
    (p: Payload) => Item(p, typ, p.key, p.hash)
  }

  function Unwrap(it: Item): Payload {
    it.payload
  }

  function Collected(order: seq<string>, lists: Lists<Payload>): seq<Item> {
    if order == [] then []
    else
      var n := |order| - 1;
      Collected(order[..n], lists) + Map(Wrap(order[n]), ListOf(lists, order[n]))
  }

  function PreparedDfba(pools: Lists<Payload>, pol: Policy, late: Payload -> bool): seq<Payload> {
    var max := Cap(pol.maxN);
    Map(Unwrap, Solve(pol.order, Grouped(Collected(pol.order, Candidates(pools, pol, late))), LessByKeyHash,
                      max, WindowOf(pol.window, max)))
  }

  method PrepareProposalDfba(pools: Lists<Payload>, pol: Policy, late: Payload -> bool) returns (res: seq<Payload>)
    ensures res == PreparedDfba(pools, pol, late)
  {
    hide Candidates;
    hide Collected;
    hide Grouped;
    hide Solve;
    var max := Cap(pol.maxN);
    var window := WindowOf(pol.window, max);
    var items := CollectItems(pools, pol, late);
    var out := SolveDeterministic(items, pol.order, max, window);
    res := UnwrapAll(out);
  }

  method CollectItems(pools: Lists<Payload>, pol: Policy, late: Payload -> bool) returns (items: seq<Item>)
    ensures items == Collected(pol.order, Candidates(pools, pol, late))
  {
    hide Filter;
    hide Candidates;
    items := [];
    ghost var lists := Candidates(pools, pol, late);
    for j := 0 to |pol.order|
      invariant items == Collected(pol.order[..j], lists)
    {
      var typ := pol.order[j];
      var filtered := FilterByWindowAndThreshold(ListOf(pools, typ), typ, pol, late);
      CandidatesOf(pools, typ, pol, late);
      assert pol.order[..j + 1][..j] == pol.order[..j];
      var wrapped := WrapAll(typ, filtered);
      items := items + wrapped;
    }
    assert pol.order[..|pol.order|] == pol.order;
  }

  method UnwrapAll(items: seq<Item>) returns (res: seq<Payload>)
    ensures res == Map(Unwrap, items)
  {
    res := [];
    for i := 0 to |items|
      invariant res == Map(Unwrap, items[..i])
    {
      assert items[..i + 1] == items[..i] + [items[i]];
      res := res + [items[i].payload];
    }
    assert items[..|items|] == items;
  }

  method WrapAll(typ: string, ps: seq<Payload>) returns (items: seq<Item>)
    ensures items == Map(Wrap(typ), ps)
  {
    items := [];
    for i := 0 to |ps|
      invariant items == Map(Wrap(typ), ps[..i])
    {
      assert ps[..i + 1] == ps[..i] + [ps[i]];
      items := items + [Item(ps[i], typ, ps[i].key, ps[i].hash)];
    }
    assert ps[..|ps|] == ps;
  }

  // ----- the solver's items are the builder's candidates

  /** The candidates of the types in the order. */
  function Listed(order: seq<string>, lists: Lists<Payload>): Lists<Payload> {
    map typ | typ in lists && typ in order :: lists[typ]
  }

  lemma {:induction false} CollectedOf(order: seq<string>, lists: Lists<Payload>, typ: string)
    requires DistinctTypes(order)
    ensures Filter(Collected(order, lists), OfType(typ)) == if typ in order then Map(Wrap(typ), ListOf(lists, typ)) else []
  {
    if order != [] {
      var n := |order| - 1;
      CollectedOf(order[..n], lists, typ);
      var before, own := Collected(order[..n], lists), Map(Wrap(order[n]), ListOf(lists, order[n]));
      assert Collected(order, lists) == before + own;
      OrderInit(order, typ);
      WrappedFilter(order[n], ListOf(lists, order[n]), typ);
      hide *;
      FilterAppend(before, own, OfType(typ));
    }
  }

  lemma OrderInit(order: seq<string>, typ: string)
    requires DistinctTypes(order) && order != []
    ensures var n := |order| - 1;
            && DistinctTypes(order[..n])
            && (typ in order <==> typ == order[n] || typ in order[..n])
            && order[n] !in order[..n]
  {
    assert order == order[..|order| - 1] + [order[|order| - 1]];
  }

  lemma WrappedFilter(here: string, s: seq<Payload>, typ: string)
    ensures Filter(Map(Wrap(here), s), OfType(typ)) == if here == typ then Map(Wrap(here), s) else []
  {
    if here == typ {
      FilterAll(Map(Wrap(here), s), OfType(typ));
    } else {
      FilterNone(Map(Wrap(here), s), OfType(typ));
    }
  }

  ghost predicate EqualLengths(s: seq<Payload>) {
    forall x, y :: x in s && y in s ==> |x.hash| == |y.hash|
  }

  lemma WrapKeeps(typ: string, s: seq<Payload>)
    requires EqualLengths(s)
    ensures Keeps(Map(Wrap(typ), s), Unwrap, LessByKeyHash, Before)
    ensures Map(Unwrap, Map(Wrap(typ), s)) == s
  {
    var items := Map(Wrap(typ), s);
    forall x, y | x in items && y in items
      ensures Before(Unwrap(x), Unwrap(y)) == LessByKeyHash(x, y)
    {
      assert Unwrap(x) in s && Unwrap(y) in s;
    }
  }

  /** The detour through the solver's items changes nothing: the path selects what the
      solver would select from the builder's candidates themselves. */
  lemma DfbaDirect(pools: Lists<Payload>, pol: Policy, late: Payload -> bool)
    requires DistinctTypes(pol.order)
    requires forall typ :: typ in pol.order ==> EqualLengths(ListOf(pools, typ))
    ensures PreparedDfba(pools, pol, late)
         == Solve(pol.order, Listed(pol.order, Candidates(pools, pol, late)), Before, pol.maxN, pol.window)
  {
    var cands := Candidates(pools, pol, late);
    var a, b := Grouped(Collected(pol.order, cands)), Listed(pol.order, cands);
    forall typ: string
      ensures ListOf(a, typ) == if typ in pol.order then Map(Wrap(typ), ListOf(b, typ)) else []
      ensures typ in pol.order ==> EqualLengths(ListOf(b, typ))
    {
      GroupedExact(Collected(pol.order, cands), typ);
      CollectedOf(pol.order, cands, typ);
      CandidatesOf(pools, typ, pol, late);
      assert typ in pol.order ==> ListOf(b, typ) == ListOf(cands, typ);
    }
    hide Grouped;
    hide Collected;
    hide Candidates;
    hide EqualLengths;
    forall i | 0 <= i < |pol.order|
      ensures ListOf(b, pol.order[i]) == Map(Unwrap, ListOf(a, pol.order[i]))
      ensures Keeps(ListOf(a, pol.order[i]), Unwrap, LessByKeyHash, Before)
    {
      WrapKeeps(pol.order[i], ListOf(b, pol.order[i]));
    }
    assert |ListOf(a, BID)| == |ListOf(b, BID)| && |ListOf(a, USER)| == |ListOf(b, USER)|;
    hide Keeps;
    hide ListOf;
    hide Listed;
    var max := Cap(pol.maxN);
    assert Relabels(pol.order, a, b, Unwrap, LessByKeyHash, Before);
    SolveMap(pol.order, a, b, Unwrap, LessByKeyHash, Before, max, WindowOf(pol.window, max));
    SolveCaps(pol.order, b, pol);
  }

  /** Resolving the limits twice is resolving them once. */
  lemma SolveCaps(order: seq<string>, lists: Lists<Payload>, pol: Policy)
    ensures var max := Cap(pol.maxN);
            Solve(order, lists, Before, max, WindowOf(pol.window, max)) == Solve(order, lists, Before, pol.maxN, pol.window)
  {
    hide PerType;
    hide Dual;
  }

  // ----- the fallback refines the plain builder

  /** No payload of the type may enter a block. */
  ghost predicate Barren(pools: Lists<Payload>, pol: Policy, late: Payload -> bool, typ: string) {
    typ !in pol.order || forall p :: p in ListOf(pools, typ) ==> !Eligible(typ, p, pol, late)
  }

  /** One of the two flows has nothing to offer, or there is no room for a pair. */
  ghost predicate Unmatched(pools: Lists<Payload>, pol: Policy, late: Payload -> bool) {
    Barren(pools, pol, late, "auction_bid_v1") || Barren(pools, pol, late, "plaintext_v1") || pol.maxN == 1
  }

  lemma BarrenExact(pools: Lists<Payload>, pol: Policy, late: Payload -> bool, typ: string)
    ensures ListOf(Listed(pol.order, Candidates(pools, pol, late)), typ) == [] <==> Barren(pools, pol, late, typ)
  {
    hide Candidates;
    hide Eligible;
    var cands := Candidates(pools, pol, late);
    var list := ListOf(cands, typ);
    forall p
      ensures p in list <==> p in ListOf(pools, typ) && Eligible(typ, p, pol, late)
    {
      CandidatesExact(pools, typ, pol, late, p);
      assert p in list <==> multiset(list)[p] > 0;
      assert p in ListOf(pools, typ) <==> multiset(ListOf(pools, typ))[p] > 0;
    }
    assert list != [] ==> list[0] in list;
  }

  /** The solver falls back exactly in that case. */
  lemma UnpairedExact(pools: Lists<Payload>, pol: Policy, late: Payload -> bool)
    ensures Unpaired(Listed(pol.order, Candidates(pools, pol, late)), Cap(pol.maxN)) <==> Unmatched(pools, pol, late)
  {
    hide Barren;
    hide Candidates;
    hide Listed;
    hide ListOf;
    BarrenExact(pools, pol, late, BID);
    BarrenExact(pools, pol, late, USER);
  }

  /** When a flow has nothing to offer or the cap is 1, both paths build the same block,
      ties included. */
  lemma DfbaFallback(pools: Lists<Payload>, pol: Policy, late: Payload -> bool)
    requires DistinctTypes(pol.order)
    requires forall typ :: typ in pol.order ==> EqualLengths(ListOf(pools, typ))
    requires Unmatched(pools, pol, late)
    ensures PreparedDfba(pools, pol, late) == Prepared(pools, pol, late)
  {
    UnpairedExact(pools, pol, late);
    hide Unmatched;
    DfbaDirect(pools, pol, late);
    var max := Cap(pol.maxN);
    var cands := Candidates(pools, pol, late);
    var listed := Listed(pol.order, cands);
    hide Candidates;
    hide PreparedDfba;
    hide PerType;
    hide Dual;
    hide EqualLengths;
    ListedFrame(pol.order, cands);
    PerTypeFrame(pol.order, listed, cands, Before, max, WindowOf(pol.window, max));
  }

  lemma ListedFrame(order: seq<string>, lists: Lists<Payload>)
    ensures forall i :: 0 <= i < |order| ==> ListOf(Listed(order, lists), order[i]) == ListOf(lists, order[i])
  {
  }

  // ----- the matched selection

  lemma ShareSegment(typ: string, lists: Lists<Payload>, k: int, max: int, window: int, taken: nat)
    requires Typed(lists)
    ensures Segment(typ, Share(typ, lists, Before, k, max, window, taken))
  {
    ListSegment(typ, lists, if Flow(typ) then k else Min(window, max - taken));
  }

  lemma {:induction false} DualShaped(
      order: seq<string>, j: nat, lists: Lists<Payload>, k: int, max: int, window: int, taken: nat)
    requires DistinctTypes(order) && j <= |order| && Typed(lists)
    ensures Shaped(order, j, Dual(order[j..], lists, Before, k, max, window, taken))
    decreases |order| - j
  {
    hide *;
    DualStep(order, j, lists, Before, k, max, window, taken);
    if j < |order| {
      ShareSegment(order[j], lists, k, max, window, taken);
      var sel := Share(order[j], lists, Before, k, max, window, taken);
      DualShaped(order, j + 1, lists, k, max, window, taken + |sel|);
      ShapedCons(order, j, sel, Dual(order[j + 1..], lists, Before, k, max, window, taken + |sel|));
    } else {
      ShapedNone(order, j);
    }
  }

  lemma {:induction false} DualPart(
      order: seq<string>, j: nat, lists: Lists<Payload>, k: int, max: int, window: int, taken: nat, typ: string)
    requires DistinctTypes(order) && j <= |order| && Typed(lists) && Flow(typ)
    ensures Filter(Dual(order[j..], lists, Before, k, max, window, taken), OfKind(typ))
         == if typ in order[j..] then Best(ListOf(lists, typ), Before, k) else []
    decreases |order| - j
  {
    hide Dual;
    hide Best;
    hide ListOf;
    DualStep(order, j, lists, Before, k, max, window, taken);
    if j < |order| {
      hide DistinctTypes;
      hide Typed;
      ShareSegment(order[j], lists, k, max, window, taken);
      var sel := Share(order[j], lists, Before, k, max, window, taken);
      DualPart(order, j + 1, lists, k, max, window, taken + |sel|, typ);
      SegmentFilter(order[j], sel, typ);
      hide Filter;
      hide Segment;
      FilterAppend(sel, Dual(order[j + 1..], lists, Before, k, max, window, taken + |sel|), OfKind(typ));
      OrderTail(order, j, typ);
    }
  }

  lemma ListedTyped(pools: Lists<Payload>, pol: Policy, late: Payload -> bool)
    requires Typed(pools)
    ensures Typed(Listed(pol.order, Candidates(pools, pol, late)))
  {
    CandidatesTyped(pools, pol, late);
  }

  /** A matched block holds equally many of the two flows, the best of each: as many as both
      flows, the window and half the cap allow, and no fewer. */
  lemma DfbaMatched(pools: Lists<Payload>, pol: Policy, late: Payload -> bool)
    returns (bidsLeft: seq<Payload>, usersLeft: seq<Payload>)
    requires DistinctTypes(pol.order) && Typed(pools)
    requires forall t :: t in pol.order ==> EqualLengths(ListOf(pools, t))
    requires !Unmatched(pools, pol, late)
    ensures var block := PreparedDfba(pools, pol, late);
            var bids, users := Filter(block, OfKind("auction_bid_v1")), Filter(block, OfKind("plaintext_v1"));
            var limit := if 0 < pol.maxN then pol.maxN else 1024;
            && 0 < |bids| == |users| && |bids| + |users| <= limit
            && TakesBest("auction_bid_v1", bids, bidsLeft, pools, pol, late)
            && TakesBest("plaintext_v1", users, usersLeft, pools, pol, late)
            && (bidsLeft == [] || usersLeft == [] || (0 < pol.window && |bids| == pol.window) || |bids| == limit / 2)
  {
    CapExact(pol);
    hide Typed;
    hide EqualLengths;
    hide DistinctTypes;
    hide TakesBest;
    hide Filter;
    hide PreparedDfba;
    hide ListOf;
    hide Best;
    hide Listed;
    hide Candidates;
    hide Pairs;
    hide Cap;
    hide WindowOf;
    var max := Cap(pol.maxN);
    var window := WindowOf(pol.window, max);
    var lists := Listed(pol.order, Candidates(pools, pol, late));
    var k := FlowPart(pools, pol, late, BID);
    var k' := FlowPart(pools, pol, late, USER);
    UnpairedExact(pools, pol, late);
    hide Unmatched;
    PairsPositive(lists, max, window);
    bidsLeft := BestTakes(pools, pol, late, BID, k);
    usersLeft := BestTakes(pools, pol, late, USER, k);
  }

  /** A matched block's share of a flow. */
  lemma FlowPart(pools: Lists<Payload>, pol: Policy, late: Payload -> bool, typ: string) returns (k: int)
    requires DistinctTypes(pol.order) && Typed(pools) && Flow(typ)
    requires forall t :: t in pol.order ==> EqualLengths(ListOf(pools, t))
    requires !Unmatched(pools, pol, late)
    ensures var max := Cap(pol.maxN);
            var cands := Candidates(pools, pol, late);
            && k == Pairs(Listed(pol.order, cands), max, WindowOf(pol.window, max))
            && ListOf(Listed(pol.order, cands), typ) == ListOf(cands, typ)
            && Filter(PreparedDfba(pools, pol, late), OfKind(typ)) == Best(ListOf(cands, typ), Before, k)
  {
    UnpairedExact(pools, pol, late);
    FlowListed(pools, pol, late, typ);
    hide Unmatched;
    DfbaDirect(pools, pol, late);
    ListedTyped(pools, pol, late);
    hide Listed;
    hide Candidates;
    hide PreparedDfba;
    hide Dual;
    hide Typed;
    hide EqualLengths;
    hide DistinctTypes;
    var cands := Listed(pol.order, Candidates(pools, pol, late));
    var max := Cap(pol.maxN);
    var window := WindowOf(pol.window, max);
    k := Pairs(cands, max, window);
    assert pol.order[0..] == pol.order;
    DualPart(pol.order, 0, cands, k, max, window, 0, typ);
  }

  lemma FlowListed(pools: Lists<Payload>, pol: Policy, late: Payload -> bool, typ: string)
    requires !Unmatched(pools, pol, late) && Flow(typ)
    ensures typ in pol.order
    ensures ListOf(Listed(pol.order, Candidates(pools, pol, late)), typ) == ListOf(Candidates(pools, pol, late), typ)
  {
  }

  // ----- the other types of a matched selection

  lemma DualAheadStep(
      order: seq<string>, j: nat, lists: Lists<Payload>, k: int, max: int, window: int, taken: nat, typ: string)
    requires DistinctTypes(order) && j < |order| && typ in order && Typed(lists)
    ensures var sel := Share(order[j], lists, Before, k, max, window, taken);
            var all, rest := Dual(order[j..], lists, Before, k, max, window, taken),
                             Dual(order[j + 1..], lists, Before, k, max, window, taken + |sel|);
            && Filter(all, AtOrAhead(order, typ))
                 == (if j <= Rank(order, typ) then sel else []) + Filter(rest, AtOrAhead(order, typ))
            && Filter(all, OfKind(typ)) == (if order[j] == typ then sel else []) + Filter(rest, OfKind(typ))
  {
    hide Dual;
    hide Share;
    hide Typed;
    hide Segment;
    hide Rank;
    hide DistinctTypes;
    hide Filter;
    DualStep(order, j, lists, Before, k, max, window, taken);
    var sel := Share(order[j], lists, Before, k, max, window, taken);
    var rest := Dual(order[j + 1..], lists, Before, k, max, window, taken + |sel|);
    ShareSegment(order[j], lists, k, max, window, taken);
    SegmentAhead(order, j, sel, typ);
    SegmentFilter(order[j], sel, typ);
    FilterAppend(sel, rest, AtOrAhead(order, typ));
    FilterAppend(sel, rest, OfKind(typ));
  }

  lemma BehindKind(order: seq<string>, j: nat, rest: seq<Payload>, typ: string)
    requires j > Rank(order, typ) && Shaped(order, j, rest)
    ensures Filter(rest, OfKind(typ)) == []
  {
    FilterNone(rest, OfKind(typ));
  }

  lemma OtherShare(typ: string, lists: Lists<Payload>, k: int, max: int, window: int, taken: nat)
    requires !Flow(typ) && window > 0
    ensures var sel := Share(typ, lists, Before, k, max, window, taken);
            && |sel| <= window && |sel| <= |ListOf(lists, typ)|
            && sel == Best(ListOf(lists, typ), Before, |sel|)
            && (sel != [] ==> taken + |sel| <= max)
            && (|sel| < |ListOf(lists, typ)| ==> |sel| == window || taken + |sel| >= max)
  {
    BestTrim(ListOf(lists, typ), Before, Min(window, max - taken));
    hide ListOf;
    hide StableSort;
  }

  /** A type outside the flows takes its best up to the window while the types up to it stay
      within the cap, and is cut short only by either. */
  lemma {:induction false} DualOther(
      order: seq<string>, j: nat, lists: Lists<Payload>, k: int, max: int, window: int, taken: nat, typ: string) returns (n: nat)
    requires DistinctTypes(order) && typ in order && j <= Rank(order, typ) && Typed(lists) && !Flow(typ) && window > 0
    ensures var all := Dual(order[j..], lists, Before, k, max, window, taken);
            var ahead := taken + |Filter(all, AtOrAhead(order, typ))|;
            && n <= window && n <= |ListOf(lists, typ)|
            && Filter(all, OfKind(typ)) == Best(ListOf(lists, typ), Before, n)
            && (n > 0 ==> ahead <= max)
            && (n < |ListOf(lists, typ)| ==> n == window || ahead >= max)
    decreases |order| - j
  {
    hide Dual;
    hide Share;
    hide ListOf;
    hide Best;
    hide Typed;
    hide Filter;
    hide Shaped;
    hide Rank;
    hide DistinctTypes;
    hide Flow;
    RankDistinct(order, j);
    RankDistinct(order, Rank(order, typ));
    DualAheadStep(order, j, lists, k, max, window, taken, typ);
    var sel := Share(order[j], lists, Before, k, max, window, taken);
    if j < Rank(order, typ) {
      n := DualOther(order, j + 1, lists, k, max, window, taken + |sel|, typ);
    } else {
      n := |sel|;
      OtherShare(typ, lists, k, max, window, taken);
      DualShaped(order, j + 1, lists, k, max, window, taken + |sel|);
      var rest := Dual(order[j + 1..], lists, Before, k, max, window, taken + |sel|);
      BehindFilter(order, j + 1, rest, typ);
      BehindKind(order, j + 1, rest, typ);
    }
  }

  /** The other types of a matched block: the best of each, at most window of them, none once
      the types up to it would pass the cap, and cut short only by the window or the cap. */
  lemma DfbaOthers(pools: Lists<Payload>, pol: Policy, late: Payload -> bool, typ: string) returns (rest: seq<Payload>)
    requires DistinctTypes(pol.order) && Typed(pools) && typ in pol.order && typ != "auction_bid_v1" && typ != "plaintext_v1"
    requires forall t :: t in pol.order ==> EqualLengths(ListOf(pools, t))
    requires !Unmatched(pools, pol, late)
    ensures var block := PreparedDfba(pools, pol, late);
            var taken, ahead := Filter(block, OfKind(typ)), |Filter(block, AtOrAhead(pol.order, typ))|;
            var limit := if 0 < pol.maxN then pol.maxN else 1024;
            && TakesBest(typ, taken, rest, pools, pol, late)
            && (taken != [] ==> ahead <= limit)
            && (rest != [] ==> (0 < pol.window && |taken| == pol.window) || ahead >= limit)
  {
    CapExact(pol);
    hide Candidates;
    hide PreparedDfba;
    hide Typed;
    hide EqualLengths;
    hide DistinctTypes;
    hide TakesBest;
    hide Filter;
    hide ListOf;
    hide StableSort;
    hide Cap;
    hide WindowOf;
    hide Unmatched;
    hide AtOrAhead;
    hide OfKind;
    var n := OtherPart(pools, pol, late, typ);
    rest := BestTakes(pools, pol, late, typ, n);
    AheadAtMost(PreparedDfba(pools, pol, late), pol.order, typ);
  }

  /** A matched block's share of another type. */
  lemma OtherPart(pools: Lists<Payload>, pol: Policy, late: Payload -> bool, typ: string) returns (n: nat)
    requires DistinctTypes(pol.order) && Typed(pools) && typ in pol.order && !Flow(typ)
    requires forall t :: t in pol.order ==> EqualLengths(ListOf(pools, t))
    requires !Unmatched(pools, pol, late)
    ensures var block := PreparedDfba(pools, pol, late);
            var list := ListOf(Candidates(pools, pol, late), typ);
            var max, ahead := Cap(pol.maxN), |Filter(block, AtOrAhead(pol.order, typ))|;
            && n <= WindowOf(pol.window, max) && n <= |list|
            && Filter(block, OfKind(typ)) == Best(list, Before, n)
            && (n > 0 ==> ahead <= max)
            && (n < |list| ==> n == WindowOf(pol.window, max) || ahead >= max)
  {
    CapExact(pol);
    UnpairedExact(pools, pol, late);
    hide Unmatched;
    DfbaDirect(pools, pol, late);
    ListedTyped(pools, pol, late);
    ListedAt(pol.order, Candidates(pools, pol, late), typ);
    hide Listed;
    hide Candidates;
    hide PreparedDfba;
    hide Dual;
    hide Typed;
    hide EqualLengths;
    hide DistinctTypes;
    hide Filter;
    hide ListOf;
    hide Best;
    hide Rank;
    hide Cap;
    hide WindowOf;
    hide Unpaired;
    hide Pairs;
    hide Flow;
    hide AtOrAhead;
    hide OfKind;
    var lists := Listed(pol.order, Candidates(pools, pol, late));
    var max := Cap(pol.maxN);
    var window := WindowOf(pol.window, max);
    assert pol.order[0..] == pol.order;
    n := DualOther(pol.order, 0, lists, Pairs(lists, max, window), max, window, 0, typ);
  }

  lemma ListedAt(order: seq<string>, lists: Lists<Payload>, typ: string)
    requires typ in order
    ensures ListOf(Listed(order, lists), typ) == ListOf(lists, typ)
  {
  }

  /** The validator accepts what the solver path builds. */
  lemma DfbaValid(pools: Lists<Payload>, pol: Policy, late: Payload -> bool)
    requires DistinctTypes(pol.order) && Typed(pools)
    requires forall typ :: typ in pol.order ==> EqualLengths(ListOf(pools, typ))
    ensures ValidBlock(pol.order, PreparedDfba(pools, pol, late))
  {
    DfbaDirect(pools, pol, late);
    ListedTyped(pools, pol, late);
    var cands := Listed(pol.order, Candidates(pools, pol, late));
    var max := Cap(pol.maxN);
    var window := WindowOf(pol.window, max);
    assert pol.order[0..] == pol.order;
    PerTypeShaped(pol.order, 0, cands, max, window);
    DualShaped(pol.order, 0, cands, Pairs(cands, max, window), max, window, 0);
  }

  /** The solver path respects the cap exactly when the types up to the last flow fit. */
  lemma DfbaSize(pools: Lists<Payload>, pol: Policy, late: Payload -> bool)
    requires DistinctTypes(pol.order)
    requires forall typ :: typ in pol.order ==> EqualLengths(ListOf(pools, typ))
    requires !Unmatched(pools, pol, late)
    ensures var cands := Listed(pol.order, Candidates(pools, pol, late));
            var max := Cap(pol.maxN);
            var window := WindowOf(pol.window, max);
            var k := Pairs(cands, max, window);
            var n := |PreparedDfba(pools, pol, late)|;
            n <= max + k + k && (n <= max <==> Required(pol.order, cands, k, window) <= max)
  {
    UnpairedExact(pools, pol, late);
    hide Unmatched;
    DfbaDirect(pools, pol, late);
    SolveSize(pol.order, Listed(pol.order, Candidates(pools, pol, late)), Before, pol.maxN, pol.window);
  }
}
