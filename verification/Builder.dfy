/** The deterministic block builder and validator of internal/payload/builder.go. */
module Builder {
  import opened Outcomes
  import opened Sorting
  import opened Selection

  /** body stands for whatever else tells two payloads apart. */
  datatype Payload = Payload(typ: string, key: nat, hash: seq<Byte>, body: int)

  datatype Policy = Policy(order: seq<string>, maxN: int, minBid: nat, minFee: nat, window: int)

  // ----- comparing

  /** Byte-wise comparison; a proper prefix comes first. */
  predicate HashLess(a: seq<Byte>, b: seq<Byte>) {
    if a == [] || b == [] then |a| < |b|
    else if a[0] != b[0] then a[0] < b[0]
    else HashLess(a[1..], b[1..])
  }

  predicate Before(x: Payload, y: Payload) {
    if x.key != y.key then x.key > y.key else HashLess(x.hash, y.hash)
  }

  /** a is a proper prefix of b, or smaller at the first place where they differ. */
  ghost predicate Lexicographic(a: seq<Byte>, b: seq<Byte>) {
    exists n: nat ::
      && n <= |a| && n <= |b| && a[..n] == b[..n]
      && (if n < |a| && n < |b| then a[n] < b[n] else |a| < |b|)
  }

  lemma LexicographicTail(a: seq<Byte>, b: seq<Byte>)
    requires a != [] && b != [] && a[0] == b[0]
    ensures Lexicographic(a, b) <==> Lexicographic(a[1..], b[1..])
  {
    var x, y := a[1..], b[1..];
    if n: nat :|
      && n <= |a| && n <= |b| && a[..n] == b[..n]
      && (if n < |a| && n < |b| then a[n] < b[n] else |a| < |b|) {
      assert n > 0;
      assert x[..n - 1] == a[..n][1..] && y[..n - 1] == b[..n][1..];
    }
    if n: nat :|
      && n <= |x| && n <= |y| && x[..n] == y[..n]
      && (if n < |x| && n < |y| then x[n] < y[n] else |x| < |y|) {
      assert a[..n + 1] == [a[0]] + x[..n] && b[..n + 1] == [b[0]] + y[..n];
      assert n + 1 <= |a| && n + 1 <= |b|;
    }
  }

  lemma SamePrefixHead(a: seq<Byte>, b: seq<Byte>, n: nat)
    requires n <= |a| && n <= |b| && a[..n] == b[..n]
    ensures n > 0 ==> a[0] == b[0]
  {
    assert n > 0 ==> a[..n][0] == b[..n][0];
  }

  lemma {:induction false} HashLessExact(a: seq<Byte>, b: seq<Byte>)
    ensures HashLess(a, b) <==> Lexicographic(a, b)
  {
    if a != [] && b != [] && a[0] == b[0] {
      LexicographicTail(a, b);
      HashLessExact(a[1..], b[1..]);
    } else {
      assert a[..0] == b[..0];
      if n: nat :|
        && n <= |a| && n <= |b| && a[..n] == b[..n]
        && (if n < |a| && n < |b| then a[n] < b[n] else |a| < |b|) {
        SamePrefixHead(a, b, n);
      }
    }
  }

  /** The higher key, and between equal keys the smaller hash. */
  ghost predicate Outranks(x: Payload, y: Payload) {
    x.key > y.key || (x.key == y.key && Lexicographic(x.hash, y.hash))
  }

  lemma BeforeExact(x: Payload, y: Payload)
    ensures Before(x, y) <==> Outranks(x, y)
  {
    HashLessExact(x.hash, y.hash);
  }

  lemma HashLessAsymmetric(a: seq<Byte>, b: seq<Byte>)
    ensures !(HashLess(a, b) && HashLess(b, a))
  {
    if a != [] && b != [] && a[0] == b[0] {
      HashLessAsymmetric(a[1..], b[1..]);
    }
  }

  lemma HashLessSplits(a: seq<Byte>, b: seq<Byte>, c: seq<Byte>)
    requires HashLess(a, c)
    ensures HashLess(a, b) || HashLess(b, c)
  {
    if a != [] && b != [] && c != [] && a[0] == b[0] == c[0] {
      HashLessSplits(a[1..], b[1..], c[1..]);
    }
  }

  lemma HashLessTotal(a: seq<Byte>, b: seq<Byte>)
    requires a != b
    ensures HashLess(a, b) || HashLess(b, a)
  {
    if a != [] && b != [] && a[0] == b[0] {
      assert a == [a[0]] + a[1..] && b == [b[0]] + b[1..];
      HashLessTotal(a[1..], b[1..]);
    }
  }

  lemma BeforeOrders(s: seq<Payload>)
    ensures Orders(Before, s)
  {
    forall x, y | x in s && y in s && Before(x, y)
      ensures !Before(y, x)
    {
      HashLessAsymmetric(x.hash, y.hash);
    }
    forall x, y, z | x in s && y in s && z in s && Before(x, z)
      ensures Before(x, y) || Before(y, z)
    {
      if x.key == y.key == z.key {
        HashLessSplits(x.hash, y.hash, z.hash);
      }
    }
  }

  // ----- filtering

  /** Below the fee or bid threshold of its type. */
  predicate BelowThreshold(typ: string, p: Payload, pol: Policy) {
    || (typ == "auction_bid_v1" && pol.minBid > 0 && p.key < pol.minBid)
    || (typ == "plaintext_v1" && pol.minFee > 0 && p.key < pol.minFee)
  }

  function Admits(typ: string, pol: Policy, late: Payload -> bool): Payload -> bool {
    (p: Payload) => !late(p) && !BelowThreshold(typ, p, pol)
  }

  method FilterByWindowAndThreshold(cands: seq<Payload>, typ: string, pol: Policy, late: Payload -> bool)
    returns (filtered: seq<Payload>)
    ensures filtered == Filter(cands, Admits(typ, pol, late))
  {
    filtered := [];
    for k := 0 to |cands|
      invariant filtered == Filter(cands[..k], Admits(typ, pol, late))
    {
      var p := cands[k];
      assert cands[..k + 1] == cands[..k] + [p];
      FilterAppend(cands[..k], [p], Admits(typ, pol, late));
      if late(p) || BelowThreshold(typ, p, pol) {
        continue;
      }
      filtered := filtered + [p];
    }
    assert cands[..|cands|] == cands;
  }

  // ----- building

  method TakeDeterministic(cands: seq<Payload>, need: int, budget: int) returns (r: seq<Payload>)
    ensures var n := Min(need, budget);
            r == if n <= 0 then StableSort(cands, Before) else Best(cands, Before, n)
  {
    var n := need;
    if n > budget {
      n := budget;
    }
    var sorted := StableSort(cands, Before);
    if n <= 0 || n > |cands| {
      n := |cands|;
    }
    r := sorted[..n];
    assert sorted[..|cands|] == sorted;
  }

  /** The candidates of each type that pass the filters. */
  function Candidates(pools: Lists<Payload>, pol: Policy, late: Payload -> bool): Lists<Payload> {
    map typ | typ in pools :: Filter(pools[typ], Admits(typ, pol, late))
  }

  function Prepared(pools: Lists<Payload>, pol: Policy, late: Payload -> bool): seq<Payload> {
    var max := Cap(pol.maxN);
    PerType(pol.order, Candidates(pools, pol, late), Before, max, WindowOf(pol.window, max))
  }

  lemma CandidatesOf(pools: Lists<Payload>, typ: string, pol: Policy, late: Payload -> bool)
    ensures Filter(ListOf(pools, typ), Admits(typ, pol, late)) == ListOf(Candidates(pools, pol, late), typ)
  {
  }

  /** The best need candidates of one type. */
  method SelectType(pools: Lists<Payload>, typ: string, pol: Policy, late: Payload -> bool, need: int) returns (selected: seq<Payload>)
    requires need > 0
    ensures |selected| <= need
    ensures selected == Best(ListOf(Candidates(pools, pol, late), typ), Before, need)
  {
    var filtered := FilterByWindowAndThreshold(ListOf(pools, typ), typ, pol, late);
    CandidatesOf(pools, typ, pol, late);
    hide Candidates;
    hide ListOf;
    hide Filter;
    selected := TakeDeterministic(filtered, need, need);
  }

  method PrepareProposal(pools: Lists<Payload>, pol: Policy, late: Payload -> bool) returns (items: seq<Payload>)
    ensures items == Prepared(pools, pol, late)
  {
    hide Candidates;
    hide ListOf;
    hide Best;
    hide PerType;
    var max := Cap(pol.maxN);
    var window := WindowOf(pol.window, max);
    ghost var lists := Candidates(pools, pol, late);
    items := [];
    var remain, k := max, 0;
    assert pol.order[0..] == pol.order;
    while k < |pol.order|
      invariant 0 <= k <= |pol.order| && remain == max - |items| >= 0
      invariant items + PerType(pol.order[k..], lists, Before, remain, window) == Prepared(pools, pol, late)
    {
      if remain <= 0 {
        break;
      }
      var need := Min(window, remain);
      var selected := SelectType(pools, pol.order[k], pol, late, need);
      PerTypeStep(pol.order, k, lists, Before, remain, window);
      items := items + selected;
      remain := max - |items|;
      k := k + 1;
    }
    PerTypeStep(pol.order, k, lists, Before, remain, window);
  }

  // ----- validating

  datatype Rejection = UnexpectedType | PriorityViolated | KeyIncreased

  /** Every type is listed, types come in the policy's order, and within a type the sort
      keys do not increase. */
  ghost predicate ValidBlock(order: seq<string>, items: seq<Payload>) {
    order == [] || Shaped(order, 0, items)
  }

  ghost predicate Shaped(order: seq<string>, k: int, items: seq<Payload>) {
    && (forall i :: 0 <= i < |items| ==> Rank(order, items[i].typ) >= k)
    && (forall i, j :: 0 <= i < j < |items| ==> Rank(order, items[i].typ) <= Rank(order, items[j].typ))
    && (forall i, j :: 0 <= i < j < |items| && items[i].typ == items[j].typ ==> items[i].key >= items[j].key)
  }

  method Priorities(order: seq<string>) returns (pri: map<string, int>)
    ensures forall t :: t in pri <==> Rank(order, t) >= 0
    ensures forall t :: t in pri ==> pri[t] == Rank(order, t)
  {
    pri := map[];
    for i := 0 to |order|
      invariant forall t :: t in pri <==> Rank(order[..i], t) >= 0
      invariant forall t :: t in pri ==> pri[t] == Rank(order[..i], t)
    {
      assert order[..i + 1][..i] == order[..i];
      pri := pri[order[i] := i];
    }
    assert order[..|order|] == order;
  }

  /** The last sort key seen for each type. */
  function LastKeys(items: seq<Payload>): map<string, nat> {
    if items == [] then map[]
    else
      var it := items[|items| - 1];
      LastKeys(items[..|items| - 1])[it.typ := it.key]
  }

  lemma {:induction false} LastKeysLeast(order: seq<string>, items: seq<Payload>)
    requires Shaped(order, 0, items)
    ensures forall i :: 0 <= i < |items| ==> items[i].typ in LastKeys(items) && LastKeys(items)[items[i].typ] <= items[i].key
  {
    if items != [] {
      LastKeysLeast(order, items[..|items| - 1]);
    }
  }

  lemma {:induction false} LastKeysSeen(items: seq<Payload>, t: string) returns (i: nat)
    requires t in LastKeys(items)
    ensures i < |items| && items[i].typ == t && items[i].key == LastKeys(items)[t]
  {
    i := |items| - 1;
    if items[i].typ != t {
      i := LastKeysSeen(items[..i], t);
    }
  }

  /** The checks made on the next item. */
  predicate Fits(order: seq<string>, items: seq<Payload>, it: Payload) {
    && Rank(order, it.typ) >= 0
    && (items != [] ==> Rank(order, it.typ) >= Rank(order, items[|items| - 1].typ))
    && (it.typ in LastKeys(items) ==> it.key <= LastKeys(items)[it.typ])
  }

  lemma ShapedSnoc(order: seq<string>, items: seq<Payload>, it: Payload)
    requires Shaped(order, 0, items)
    ensures Shaped(order, 0, items + [it]) <==> Fits(order, items, it)
  {
    hide Shaped;
    hide Fits;
    if Shaped(order, 0, items + [it]) {
      ShapedFits(order, items, it);
    }
    if Fits(order, items, it) {
      FitsShaped(order, items, it);
    }
  }

  lemma ShapedFits(order: seq<string>, items: seq<Payload>, it: Payload)
    requires Shaped(order, 0, items + [it])
    ensures Fits(order, items, it)
  {
    var all, n := items + [it], |items|;
    hide Rank;
    hide LastKeys;
    assert all[n] == it && (n > 0 ==> all[n - 1] == items[n - 1]);
    if it.typ in LastKeys(items) {
      var i := LastKeysSeen(items, it.typ);
      assert all[i] == items[i];
    }
  }

  lemma FitsShaped(order: seq<string>, items: seq<Payload>, it: Payload)
    requires Shaped(order, 0, items) && Fits(order, items, it)
    ensures Shaped(order, 0, items + [it])
  {
    LastKeysLeast(order, items);
    var all, n := items + [it], |items|;
    hide Rank;
    hide LastKeys;
    forall i | 0 <= i < n
      ensures Rank(order, items[i].typ) <= Rank(order, it.typ)
      ensures items[i].typ == it.typ ==> items[i].key >= it.key
    {
      assert i < n - 1 ==> Rank(order, items[i].typ) <= Rank(order, items[n - 1].typ);
    }
    forall i, j | 0 <= i < j < |all|
      ensures Rank(order, all[i].typ) <= Rank(order, all[j].typ)
      ensures all[i].typ == all[j].typ ==> all[i].key >= all[j].key
    {
      assert all[i] == items[i];
      if j < n {
        assert all[j] == items[j];
      }
    }
  }

  lemma ShapedPrefix(order: seq<string>, items: seq<Payload>, n: nat)
    requires n <= |items| && Shaped(order, 0, items)
    ensures Shaped(order, 0, items[..n])
  {
  }

  /** The validator accepts exactly the valid blocks. */
  method ProcessProposal(items: seq<Payload>, pol: Policy) returns (r: Result<bool, Rejection>)
    ensures r.Ok? <==> ValidBlock(pol.order, items)
  {
    hide Shaped;
    hide LastKeys;
    if |pol.order| == 0 {
      return Ok(true);
    }
    var order := pol.order;
    var pri := Priorities(order);
    var lastPri := -1;
    var lastKey: map<string, nat> := map[];
    ShapedNone(order, 0);
    for i := 0 to |items|
      invariant Shaped(order, 0, items[..i])
      invariant lastPri == if i == 0 then -1 else Rank(order, items[i - 1].typ)
      invariant lastKey == LastKeys(items[..i])
    {
      var it := items[i];
      ShapedSnoc(order, items[..i], it);
      assert items[..i + 1] == items[..i] + [it];
      if it.typ !in pri || pri[it.typ] < lastPri || (it.typ in lastKey && it.key > lastKey[it.typ]) {
        if Shaped(order, 0, items) {
          ShapedPrefix(order, items, i + 1);
          assert false;
        }
        return Err(if it.typ !in pri then UnexpectedType else if pri[it.typ] < lastPri then PriorityViolated else KeyIncreased);
      }
      LastKeysSnoc(items[..i], it);
      lastKey := lastKey[it.typ := it.key];
      if pri[it.typ] > lastPri {
        lastPri := pri[it.typ];
      }
    }
    assert items[..|items|] == items;
    r := Ok(true);
  }

  lemma ShapedNone(order: seq<string>, k: int)
    ensures Shaped(order, k, []) && LastKeys([]) == map[]
  {
  }

  lemma LastKeysSnoc(items: seq<Payload>, it: Payload)
    ensures LastKeys(items + [it]) == LastKeys(items)[it.typ := it.key]
  {
    assert (items + [it])[..|items|] == items;
  }

  // ----- what the builder makes, the validator accepts

  /** Payloads are filed under their own type. */
  ghost predicate Typed(lists: Lists<Payload>) {
    forall typ, i :: typ in lists && 0 <= i < |lists[typ]| ==> lists[typ][i].typ == typ
  }

  /** A segment of one type, best first. */
  ghost predicate Segment(typ: string, sel: seq<Payload>) {
    && (forall i :: 0 <= i < |sel| ==> sel[i].typ == typ)
    && (forall i, j :: 0 <= i < j < |sel| ==> sel[i].key >= sel[j].key)
  }

  lemma RankDistinct(order: seq<string>, k: nat)
    requires DistinctTypes(order) && k < |order|
    ensures Rank(order, order[k]) == k
  {
  }

  lemma ShapedCons(order: seq<string>, k: nat, sel: seq<Payload>, rest: seq<Payload>)
    requires DistinctTypes(order) && k < |order| && Segment(order[k], sel) && Shaped(order, k + 1, rest)
    ensures Shaped(order, k, sel + rest)
  {
    RankDistinct(order, k);
    hide Rank;
    hide DistinctTypes;
    var all, n := sel + rest, |sel|;
    forall i | 0 <= i < |all|
      ensures if i < n then all[i] == sel[i] && Rank(order, all[i].typ) == k else all[i] == rest[i - n] && Rank(order, all[i].typ) > k
    {
    }
  }

  lemma BestSegment(typ: string, s: seq<Payload>, n: int)
    requires forall i :: 0 <= i < |s| ==> s[i].typ == typ
    ensures Segment(typ, Best(s, Before, n))
  {
    BeforeOrders(s);
    var m := |Best(s, Before, n)|;
    TopOfSort(s, Before, m);
    var t := StableSort(s, Before);
    SameElements(t, s);
    assert Best(s, Before, n) == t[..m];
    forall i | 0 <= i < m
      ensures t[i].typ == typ
    {
      assert t[i] in s;
    }
    forall i, j | 0 <= i < j < m
      ensures t[i].key >= t[j].key
    {
      assert !Before(t[..m][j], t[..m][i]);
    }
  }

  lemma {:induction false} PerTypeShaped(order: seq<string>, k: nat, lists: Lists<Payload>, max: int, window: int)
    requires DistinctTypes(order) && k <= |order| && Typed(lists)
    ensures Shaped(order, k, PerType(order[k..], lists, Before, max, window))
    decreases |order| - k
  {
    hide *;
    PerTypeStep(order, k, lists, Before, max, window);
    if k < |order| {
      ListSegment(order[k], lists, Min(window, max));
      var sel := Best(ListOf(lists, order[k]), Before, Min(window, max));
      PerTypeShaped(order, k + 1, lists, max - |sel|, window);
      ShapedCons(order, k, sel, PerType(order[k + 1..], lists, Before, max - |sel|, window));
    } else {
      ShapedNone(order, k);
    }
  }

  lemma ListSegment(typ: string, lists: Lists<Payload>, n: int)
    requires Typed(lists)
    ensures Segment(typ, Best(ListOf(lists, typ), Before, n))
  {
    BestSegment(typ, ListOf(lists, typ), n);
  }

  lemma CandidatesTyped(pools: Lists<Payload>, pol: Policy, late: Payload -> bool)
    requires Typed(pools)
    ensures Typed(Candidates(pools, pol, late))
  {
    var lists: Lists<Payload> := Candidates(pools, pol, late);
    forall typ, i | typ in lists && 0 <= i < |lists[typ]|
      ensures lists[typ][i].typ == typ
    {
      assert lists[typ][i] in pools[typ];
    }
  }

  /** The validator accepts every block the builder makes, whatever the pools hold and
      whatever the time window rejects, and a block never exceeds the cap. */
  lemma PreparedValid(pools: Lists<Payload>, pol: Policy, late: Payload -> bool)
    requires DistinctTypes(pol.order) && Typed(pools)
    ensures ValidBlock(pol.order, Prepared(pools, pol, late))
    ensures |Prepared(pools, pol, late)| <= Cap(pol.maxN)
  {
    CandidatesTyped(pools, pol, late);
    var max := Cap(pol.maxN);
    assert pol.order[0..] == pol.order;
    PerTypeShaped(pol.order, 0, Candidates(pools, pol, late), max, WindowOf(pol.window, max));
  }

  // ----- which candidates are taken

  function OfKind(typ: string): Payload -> bool {
    (p: Payload) => p.typ == typ
  }

  lemma SegmentFilter(here: string, sel: seq<Payload>, typ: string)
    requires Segment(here, sel)
    ensures Filter(sel, OfKind(typ)) == if here == typ then sel else []
  {
    if here == typ {
      FilterAll(sel, OfKind(typ));
    } else {
      FilterNone(sel, OfKind(typ));
    }
  }

  lemma OrderTail(order: seq<string>, j: nat, typ: string)
    requires DistinctTypes(order) && j < |order|
    ensures typ in order[j..] <==> typ == order[j] || typ in order[j + 1..]
    ensures order[j] !in order[j + 1..]
  {
    assert order[j..] == [order[j]] + order[j + 1..];
  }

  lemma BestRest(list: seq<Payload>, k: int) returns (rest: seq<Payload>)
    requires 0 <= k <= |list|
    ensures var taken := Best(list, Before, k);
            && multiset(taken) + multiset(rest) == multiset(list)
            && Sorted(taken, Before)
            && forall x, y :: x in taken && y in rest ==> !Before(y, x)
  {
    hide StableSort;
    hide Orders;
    hide Before;
    BeforeOrders(list);
    TopOfSort(list, Before, k);
    var t := StableSort(list, Before);
    rest := t[k..];
    var taken := t[..k];
    forall x, y | x in taken && y in rest
      ensures !Before(y, x)
    {
      var i :| 0 <= i < k && t[i] == x;
      var j :| 0 <= j < |rest| && rest[j] == y;
      assert y == t[k + j];
    }
  }

  /** One type's share of what is selected from order[k..] on. */
  function Part(order: seq<string>, k: nat, lists: Lists<Payload>, max: int, window: int, typ: string): seq<Payload>
    requires k <= |order|
  {
    Filter(PerType(order[k..], lists, Before, max, window), OfKind(typ))
  }

  lemma PartStep(order: seq<string>, k: nat, lists: Lists<Payload>, max: int, window: int, typ: string)
    requires Typed(lists) && k <= |order|
    ensures k == |order| ==> Part(order, k, lists, max, window, typ) == []
    ensures k < |order| ==>
      var sel := Best(ListOf(lists, order[k]), Before, Min(window, max));
      Part(order, k, lists, max, window, typ)
        == (if order[k] == typ then sel else []) + Part(order, k + 1, lists, max - |sel|, window, typ)
  {
    hide PerType;
    hide ListOf;
    hide Best;
    hide Typed;
    hide Segment;
    PerTypeStep(order, k, lists, Before, max, window);
    if k < |order| {
      var sel := Best(ListOf(lists, order[k]), Before, Min(window, max));
      ListSegment(order[k], lists, Min(window, max));
      SegmentFilter(order[k], sel, typ);
      FilterAppend(sel, PerType(order[k + 1..], lists, Before, max - |sel|, window), OfKind(typ));
    }
  }

  lemma {:induction false} PartAbsent(order: seq<string>, k: nat, lists: Lists<Payload>, max: int, window: int, typ: string)
    requires Typed(lists) && k <= |order| && forall i :: k <= i < |order| ==> order[i] != typ
    ensures Part(order, k, lists, max, window, typ) == []
    decreases |order| - k
  {
    hide *;
    PartStep(order, k, lists, max, window, typ);
    if k < |order| {
      var sel := Best(ListOf(lists, order[k]), Before, Min(window, max));
      PartAbsent(order, k + 1, lists, max - |sel|, window, typ);
    }
  }

  /** Of each type a block holds its best candidates, at most a window of them. */
  lemma {:induction false} PartBest(
      order: seq<string>, k: nat, lists: Lists<Payload>, max: int, window: int, typ: string) returns (n: int)
    requires DistinctTypes(order) && k <= |order| && Typed(lists) && window > 0
    ensures 0 <= n <= window && n <= |ListOf(lists, typ)|
    ensures Part(order, k, lists, max, window, typ) == Best(ListOf(lists, typ), Before, n)
    decreases |order| - k
  {
    hide Part;
    hide Typed;
    hide ListOf;
    hide Best;
    PartStep(order, k, lists, max, window, typ);
    BestTrim(ListOf(lists, typ), Before, Min(window, max));
    n := 0;
    if k < |order| {
      var sel := Best(ListOf(lists, order[k]), Before, Min(window, max));
      if order[k] == typ {
        n := |sel|;
        PartAbsent(order, k + 1, lists, max - |sel|, window, typ);
      } else {
        n := PartBest(order, k + 1, lists, max - |sel|, window, typ);
      }
    }
  }

  /** In time, and worth at least the minimum bid or fee where its type has one. */
  ghost predicate Eligible(typ: string, p: Payload, pol: Policy, late: Payload -> bool) {
    && !late(p)
    && (typ == "auction_bid_v1" ==> pol.minBid <= p.key)
    && (typ == "plaintext_v1" ==> pol.minFee <= p.key)
  }

  /** The candidates of a type are the eligible payloads of its pool, each as often as the
      pool lists it. */
  lemma CandidatesExact(pools: Lists<Payload>, typ: string, pol: Policy, late: Payload -> bool, p: Payload)
    ensures multiset(ListOf(Candidates(pools, pol, late), typ))[p]
         == if Eligible(typ, p, pol, late) then multiset(ListOf(pools, typ))[p] else 0
  {
    CandidatesOf(pools, typ, pol, late);
    FilterMultiset(ListOf(pools, typ), Admits(typ, pol, late), p);
  }

  /** Of a type at or ahead of typ in the policy's order. */
  function AtOrAhead(order: seq<string>, typ: string): Payload -> bool {
    (p: Payload) => Rank(order, p.typ) <= Rank(order, typ)
  }

  lemma SegmentAhead(order: seq<string>, k: nat, sel: seq<Payload>, typ: string)
    requires DistinctTypes(order) && k < |order| && typ in order && Segment(order[k], sel)
    ensures Filter(sel, AtOrAhead(order, typ)) == if k <= Rank(order, typ) then sel else []
  {
    RankDistinct(order, k);
    if k <= Rank(order, typ) {
      FilterAll(sel, AtOrAhead(order, typ));
    } else {
      FilterNone(sel, AtOrAhead(order, typ));
    }
  }

  lemma BehindFilter(order: seq<string>, k: nat, rest: seq<Payload>, typ: string)
    requires k > Rank(order, typ) && Shaped(order, k, rest)
    ensures Filter(rest, AtOrAhead(order, typ)) == []
  {
    FilterNone(rest, AtOrAhead(order, typ));
  }

  /** Where max - |sel| is left over, the rest of the order fills it. */
  lemma AheadStep(order: seq<string>, k: nat, lists: Lists<Payload>, max: int, window: int, typ: string)
    requires DistinctTypes(order) && k < |order| && typ in order && Typed(lists)
    ensures var sel := Best(ListOf(lists, order[k]), Before, Min(window, max));
            Filter(PerType(order[k..], lists, Before, max, window), AtOrAhead(order, typ))
              == (if k <= Rank(order, typ) then sel else [])
                 + Filter(PerType(order[k + 1..], lists, Before, max - |sel|, window), AtOrAhead(order, typ))
  {
    hide Filter;
    hide AtOrAhead;
    hide Before;
    hide PerType;
    hide ListOf;
    hide Best;
    hide Typed;
    hide Segment;
    hide Rank;
    hide DistinctTypes;
    PerTypeStep(order, k, lists, Before, max, window);
    var sel := Best(ListOf(lists, order[k]), Before, Min(window, max));
    ListSegment(order[k], lists, Min(window, max));
    SegmentAhead(order, k, sel, typ);
    FilterAppend(sel, PerType(order[k + 1..], lists, Before, max - |sel|, window), AtOrAhead(order, typ));
  }

  /** A type is cut short only by its window or because the types up to it fill the block. */
  lemma {:induction false} PartFull(order: seq<string>, k: nat, lists: Lists<Payload>, max: nat, window: int, typ: string)
    requires DistinctTypes(order) && typ in order && k <= Rank(order, typ) && Typed(lists) && window > 0
    ensures var n := |Part(order, k, lists, max, window, typ)|;
            n < |ListOf(lists, typ)| ==>
              n == window || |Filter(PerType(order[k..], lists, Before, max, window), AtOrAhead(order, typ))| == max
    decreases |order| - k
  {
    hide Part;
    hide PerType;
    hide ListOf;
    hide Best;
    hide Typed;
    hide Filter;
    hide Shaped;
    hide Rank;
    hide DistinctTypes;
    RankDistinct(order, k);
    RankDistinct(order, Rank(order, typ));
    PartStep(order, k, lists, max, window, typ);
    AheadStep(order, k, lists, max, window, typ);
    var sel := Best(ListOf(lists, order[k]), Before, Min(window, max));
    var left := max - |sel|;
    if k < Rank(order, typ) {
      PartFull(order, k + 1, lists, left, window, typ);
    } else {
      RankLast(order, k, typ);
      PartAbsent(order, k + 1, lists, left, window, typ);
      PerTypeShaped(order, k + 1, lists, left, window);
      BehindFilter(order, k + 1, PerType(order[k + 1..], lists, Before, left, window), typ);
    }
  }

  lemma RankLast(order: seq<string>, k: nat, typ: string)
    requires Rank(order, typ) <= k
    ensures forall i :: k + 1 <= i < |order| ==> order[i] != typ
  {
  }

  lemma CapExact(pol: Policy)
    ensures Cap(pol.maxN) == if 0 < pol.maxN then pol.maxN else 1024
    ensures var w := WindowOf(pol.window, Cap(pol.maxN));
            0 < w <= Cap(pol.maxN) && (0 < pol.window ==> w <= pol.window) && (w < Cap(pol.maxN) ==> w == pol.window)
  {
  }

  /** What a block holds of a type, in terms of the pools and the policy alone. */
  ghost predicate TakesBest(
      typ: string, taken: seq<Payload>, rest: seq<Payload>, pools: Lists<Payload>, pol: Policy, late: Payload -> bool) {
    && (0 < pol.window ==> |taken| <= pol.window)
    && (forall x :: multiset(taken)[x] + multiset(rest)[x] == if Eligible(typ, x, pol, late) then multiset(ListOf(pools, typ))[x] else 0)
    && (forall x, y :: x in taken && y in rest ==> !Outranks(y, x))
    && (forall i, j :: 0 <= i < j < |taken| ==> !Outranks(taken[j], taken[i]))
  }

  lemma BestTakes(pools: Lists<Payload>, pol: Policy, late: Payload -> bool, typ: string, n: int) returns (rest: seq<Payload>)
    requires 0 <= n <= |ListOf(Candidates(pools, pol, late), typ)| && (0 < pol.window ==> n <= pol.window)
    ensures |rest| == |ListOf(Candidates(pools, pol, late), typ)| - n
    ensures TakesBest(typ, Best(ListOf(Candidates(pools, pol, late), typ), Before, n), rest, pools, pol, late)
  {
    hide Candidates;
    hide Eligible;
    hide Before;
    hide Outranks;
    hide ListOf;
    hide Best;
    var list := ListOf(Candidates(pools, pol, late), typ);
    rest := BestRest(list, n);
    var taken := Best(list, Before, n);
    SplitSize(taken, rest, list);
    forall x
      ensures multiset(taken)[x] + multiset(rest)[x] == if Eligible(typ, x, pol, late) then multiset(ListOf(pools, typ))[x] else 0
    {
      CandidatesExact(pools, typ, pol, late, x);
      assert (multiset(taken) + multiset(rest))[x] == multiset(list)[x];
    }
    OutranksIsBefore(taken, rest);
  }

  lemma SplitSize(taken: seq<Payload>, rest: seq<Payload>, list: seq<Payload>)
    requires multiset(taken) + multiset(rest) == multiset(list)
    ensures |taken| + |rest| == |list|
  {
    assert |multiset(taken) + multiset(rest)| == |multiset(list)|;
    assert |multiset(taken)| == |taken| && |multiset(rest)| == |rest|;
  }

  lemma OutranksIsBefore(taken: seq<Payload>, rest: seq<Payload>)
    requires Sorted(taken, Before) && forall x, y :: x in taken && y in rest ==> !Before(y, x)
    ensures forall x, y :: x in taken && y in rest ==> !Outranks(y, x)
    ensures forall i, j :: 0 <= i < j < |taken| ==> !Outranks(taken[j], taken[i])
  {
    hide Before;
    hide Outranks;
    forall x, y | x in taken && y in rest
      ensures !Outranks(y, x)
    {
      BeforeExact(y, x);
    }
    forall i, j | 0 <= i < j < |taken|
      ensures !Outranks(taken[j], taken[i])
    {
      BeforeExact(taken[j], taken[i]);
    }
  }

  /** Of each listed type a block holds the best of the eligible payloads, at most window of
      them; the block holds at most maxN items, or 1024 when maxN is not positive; and a
      payload is left out only if its type has window many or the types up to it fill the
      block. */
  lemma PreparedBest(pools: Lists<Payload>, pol: Policy, late: Payload -> bool, typ: string) returns (rest: seq<Payload>)
    requires DistinctTypes(pol.order) && Typed(pools)
    ensures var block := Prepared(pools, pol, late);
            var taken := Filter(block, OfKind(typ));
            var limit := if 0 < pol.maxN then pol.maxN else 1024;
            && |block| <= limit
            && TakesBest(typ, taken, rest, pools, pol, late)
            && (typ !in pol.order ==> taken == [])
            && (typ in pol.order && rest != [] ==>
                  (0 < pol.window && |taken| == pol.window) || |Filter(block, AtOrAhead(pol.order, typ))| == limit)
  {
    CandidatesTyped(pools, pol, late);
    CapExact(pol);
    hide Candidates;
    hide Typed;
    hide TakesBest;
    hide Cap;
    hide WindowOf;
    hide Filter;
    hide ListOf;
    hide Rank;
    hide StableSort;
    hide PerType;
    hide DistinctTypes;
    var max := Cap(pol.maxN);
    var window := WindowOf(pol.window, max);
    var cands := Candidates(pools, pol, late);
    assert pol.order[0..] == pol.order;
    var n := PartBest(pol.order, 0, cands, max, window, typ);
    rest := BestTakes(pools, pol, late, typ, n);
    assert |Best(ListOf(cands, typ), Before, n)| == n;
    if typ in pol.order {
      assert Rank(pol.order, typ) >= 0;
      PartFull(pol.order, 0, cands, max, window, typ);
      AheadAtMost(Prepared(pools, pol, late), pol.order, typ);
    } else {
      PartAbsent(pol.order, 0, cands, max, window, typ);
    }
  }

  lemma AheadAtMost(block: seq<Payload>, order: seq<string>, typ: string)
    ensures |Filter(block, OfKind(typ))| <= |Filter(block, AtOrAhead(order, typ))| <= |block|
  {
    if block != [] {
      AheadAtMost(block[1..], order, typ);
    }
  }

  // ----- independence from the order of candidates

  /** Distinct candidates differ in sort key or hash. */
  ghost predicate Distinguishable(s: seq<Payload>) {
    forall x, y :: x in s && y in s && x != y ==> x.key != y.key || x.hash != y.hash
  }

  lemma DistinguishableSeparates(s: seq<Payload>)
    requires Distinguishable(s)
    ensures Separates(Before, s)
  {
    BeforeOrders(s);
    forall x, y | x in s && y in s && x != y
      ensures Before(x, y) || Before(y, x)
    {
      if x.key == y.key {
        HashLessTotal(x.hash, y.hash);
      }
    }
  }

  /** Permuting what the pools list does not change the block. */
  lemma PreparedIndependent(a: Lists<Payload>, b: Lists<Payload>, pol: Policy, late: Payload -> bool)
    requires forall typ :: typ in pol.order ==> multiset(ListOf(a, typ)) == multiset(ListOf(b, typ)) && Distinguishable(ListOf(a, typ))
    ensures Prepared(a, pol, late) == Prepared(b, pol, late)
  {
    var ca, cb := Candidates(a, pol, late), Candidates(b, pol, late);
    forall i | 0 <= i < |pol.order|
      ensures multiset(ListOf(ca, pol.order[i])) == multiset(ListOf(cb, pol.order[i]))
      ensures Separates(Before, ListOf(ca, pol.order[i]))
    {
      var typ := pol.order[i];
      CandidatesOf(a, typ, pol, late);
      CandidatesOf(b, typ, pol, late);
      FilterPermute(ListOf(a, typ), ListOf(b, typ), Admits(typ, pol, late));
      FilterDistinguishable(ListOf(a, typ), Admits(typ, pol, late));
      DistinguishableSeparates(ListOf(ca, typ));
    }
    var max := Cap(pol.maxN);
    PerTypePermute(pol.order, ca, cb, Before, max, WindowOf(pol.window, max));
  }

  lemma FilterDistinguishable(s: seq<Payload>, p: Payload -> bool)
    requires Distinguishable(s)
    ensures Distinguishable(Filter(s, p))
  {
  }
}
