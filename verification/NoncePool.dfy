/** The nonce-ordered mempools of internal/payload/plaintext_v1/pool.go and
    internal/payload/auction_bid_v1/pool.go, seen from one sender. */
module SenderQueue {
  import opened Outcomes
  import opened Sorting

  /** value is the fee of a plaintext transaction and the bid of an auction bid. */
  datatype Tx = Tx(from: string, nonce: nat, gas: nat, value: nat, recipient: string, sig: seq<int>)

  datatype Kind = Plaintext | AuctionBid

  predicate ValidTx(kind: Kind, tx: Tx) {
    match kind
    case Plaintext => tx.from != "" && tx.gas != 0 && |tx.sig| >= 32
    case AuctionBid => tx.from != "" && tx.recipient != "" && tx.gas != 0 && tx.value != 0 && |tx.sig| >= 32
  }

  datatype AddError = Invalid | OldNonce | DuplicateFuture

  /** What the pool holds for one sender. */
  datatype Sender = Sender(expected: nat, pending: seq<Tx>, future: map<nat, Tx>)

  const NOBODY := Sender(0, [], map[])

  /** Moving queued transactions that have become ready. */
  function Promote(s: Sender): Sender
    decreases |s.future|
  {
    if s.expected in s.future then
      assert |s.future - {s.expected}| < |s.future| by {
        assert s.future.Keys == (s.future - {s.expected}).Keys + {s.expected};
      }
      Promote(Sender(s.expected + 1, s.pending + [s.future[s.expected]], s.future - {s.expected}))
    else s
  }

  function Insert(s: Sender, tx: Tx): (Sender, Result<bool, AddError>) {
    if tx.nonce < s.expected then (s, Err(OldNonce))
    else if tx.nonce == s.expected then
      (Promote(Sender(s.expected + 1, s.pending + [tx], s.future)), Ok(true))
    else if tx.nonce in s.future then (s, Err(DuplicateFuture))
    else (s.(future := s.future[tx.nonce := tx]), Ok(false))
  }

  // ----- the canonical arrangement

  /** The one arrangement of a set of transactions: the pending ones are those with
      nonces 0, 1, .. up to the first gap, in order, and the rest wait. */
  ghost predicate Arranged(held: map<nat, Tx>, s: Sender) {
    && |s.pending| == s.expected
    && s.expected !in held
    && (forall n :: 0 <= n < s.expected ==> n in held && s.pending[n] == held[n])
    && (forall n :: n in held && n >= s.expected ==> n in s.future && s.future[n] == held[n])
    && (forall n :: n in s.future ==> n in held && n > s.expected)
  }

  lemma ArrangedUnique(held: map<nat, Tx>, a: Sender, b: Sender)
    requires Arranged(held, a) && Arranged(held, b)
    ensures a == b
  {
    assert a.expected == b.expected;
    assert a.pending == b.pending;
    assert forall n :: n in a.future <==> n in b.future;
    assert a.future == b.future;
  }

  /** Arranged, except that the head of the queue may be ready. */
  ghost predicate AlmostArranged(held: map<nat, Tx>, s: Sender) {
    && |s.pending| == s.expected
    && (forall n :: 0 <= n < s.expected ==> n in held && s.pending[n] == held[n])
    && (forall n :: n in held && n >= s.expected ==> n in s.future && s.future[n] == held[n])
    && (forall n :: n in s.future ==> n in held && n >= s.expected)
  }

  lemma PromoteArranges(held: map<nat, Tx>, s: Sender)
    requires AlmostArranged(held, s)
    ensures Arranged(held, Promote(s))
    decreases |s.future|
  {
    if s.expected in s.future {
      var s' := Sender(s.expected + 1, s.pending + [s.future[s.expected]], s.future - {s.expected});
      assert |s'.future| < |s.future| by {
        assert s.future.Keys == s'.future.Keys + {s.expected};
      }
      PromoteArranges(held, s');
    }
  }

  function Hold(held: map<nat, Tx>, tx: Tx): map<nat, Tx> {
    if tx.nonce in held then held else held[tx.nonce := tx]
  }

  /** One arrival: accepted exactly when its nonce is new, and then added to what is
      held; whatever its nonce, the arrangement stays canonical. */
  lemma InsertArranges(held: map<nat, Tx>, s: Sender, tx: Tx)
    requires Arranged(held, s)
    ensures Arranged(Hold(held, tx), Insert(s, tx).0)
    ensures Insert(s, tx).1.Ok? <==> tx.nonce !in held
    ensures tx.nonce in held ==> Insert(s, tx).0 == s
  {
    if tx.nonce == s.expected {
      PromoteArranges(Hold(held, tx), Sender(s.expected + 1, s.pending + [tx], s.future));
    }
  }

  // ----- sequences of arrivals

  /** The sender's queue after a sequence of arrivals at a pool. */
  function After(kind: Kind, txs: seq<Tx>, from: string): Sender {
    if txs == [] then NOBODY
    else
      var s, tx := After(kind, txs[..|txs| - 1], from), txs[|txs| - 1];
      if tx.from == from && ValidTx(kind, tx) then Insert(s, tx).0 else s
  }

  lemma AfterSnoc(kind: Kind, txs: seq<Tx>, tx: Tx, from: string)
    ensures var s := After(kind, txs, from);
            After(kind, txs + [tx], from) == if tx.from == from && ValidTx(kind, tx) then Insert(s, tx).0 else s
  {
    assert (txs + [tx])[..|txs|] == txs;
  }

  /** The first valid arrival of each of the sender's nonces. */
  ghost function FirstArrivals(kind: Kind, txs: seq<Tx>, from: string): map<nat, Tx> {
    if txs == [] then map[]
    else
      var held, tx := FirstArrivals(kind, txs[..|txs| - 1], from), txs[|txs| - 1];
      if tx.from == from && ValidTx(kind, tx) then Hold(held, tx) else held
  }

  /** After any sequence of arrivals, in any order and with any repetitions, a sender's
      queue is the canonical arrangement of the first arrivals of its nonces. */
  lemma {:induction false} AfterArranged(kind: Kind, txs: seq<Tx>, from: string)
    ensures Arranged(FirstArrivals(kind, txs, from), After(kind, txs, from))
  {
    if txs != [] {
      var n := |txs| - 1;
      AfterArranged(kind, txs[..n], from);
      InsertArranges(FirstArrivals(kind, txs[..n], from), After(kind, txs[..n], from), txs[n]);
    }
  }

  ghost predicate DistinctNonces(txs: seq<Tx>) {
    forall i, j :: 0 <= i < j < |txs| ==> !(txs[i].from == txs[j].from && txs[i].nonce == txs[j].nonce)
  }

  /** With distinct nonces the first arrivals are just the valid arrivals. */
  lemma {:induction false} FirstArrivalsExact(kind: Kind, txs: seq<Tx>, from: string)
    requires DistinctNonces(txs)
    ensures Exactly(kind, txs, from, FirstArrivals(kind, txs, from))
  {
    if txs != [] {
      var n := |txs| - 1;
      assert DistinctNonces(txs[..n]);
      FirstArrivalsExact(kind, txs[..n], from);
      var before := FirstArrivals(kind, txs[..n], from);
      hide FirstArrivals;
      ExactlySnoc(kind, txs[..n], from, before, txs[n]);
      assert txs == txs[..n] + [txs[n]];
      FirstArrivalsSnoc(kind, txs[..n], from, txs[n]);
    }
  }

  lemma FirstArrivalsSnoc(kind: Kind, txs: seq<Tx>, from: string, tx: Tx)
    ensures var held := FirstArrivals(kind, txs, from);
            FirstArrivals(kind, txs + [tx], from) == if tx.from == from && ValidTx(kind, tx) then Hold(held, tx) else held
  {
    assert (txs + [tx])[..|txs|] == txs;
  }

  lemma ExactlySnoc(kind: Kind, txs: seq<Tx>, from: string, held: map<nat, Tx>, tx: Tx)
    requires Exactly(kind, txs, from, held) && DistinctNonces(txs + [tx])
    ensures Exactly(kind, txs + [tx], from, if tx.from == from && ValidTx(kind, tx) then Hold(held, tx) else held)
  {
    hide ValidTx;
    var all := txs + [tx];
    assert all[|txs|] == tx;
    forall i | 0 <= i < |txs|
      ensures !(txs[i].from == tx.from && txs[i].nonce == tx.nonce)
    {
      assert all[i] == txs[i];
    }
    assert tx.from == from ==> tx.nonce !in held;
    assert tx in all && forall x :: x in txs ==> x in all;
    assert forall i :: 0 <= i < |all| ==> all[i] == if i < |txs| then txs[i] else tx;
  }

  lemma FirstArrivalsPermute(kind: Kind, a: seq<Tx>, b: seq<Tx>, from: string)
    requires multiset(a) == multiset(b) && DistinctNonces(a) && DistinctNonces(b)
    ensures FirstArrivals(kind, a, from) == FirstArrivals(kind, b, from)
  {
    FirstArrivalsExact(kind, a, from);
    FirstArrivalsExact(kind, b, from);
    SameElements(a, b);
    var ha, hb := FirstArrivals(kind, a, from), FirstArrivals(kind, b, from);
    hide FirstArrivals;
    SubMap(kind, a, b, ha, hb, from);
    SubMap(kind, b, a, hb, ha, from);
    assert ha.Keys == hb.Keys;
  }

  /** held is what the valid arrivals of the sender in txs make it. */
  ghost predicate Exactly(kind: Kind, txs: seq<Tx>, from: string, held: map<nat, Tx>) {
    && (forall n :: n in held ==> held[n] in txs && held[n].from == from && held[n].nonce == n && ValidTx(kind, held[n]))
    && (forall i :: 0 <= i < |txs| && txs[i].from == from && ValidTx(kind, txs[i]) ==>
          txs[i].nonce in held && held[txs[i].nonce] == txs[i])
  }

  lemma SubMap(kind: Kind, a: seq<Tx>, b: seq<Tx>, ha: map<nat, Tx>, hb: map<nat, Tx>, from: string)
    requires Exactly(kind, a, from, ha) && Exactly(kind, b, from, hb) && forall x :: x in a ==> x in b
    ensures forall n :: n in ha ==> n in hb && hb[n] == ha[n]
  {
    forall n | n in ha
      ensures n in hb && hb[n] == ha[n]
    {
      Held(kind, b, from, hb, ha[n]);
    }
  }

  lemma Held(kind: Kind, txs: seq<Tx>, from: string, held: map<nat, Tx>, tx: Tx)
    requires Exactly(kind, txs, from, held) && tx in txs && tx.from == from && ValidTx(kind, tx)
    ensures tx.nonce in held && held[tx.nonce] == tx
  {
    var i :| 0 <= i < |txs| && txs[i] == tx;
  }

  lemma {:induction false} DistinctPermuted(a: seq<Tx>, b: seq<Tx>)
    requires multiset(a) == multiset(b) && DistinctNonces(a)
    ensures DistinctNonces(b)
  {
    forall i, j | 0 <= i < j < |b|
      ensures !(b[i].from == b[j].from && b[i].nonce == b[j].nonce)
    {
      if b[i].from == b[j].from && b[i].nonce == b[j].nonce {
        SameElements(a, b);
        SameNonceSameTx(a, b[i], b[j]);
        OnceEach(a, b[i]);
        TwiceEach(b, i, j);
      }
    }
  }

  lemma SameNonceSameTx(a: seq<Tx>, x: Tx, y: Tx)
    requires DistinctNonces(a) && x in a && y in a && x.from == y.from && x.nonce == y.nonce
    ensures x == y
  {
  }

  lemma {:induction false} OnceEach(a: seq<Tx>, x: Tx)
    requires DistinctNonces(a)
    ensures multiset(a)[x] <= 1
  {
    if a != [] {
      var n := |a| - 1;
      OnceEach(a[..n], x);
      assert a == a[..n] + [a[n]];
      if x == a[n] {
        assert x !in a[..n];
      }
    }
  }

  lemma TwiceEach(b: seq<Tx>, i: nat, j: nat)
    requires i < j < |b| && b[i] == b[j]
    ensures multiset(b)[b[i]] >= 2
  {
    assert b == b[..j] + [b[j]] + b[j + 1..];
    assert b[..j][i] == b[i];
    assert b[i] in multiset(b[..j]);
  }

  /** Confluence: transactions with distinct (sender, nonce) leave the same state in
      whatever order they arrive. */
  lemma Confluence(kind: Kind, a: seq<Tx>, b: seq<Tx>, from: string)
    requires multiset(a) == multiset(b) && DistinctNonces(a)
    ensures After(kind, a, from) == After(kind, b, from)
  {
    DistinctPermuted(a, b);
    FirstArrivalsPermute(kind, a, b, from);
    AfterArranged(kind, a, from);
    AfterArranged(kind, b, from);
    ArrangedUnique(FirstArrivals(kind, a, from), After(kind, a, from), After(kind, b, from));
  }

  /** Nothing is lost or duplicated: with distinct nonces, the valid arrivals of a sender
      are exactly its pending and queued transactions, each in one place. */
  lemma NothingLost(kind: Kind, txs: seq<Tx>, from: string, tx: Tx)
    requires DistinctNonces(txs)
    ensures var s := After(kind, txs, from);
            && (tx in txs && tx.from == from && ValidTx(kind, tx) <==>
                  (tx.nonce < |s.pending| && s.pending[tx.nonce] == tx) || (tx.nonce in s.future && s.future[tx.nonce] == tx))
            && !(tx in s.pending && tx.nonce in s.future)
  {
    AfterArranged(kind, txs, from);
    FirstArrivalsExact(kind, txs, from);
  }

  // ----- any arrivals, repeated nonces included

  /** Signed, with a sender and gas; an auction bid also names a recipient and bids something. */
  ghost predicate Acceptable(kind: Kind, tx: Tx) {
    && tx.from != "" && tx.gas > 0 && |tx.sig| >= 32
    && (kind == AuctionBid ==> tx.recipient != "" && tx.value > 0)
  }

  /** An acceptable transaction of the sender with the nonce has arrived. */
  ghost predicate Arrived(kind: Kind, txs: seq<Tx>, from: string, nonce: nat) {
    exists i :: 0 <= i < |txs| && Acceptable(kind, txs[i]) && txs[i].from == from && txs[i].nonce == nonce
  }

  /** txs[i] is acceptable, and the first of its sender and nonce to be so. */
  ghost predicate FirstAt(kind: Kind, txs: seq<Tx>, i: int) {
    0 <= i < |txs| && Acceptable(kind, txs[i]) && !Arrived(kind, txs[..i], txs[i].from, txs[i].nonce)
  }

  lemma AcceptableExact(kind: Kind, tx: Tx)
    ensures ValidTx(kind, tx) <==> Acceptable(kind, tx)
  {
  }

  lemma ArrivedSnoc(kind: Kind, txs: seq<Tx>, tx: Tx, from: string, nonce: nat)
    ensures Arrived(kind, txs + [tx], from, nonce) <==>
      Arrived(kind, txs, from, nonce) || (Acceptable(kind, tx) && tx.from == from && tx.nonce == nonce)
  {
    hide Acceptable;
    var all := txs + [tx];
    if i :| 0 <= i < |txs| && Acceptable(kind, txs[i]) && txs[i].from == from && txs[i].nonce == nonce {
      assert all[i] == txs[i];
    }
    assert all[|txs|] == tx;
  }

  lemma {:induction false} ArrivalsHeld(kind: Kind, txs: seq<Tx>, from: string, nonce: nat)
    ensures nonce in FirstArrivals(kind, txs, from) <==> Arrived(kind, txs, from, nonce)
  {
    if txs != [] {
      var n := |txs| - 1;
      hide Acceptable;
      hide ValidTx;
      hide Arrived;
      ArrivalsHeld(kind, txs[..n], from, nonce);
      ArrivedSnoc(kind, txs[..n], txs[n], from, nonce);
      AcceptableExact(kind, txs[n]);
      assert txs == txs[..n] + [txs[n]];
    }
  }

  lemma FirstAtBefore(kind: Kind, txs: seq<Tx>, i: int)
    requires 0 <= i < |txs| - 1
    ensures FirstAt(kind, txs, i) <==> FirstAt(kind, txs[..|txs| - 1], i)
  {
    hide Acceptable;
    hide Arrived;
    assert txs[..|txs| - 1][..i] == txs[..i];
  }

  lemma {:induction false} FirstIsHeld(kind: Kind, txs: seq<Tx>, i: nat)
    requires FirstAt(kind, txs, i)
    ensures var held := FirstArrivals(kind, txs, txs[i].from); txs[i].nonce in held && held[txs[i].nonce] == txs[i]
    decreases |txs|
  {
    hide Acceptable;
    hide Arrived;
    hide ValidTx;
    var n := |txs| - 1;
    AcceptableExact(kind, txs[n]);
    if i < n {
      FirstAtBefore(kind, txs, i);
      FirstIsHeld(kind, txs[..n], i);
    } else {
      ArrivalsHeld(kind, txs[..n], txs[n].from, txs[n].nonce);
    }
  }

  lemma {:induction false} HeldIsFirst(kind: Kind, txs: seq<Tx>, from: string, nonce: nat) returns (i: nat)
    requires nonce in FirstArrivals(kind, txs, from)
    ensures i < |txs| && FirstAt(kind, txs, i) && txs[i] == FirstArrivals(kind, txs, from)[nonce] && txs[i].from == from && txs[i].nonce == nonce
  {
    hide Acceptable;
    hide Arrived;
    hide ValidTx;
    var n := |txs| - 1;
    AcceptableExact(kind, txs[n]);
    if nonce in FirstArrivals(kind, txs[..n], from) {
      i := HeldIsFirst(kind, txs[..n], from, nonce);
      FirstAtBefore(kind, txs, i);
    } else {
      i := n;
      ArrivalsHeld(kind, txs[..n], from, nonce);
    }
  }

  /** Ready under its nonce, or waiting under it. */
  ghost predicate Holds(s: Sender, tx: Tx) {
    (tx.nonce < |s.pending| && s.pending[tx.nonce] == tx) || (tx.nonce in s.future && s.future[tx.nonce] == tx)
  }

  /** After any arrivals whatever, a transaction is held if and only if it is the first
      acceptable one of its sender and nonce; it is ready if and only if all its sender's
      smaller nonces have arrived. */
  lemma HeldExactly(kind: Kind, txs: seq<Tx>, from: string, tx: Tx)
    ensures var s := After(kind, txs, from);
            && (Holds(s, tx) <==> exists i :: 0 <= i < |txs| && FirstAt(kind, txs, i) && txs[i] == tx && tx.from == from)
            && (tx.nonce < |s.pending| <==> forall m: nat :: m <= tx.nonce ==> Arrived(kind, txs, from, m))
            && (forall n :: 0 <= n < |s.pending| ==> s.pending[n].nonce == n)
  {
    AfterArranged(kind, txs, from);
    var s, held := After(kind, txs, from), FirstArrivals(kind, txs, from);
    hide After;
    hide FirstArrivals;
    hide FirstAt;
    hide Arrived;
    forall m: nat
      ensures m in held <==> Arrived(kind, txs, from, m)
    {
      ArrivalsHeld(kind, txs, from, m);
    }
    forall n: nat | n in held
      ensures held[n].nonce == n
    {
      var i := HeldIsFirst(kind, txs, from, n);
    }
    if Holds(s, tx) {
      var i := HeldIsFirst(kind, txs, from, tx.nonce);
    }
    forall i | 0 <= i < |txs| && FirstAt(kind, txs, i) && txs[i] == tx && tx.from == from
      ensures Holds(s, tx)
    {
      FirstIsHeld(kind, txs, i);
    }
  }

  /** The answer to an arrival: refused as invalid if it is not acceptable, refused as old or
      duplicate if its nonce has arrived, and otherwise ready at once if and only if all
      smaller nonces have arrived. */
  lemma ReplyExactly(kind: Kind, txs: seq<Tx>, tx: Tx)
    ensures var r := if ValidTx(kind, tx) then Insert(After(kind, txs, tx.from), tx).1 else Err(Invalid);
            && (r == Err(Invalid) <==> !Acceptable(kind, tx))
            && (r.Ok? <==> Acceptable(kind, tx) && !Arrived(kind, txs, tx.from, tx.nonce))
            && (r == Ok(true) <==> r.Ok? && forall m: nat :: m < tx.nonce ==> Arrived(kind, txs, tx.from, m))
  {
    AcceptableExact(kind, tx);
    AfterArranged(kind, txs, tx.from);
    hide After;
    hide FirstArrivals;
    hide Arrived;
    hide ValidTx;
    hide Acceptable;
    forall m: nat
      ensures m in FirstArrivals(kind, txs, tx.from) <==> Arrived(kind, txs, tx.from, m)
    {
      ArrivalsHeld(kind, txs, tx.from, m);
    }
  }
}

/** Serving ready transactions, best value first. */
module ReadyOrder {
  import opened Sorting
  import opened SenderQueue

  predicate ByValue(x: Tx, y: Tx) {
    x.value > y.value
  }

  /** The senders' ready lists, one after the other. */
  function Flatten(order: seq<string>, pend: map<string, seq<Tx>>): seq<Tx>
    requires forall i :: 0 <= i < |order| ==> order[i] in pend
  {
    if order == [] then [] else Flatten(order[..|order| - 1], pend) + pend[order[|order| - 1]]
  }

  function Truncate(s: seq<Tx>, n: int): seq<Tx> {
    if n > 0 && |s| > n then s[..n] else s
  }

  /** An order in which the senders may be visited. */
  ghost predicate Visits(order: seq<string>, pend: map<string, seq<Tx>>) {
    && (forall i :: 0 <= i < |order| ==> order[i] in pend)
    && (forall f :: f in pend ==> f in order)
    && (forall i, j :: 0 <= i < j < |order| ==> order[i] != order[j])
  }

  ghost function Served(order: seq<string>, pend: map<string, seq<Tx>>, n: int): seq<Tx>
    requires Visits(order, pend)
  {
    Truncate(StableSort(Flatten(order, pend), ByValue), n)
  }

  /** What is served is in order of value, and nothing left out is better than it. */
  lemma ServedIsBest(order: seq<string>, pend: map<string, seq<Tx>>, n: int) returns (rest: seq<Tx>)
    requires Visits(order, pend)
    ensures var r := Served(order, pend, n);
            && multiset(r) + multiset(rest) == multiset(Flatten(order, pend))
            && Sorted(r, ByValue)
            && (forall i, j :: 0 <= i < |r| && 0 <= j < |rest| ==> r[i].value >= rest[j].value)
  {
    var all := Flatten(order, pend);
    var t, k := StableSort(all, ByValue), |Served(order, pend, n)|;
    TopOfSort(all, ByValue, k);
    rest := t[k..];
    assert t[..k] == Served(order, pend, n);
    hide StableSort;
    forall i, j | 0 <= i < k && 0 <= j < |rest|
      ensures t[i].value >= rest[j].value
    {
      assert !ByValue(t[k + j], t[i]);
    }
  }

  // ----- does the visiting order matter?

  function HasValue(v: nat): Tx -> bool {
    (x: Tx) => x.value == v
  }

  function Above(v: int): Tx -> bool {
    (x: Tx) => x.value > v
  }

  /** Where the ready transactions worth more than v are. */
  ghost function Better(pend: map<string, seq<Tx>>, v: int): set<(string, int)> {
    set f, i | f in pend && 0 <= i < |pend[f]| && pend[f][i].value > v :: (f, i)
  }

  /** Two senders have ready transactions of value v. */
  ghost predicate TiedAt(pend: map<string, seq<Tx>>, v: nat) {
    exists f, g, i, j ::
      f in pend && g in pend && f != g && 0 <= i < |pend[f]| && 0 <= j < |pend[g]| && pend[f][i].value == v == pend[g][j].value
  }

  /** Some tie is not pushed out by n better transactions. */
  ghost predicate TiedWithin(pend: map<string, seq<Tx>>, n: int) {
    exists v: nat :: TiedAt(pend, v) && (n <= 0 || |Better(pend, v)| < n)
  }

  // ----- counting what is better

  ghost function BetterOf(f: string, s: seq<Tx>, v: int): set<(string, int)> {
    set i | 0 <= i < |s| && s[i].value > v :: (f, i)
  }

  lemma {:induction false} BetterOfSize(f: string, s: seq<Tx>, v: int)
    ensures |BetterOf(f, s, v)| == |Filter(s, Above(v))|
  {
    if s != [] {
      var n := |s| - 1;
      BetterOfSize(f, s[..n], v);
      assert s == s[..n] + [s[n]];
      FilterAppend(s[..n], [s[n]], Above(v));
      var rest := BetterOf(f, s[..n], v);
      assert BetterOf(f, s, v) == rest + if s[n].value > v then {(f, n)} else {};
      assert (f, n) !in rest;
    }
  }

  ghost function BetterIn(order: seq<string>, pend: map<string, seq<Tx>>, v: int): set<(string, int)>
    requires forall i :: 0 <= i < |order| ==> order[i] in pend
  {
    if order == [] then {}
    else
      var n := |order| - 1;
      BetterIn(order[..n], pend, v) + BetterOf(order[n], pend[order[n]], v)
  }

  lemma {:induction false} BetterInExact(order: seq<string>, pend: map<string, seq<Tx>>, v: int, f: string, i: int)
    requires forall k :: 0 <= k < |order| ==> order[k] in pend
    ensures (f, i) in BetterIn(order, pend, v) <==> f in order && 0 <= i < |pend[f]| && pend[f][i].value > v
  {
    if order != [] {
      var n := |order| - 1;
      BetterInExact(order[..n], pend, v, f, i);
      assert order == order[..n] + [order[n]];
    }
  }

  lemma {:induction false} BetterInSize(order: seq<string>, pend: map<string, seq<Tx>>, v: int)
    requires forall i :: 0 <= i < |order| ==> order[i] in pend
    requires forall i, j :: 0 <= i < j < |order| ==> order[i] != order[j]
    ensures |BetterIn(order, pend, v)| == |Filter(Flatten(order, pend), Above(v))|
  {
    if order != [] {
      var n := |order| - 1;
      var f, a, b := order[n], BetterIn(order[..n], pend, v), BetterOf(order[n], pend[order[n]], v);
      BetterInSize(order[..n], pend, v);
      BetterOfSize(f, pend[f], v);
      FilterAppend(Flatten(order[..n], pend), pend[f], Above(v));
      forall x | x in b
        ensures x !in a
      {
        BetterInExact(order[..n], pend, v, x.0, x.1);
        assert x.0 == f && f !in order[..n];
      }
      assert a !! b;
    }
  }

  /** However the senders are visited, the same number of transactions is better. */
  lemma BetterCount(order: seq<string>, pend: map<string, seq<Tx>>, v: int)
    requires Visits(order, pend)
    ensures |Filter(StableSort(Flatten(order, pend), ByValue), Above(v))| == |Better(pend, v)|
  {
    forall x: (string, int)
      ensures x in BetterIn(order, pend, v) <==> x in Better(pend, v)
    {
      BetterInExact(order, pend, v, x.0, x.1);
    }
    assert BetterIn(order, pend, v) == Better(pend, v);
    BetterInSize(order, pend, v);
    FilterPermute(StableSort(Flatten(order, pend), ByValue), Flatten(order, pend), Above(v));
  }

  // ----- where the transactions of one value are

  lemma NoneAbove(a: seq<Tx>, v: int)
    requires forall i :: 0 <= i < |a| ==> a[i].value <= v
    ensures Filter(a, Above(v)) == []
  {
    FilterNone(a, Above(v));
  }

  lemma SortedTail(a: seq<Tx>)
    requires a != [] && Sorted(a, ByValue)
    ensures Sorted(a[1..], ByValue) && forall i :: 0 <= i < |a| ==> a[i].value <= a[0].value
  {
    forall i | 0 < i < |a|
      ensures a[i].value <= a[0].value
    {
      assert !ByValue(a[i], a[0]);
    }
  }

  /** In order of value, the transactions worth v follow those worth more. */
  lemma {:induction false} ClassAt(a: seq<Tx>, v: nat, t: nat)
    requires Sorted(a, ByValue) && t < |Filter(a, HasValue(v))|
    ensures var c := |Filter(a, Above(v))|;
            c + t < |a| && a[c + t] == Filter(a, HasValue(v))[t]
  {
    SortedTail(a);
    if a[0].value > v {
      ClassAt(a[1..], v, t);
    } else {
      NoneAbove(a, v);
      NoneAbove(a[1..], v);
      if a[0].value < v {
        FilterNone(a, HasValue(v));
      } else if t > 0 {
        ClassAt(a[1..], v, t - 1);
      }
    }
  }

  lemma {:induction false} IndexInClass(a: seq<Tx>, k: nat)
    requires Sorted(a, ByValue) && k < |a|
    ensures var c := |Filter(a, Above(a[k].value))|;
            c <= k < c + |Filter(a, HasValue(a[k].value))|
  {
    var v := a[k].value;
    SortedTail(a);
    if k > 0 {
      IndexInClass(a[1..], k - 1);
    }
    if a[0].value == v {
      NoneAbove(a, v);
      NoneAbove(a[1..], v);
    }
  }

  // ----- without a tie in reach the order does not matter

  lemma {:induction false} FlattenNone(order: seq<string>, pend: map<string, seq<Tx>>, v: nat)
    requires forall i :: 0 <= i < |order| ==> order[i] in pend && Filter(pend[order[i]], HasValue(v)) == []
    ensures Filter(Flatten(order, pend), HasValue(v)) == []
  {
    if order != [] {
      var n := |order| - 1;
      FlattenNone(order[..n], pend, v);
      FilterAppend(Flatten(order[..n], pend), pend[order[n]], HasValue(v));
    }
  }

  lemma {:induction false} FlattenSole(order: seq<string>, pend: map<string, seq<Tx>>, v: nat, k: nat)
    requires k < |order| && forall i :: 0 <= i < |order| ==> order[i] in pend
    requires forall i :: 0 <= i < |order| && i != k ==> Filter(pend[order[i]], HasValue(v)) == []
    ensures Filter(Flatten(order, pend), HasValue(v)) == Filter(pend[order[k]], HasValue(v))
  {
    var n := |order| - 1;
    FilterAppend(Flatten(order[..n], pend), pend[order[n]], HasValue(v));
    if k == n {
      FlattenNone(order[..n], pend, v);
    } else {
      FlattenSole(order[..n], pend, v, k);
    }
  }

  lemma UntiedFilter(f: string, g: string, pend: map<string, seq<Tx>>, v: nat)
    requires !TiedAt(pend, v) && f in pend && g in pend && f != g && Filter(pend[f], HasValue(v)) != []
    ensures Filter(pend[g], HasValue(v)) == []
  {
    var x := Filter(pend[f], HasValue(v))[0];
    var i :| 0 <= i < |pend[f]| && pend[f][i] == x;
    forall j | 0 <= j < |pend[g]|
      ensures !HasValue(v)(pend[g][j])
    {
      assert pend[f][i].value == v;
    }
    FilterNone(pend[g], HasValue(v));
  }

  lemma SameFilters(o1: seq<string>, o2: seq<string>, pend: map<string, seq<Tx>>, v: nat)
    requires !TiedAt(pend, v) && Visits(o1, pend) && Visits(o2, pend)
    ensures Filter(Flatten(o1, pend), HasValue(v)) == Filter(Flatten(o2, pend), HasValue(v))
  {
    if k1 :| 0 <= k1 < |o1| && Filter(pend[o1[k1]], HasValue(v)) != [] {
      var f := o1[k1];
      var k2 :| 0 <= k2 < |o2| && o2[k2] == f;
      forall g | g in pend && g != f
        ensures Filter(pend[g], HasValue(v)) == []
      {
        UntiedFilter(f, g, pend, v);
      }
      FlattenSole(o1, pend, v, k1);
      FlattenSole(o2, pend, v, k2);
    } else {
      forall i | 0 <= i < |o2|
        ensures Filter(pend[o2[i]], HasValue(v)) == []
      {
        var k :| 0 <= k < |o1| && o1[k] == o2[i];
      }
      FlattenNone(o1, pend, v);
      FlattenNone(o2, pend, v);
    }
  }

  lemma ValueClass(s: seq<Tx>, v: nat)
    ensures Sorted(StableSort(s, ByValue), ByValue)
    ensures Filter(StableSort(s, ByValue), HasValue(v)) == Filter(s, HasValue(v))
  {
    StableSortSorted(s, ByValue);
    StableSortFilter(s, ByValue, HasValue(v));
  }

  lemma SortedFlat(order: seq<string>, pend: map<string, seq<Tx>>) returns (a: seq<Tx>)
    requires Visits(order, pend)
    ensures a == StableSort(Flatten(order, pend), ByValue) && Sorted(a, ByValue) && |a| == |Better(pend, -1)|
  {
    a := StableSort(Flatten(order, pend), ByValue);
    StableSortSorted(Flatten(order, pend), ByValue);
    BetterCount(order, pend, -1);
    FilterAll(a, Above(-1));
  }

  /** Position by position, an untied value is served alike. */
  lemma SamePosition(o1: seq<string>, o2: seq<string>, pend: map<string, seq<Tx>>, a: seq<Tx>, b: seq<Tx>, k: nat)
    requires Visits(o1, pend) && Visits(o2, pend) && Sorted(a, ByValue) && Sorted(b, ByValue) && k < |a| == |b|
    requires a == StableSort(Flatten(o1, pend), ByValue) && b == StableSort(Flatten(o2, pend), ByValue)
    requires |Better(pend, a[k].value)| <= k ==> !TiedAt(pend, a[k].value)
    ensures a[k] == b[k]
  {
    hide StableSort;
    hide Flatten;
    hide Filter;
    hide Better;
    hide Sorted;
    var v := a[k].value;
    IndexInClass(a, k);
    BetterCount(o1, pend, v);
    BetterCount(o2, pend, v);
    SameFilters(o1, o2, pend, v);
    ValueClass(Flatten(o1, pend), v);
    ValueClass(Flatten(o2, pend), v);
    var t := k - |Better(pend, v)|;
    ClassAt(a, v, t);
    ClassAt(b, v, t);
  }

  /** Without a tie in reach the visiting order does not matter. */
  lemma UntiedServed(o1: seq<string>, o2: seq<string>, pend: map<string, seq<Tx>>, n: int)
    requires !TiedWithin(pend, n) && Visits(o1, pend) && Visits(o2, pend)
    ensures Served(o1, pend, n) == Served(o2, pend, n)
  {
    hide StableSort;
    hide Flatten;
    hide Better;
    hide Sorted;
    hide TiedAt;
    var a := SortedFlat(o1, pend);
    var b := SortedFlat(o2, pend);
    forall k | 0 <= k < |a| && (n <= 0 || k < n)
      ensures a[k] == b[k]
    {
      SamePosition(o1, o2, pend, a, b, k);
    }
    assert Truncate(a, n) == Truncate(b, n);
  }

  // ----- with a tie it does matter

  ghost predicate Owned(pend: map<string, seq<Tx>>) {
    forall f, i :: f in pend && 0 <= i < |pend[f]| ==> pend[f][i].from == f
  }

  /** Any set of senders can be listed. */
  lemma Listing(keys: set<string>) returns (order: seq<string>)
    ensures forall f :: f in order <==> f in keys
    ensures forall i, j :: 0 <= i < j < |order| ==> order[i] != order[j]
  {
    if keys == {} {
      order := [];
    } else {
      var f :| f in keys;
      var rest := Listing(keys - {f});
      order := rest + [f];
    }
  }

  lemma FlattenSnoc(order: seq<string>, f: string, pend: map<string, seq<Tx>>)
    requires f in pend && forall i :: 0 <= i < |order| ==> order[i] in pend
    ensures Flatten(order + [f], pend) == Flatten(order, pend) + pend[f]
  {
    assert (order + [f])[..|order|] == order;
  }

  lemma {:induction false} FlattenHead(f: string, rest: seq<string>, pend: map<string, seq<Tx>>)
    requires f in pend && forall i :: 0 <= i < |rest| ==> rest[i] in pend
    ensures Flatten([f] + rest, pend) == pend[f] + Flatten(rest, pend)
  {
    assert Flatten([], pend) == [];
    hide Flatten;
    if rest == [] {
      FlattenSnoc([], f, pend);
      assert [] + [f] == [f] + rest;
    } else {
      var init, last := rest[..|rest| - 1], rest[|rest| - 1];
      assert rest == init + [last] && [f] + rest == ([f] + init) + [last];
      FlattenHead(f, init, pend);
      FlattenSnoc([f] + init, last, pend);
      FlattenSnoc(init, last, pend);
    }
  }

  lemma TieHead(f: string, rest: seq<string>, pend: map<string, seq<Tx>>, i: nat)
    requires Owned(pend) && Visits([f] + rest, pend) && f in pend && i < |pend[f]|
    ensures var q := Filter(Flatten([f] + rest, pend), HasValue(pend[f][i].value));
            q != [] && q[0].from == f
  {
    var order, v := [f] + rest, pend[f][i].value;
    assert forall j :: 0 <= j < |rest| ==> order[j + 1] == rest[j];
    FlattenHead(f, rest, pend);
    FilterAppend(pend[f], Flatten(rest, pend), HasValue(v));
    FilterHas(pend[f], HasValue(v), i);
    assert Filter(pend[f], HasValue(v))[0] in pend[f];
  }

  /** Right after what is better, the sender visited first is served. */
  lemma FirstOfTie(f: string, rest: seq<string>, pend: map<string, seq<Tx>>, i: nat, n: int)
    requires Owned(pend) && Visits([f] + rest, pend) && f in pend && i < |pend[f]|
    requires n <= 0 || |Better(pend, pend[f][i].value)| < n
    ensures var c, r := |Better(pend, pend[f][i].value)|, Served([f] + rest, pend, n);
            c < |r| && r[c].from == f
  {
    hide StableSort;
    hide Flatten;
    hide Filter;
    hide Better;
    hide Sorted;
    var order, v := [f] + rest, pend[f][i].value;
    var a := SortedFlat(order, pend);
    TieHead(f, rest, pend, i);
    ValueClass(Flatten(order, pend), v);
    BetterCount(order, pend, v);
    ClassAt(a, v, 0);
  }

  lemma FrontOrder(f: string, pend: map<string, seq<Tx>>) returns (rest: seq<string>)
    requires f in pend
    ensures Visits([f] + rest, pend)
  {
    rest := Listing(pend.Keys - {f});
    var order := [f] + rest;
    forall i | 0 <= i < |rest|
      ensures rest[i] in pend && rest[i] != f
    {
      assert rest[i] in rest;
    }
    forall i | 0 <= i < |order|
      ensures order[i] == if i == 0 then f else rest[i - 1]
    {
    }
    forall g | g in pend
      ensures g in order
    {
      if g != f {
        assert g in rest;
      }
    }
    forall i, j | 0 <= i < j < |order|
      ensures order[i] != order[j]
    {
      assert order[j] == rest[j - 1];
    }
  }

  lemma TieMatters(pend: map<string, seq<Tx>>, n: int)
    requires Owned(pend) && TiedWithin(pend, n)
    ensures exists o1, o2 :: Visits(o1, pend) && Visits(o2, pend) && Served(o1, pend, n) != Served(o2, pend, n)
  {
    var v: nat :| TiedAt(pend, v) && (n <= 0 || |Better(pend, v)| < n);
    var f, g, i, j :|
      f in pend && g in pend && f != g && 0 <= i < |pend[f]| && 0 <= j < |pend[g]| && pend[f][i].value == v == pend[g][j].value;
    var r1 := FrontOrder(f, pend);
    var r2 := FrontOrder(g, pend);
    FirstOfTie(f, r1, pend, i, n);
    FirstOfTie(g, r2, pend, j, n);
    assert Served([f] + r1, pend, n) != Served([g] + r2, pend, n);
  }

  /** The pools promise an order that is stable by sender and nonce. For every cap n, what
      they serve depends on the order in which senders are visited if and only if two
      senders are tied at a value that fewer than n ready transactions exceed (any tie,
      when there is no cap). */
  lemma VisitingOrderMatters(pend: map<string, seq<Tx>>, n: int)
    requires Owned(pend)
    ensures TiedWithin(pend, n) <==>
      exists o1, o2 :: Visits(o1, pend) && Visits(o2, pend) && Served(o1, pend, n) != Served(o2, pend, n)
  {
    if TiedWithin(pend, n) {
      TieMatters(pend, n);
    } else {
      forall o1, o2 | Visits(o1, pend) && Visits(o2, pend)
        ensures Served(o1, pend, n) == Served(o2, pend, n)
      {
        UntiedServed(o1, o2, pend, n);
      }
    }
  }
}

/** The pool object. */
module NoncePool {
  import opened Outcomes
  import opened Sorting
  import opened SenderQueue
  import opened ReadyOrder

  class Pool {
    const kind: Kind
    var expected: map<string, nat>
    var pendBySender: map<string, seq<Tx>>
    var future: map<string, map<nat, Tx>>
    /** Everything that was ever offered. */
    ghost var offered: seq<Tx>

    ghost function SenderOf(from: string): Sender
      reads this
    {
      Sender(if from in expected then expected[from] else 0,
             if from in pendBySender then pendBySender[from] else [],
             if from in future then future[from] else map[])
    }

    ghost predicate Valid()
      reads this
    {
      forall from :: SenderOf(from) == After(kind, offered, from)
    }

    constructor (kind: Kind)
      ensures this.kind == kind && offered == [] && Valid()
    {
      this.kind := kind;
      expected, pendBySender, future, offered := map[], map[], map[], [];
    }

    /** Offering a transaction: the whole pool is again what its history says, so by
        confluence the order of the history does not matter. */
    method Add(tx: Tx) returns (r: Result<bool, AddError>)
      requires Valid()
      modifies this
      ensures Valid() && offered == old(offered) + [tx]
      ensures r == if ValidTx(kind, tx) then SenderQueue.Insert(old(SenderOf(tx.from)), tx).1 else Err(Invalid)
    {
      hide After;
      hide SenderQueue.Insert;
      hide ValidTx;
      offered := offered + [tx];
      if ValidTx(kind, tx) {
        r := Enqueue(tx);
      } else {
        r := Err(Invalid);
      }
      forall from: string
        ensures SenderOf(from) == After(kind, offered, from)
      {
        assert old(SenderOf(from)) == After(kind, old(offered), from);
        AfterSnoc(kind, old(offered), tx, from);
      }
    }

    method Enqueue(tx: Tx) returns (r: Result<bool, AddError>)
      modifies this`expected, this`pendBySender, this`future
      ensures SenderOf(tx.from) == SenderQueue.Insert(old(SenderOf(tx.from)), tx).0
      ensures r == SenderQueue.Insert(old(SenderOf(tx.from)), tx).1
      ensures forall from :: from != tx.from ==> SenderOf(from) == old(SenderOf(from))
    {
      var exp := if tx.from in expected then expected[tx.from] else 0;
      if tx.nonce < exp {
        return Err(OldNonce);
      }
      if tx.nonce > exp {
        if tx.from !in future {
          future := future[tx.from := map[]];
        }
        if tx.nonce in future[tx.from] {
          return Err(DuplicateFuture);
        }
        var futs: map<nat, Tx> := future[tx.from][tx.nonce := tx];
        future := future[tx.from := futs];
        return Ok(false);
      }
      var list := if tx.from in pendBySender then pendBySender[tx.from] else [];
      pendBySender := pendBySender[tx.from := list + [tx]];
      expected := expected[tx.from := exp + 1];
      PromoteReady(tx.from);
      r := Ok(true);
    }

    /** The promotion loop. */
    method PromoteReady(from: string)
      requires from in expected && from in pendBySender
      modifies this`expected, this`pendBySender, this`future
      ensures SenderOf(from) == Promote(old(SenderOf(from)))
      ensures forall other :: other != from ==> SenderOf(other) == old(SenderOf(other))
    {
      while from in future && expected[from] in future[from]
        invariant from in expected && from in pendBySender
        invariant Promote(SenderOf(from)) == Promote(old(SenderOf(from)))
        invariant forall other :: other != from ==> SenderOf(other) == old(SenderOf(other))
        decreases if from in future then |future[from]| else 0
      {
        var futs, nx := future[from], expected[from];
        pendBySender := pendBySender[from := pendBySender[from] + [futs[nx]]];
        future := future[from := futs - {nx}];
        expected := expected[from := nx + 1];
        assert futs.Keys == (futs - {nx}).Keys + {nx};
      }
    }

    /** Up to n ready transactions, best value first; order is the order in which the
        senders' lists happen to be visited. */
    method Get(n: int, order: seq<string>) returns (r: seq<Tx>)
      requires Visits(order, pendBySender)
      ensures r == Served(order, pendBySender, n)
      ensures |r| == if 0 < n < |Flatten(order, pendBySender)| then n else |Flatten(order, pendBySender)|
    {
      var buf: seq<Tx> := [];
      for k := 0 to |order|
        invariant buf == Flatten(order[..k], pendBySender)
      {
        assert order[..k + 1][..k] == order[..k];
        buf := buf + pendBySender[order[k]];
      }
      assert order[..|order|] == order;
      buf := StableSort(buf, ByValue);
      if n > 0 && |buf| > n {
        buf := buf[..n];
      }
      r := buf;
    }

    method Len(order: seq<string>) returns (sum: nat)
      requires Visits(order, pendBySender)
      ensures sum == |Flatten(order, pendBySender)|
    {
      sum := 0;
      for k := 0 to |order|
        invariant sum == |Flatten(order[..k], pendBySender)|
      {
        assert order[..k + 1][..k] == order[..k];
        sum := sum + |pendBySender[order[k]]|;
      }
      assert order[..|order|] == order;
    }

    /** A pool's ready lists hold only their sender's transactions, each list the sender's
        nonces from zero on without a gap. */
    lemma PendingOwned()
      requires Valid()
      ensures Owned(pendBySender)
      ensures forall from, i :: from in pendBySender && 0 <= i < |pendBySender[from]| ==> pendBySender[from][i].nonce == i
    {
      forall from, i | from in pendBySender && 0 <= i < |pendBySender[from]|
        ensures pendBySender[from][i].from == from && pendBySender[from][i].nonce == i
      {
        assert SenderOf(from) == After(kind, offered, from);
        AfterArranged(kind, offered, from);
        ArrivalsOwned(kind, offered, from);
      }
    }
  }

  lemma {:induction false} ArrivalsOwned(kind: Kind, txs: seq<Tx>, from: string)
    ensures forall n :: n in FirstArrivals(kind, txs, from) ==>
      FirstArrivals(kind, txs, from)[n].from == from && FirstArrivals(kind, txs, from)[n].nonce == n
  {
    if txs != [] {
      ArrivalsOwned(kind, txs[..|txs| - 1], from);
    }
  }
}
