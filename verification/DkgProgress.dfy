/** Progress of the key generation: a node that receives what honest participants send, in
    any order and however often, computes the result of all their dealings. */
module DkgProgress {
  import opened PrimeField
  import opened Interpolation
  import opened Curve
  import opened Outcomes
  import opened Feldman
  import opened DkgNode
  import opened DkgRuns
  import opened DkgLaws

  /** The polynomials of the dealers. */
  type Dealings = map<int, seq<Scalar>>

  ghost predicate Dealt(c: Config, polys: Dealings) {
    forall d :: 0 < d <= c.n ==> d in polys && |polys[d]| == c.threshold
  }

  function CommitmentsOf(polys: Dealings, epoch: nat, d: int): Msg
    requires d in polys
  {
    Msg(d, epoch, Commitments(Commit(polys[d])))
  }

  function ShareOf(polys: Dealings, epoch: nat, d: int, to: int): Msg
    requires d in polys
  {
    Msg(d, epoch, EncShare(to, Plain(Reduce(PolyAt(polys[d], to)))))
  }

  function AckOf(epoch: nat, j: int, d: int): Msg {
    Msg(j, epoch, Ack(d))
  }

  /** What an honest participant other than the node sends when nothing is lost or garbled. */
  ghost predicate Honest(c: Config, polys: Dealings, epoch: nat, m: Msg) {
    && 0 < m.from <= c.n && m.from != c.index && m.from in polys
    && (|| m == CommitmentsOf(polys, epoch, m.from)
        || (m.body.EncShare? && m == ShareOf(polys, epoch, m.from, m.body.to))
        || (m.body.Ack? && m == AckOf(epoch, m.from, m.body.dealer) && 0 < m.body.dealer <= c.n))
  }

  ghost predicate Faultless(c: Config, polys: Dealings, epoch: nat, e: Event) {
    e.Retry? || (e.Deliver? && Honest(c, polys, epoch, e.msg) && e.sumOk)
  }

  // ----- what a node holds on the way

  /** Nothing is disputed, and what is held is what was dealt. */
  ghost predicate Clean(c: Config, polys: Dealings, epoch: nat, s: Node) {
    && s.epoch == epoch && !s.fin.done && !s.fin.idle
    && s.bad == {} && s.complaints == map[] && s.pendingOpen == map[]
    && (forall d :: d in s.commitments ==> d in polys && s.commitments[d] == Commit(polys[d]))
    && (forall d :: d in s.shares ==> d in polys && s.shares[d] == Reduce(PolyAt(polys[d], c.index)))
    && (forall d :: d in s.pendingShare ==> d in polys && s.pendingShare[d] == ShareOf(polys, epoch, d, c.index))
    && (forall d :: d in s.shares && d != c.index ==> d in s.acks && c.index in s.acks[d])
  }

  /** No share waits for commitments that are in. */
  ghost predicate NoneWaiting(s: Node) {
    forall d :: d in s.pendingShare && d in s.commitments ==> d in s.shares
  }

  /** Nothing received is lost again. */
  ghost predicate Grows(s: Node, s': Node) {
    && s'.fin == s.fin
    && (forall d :: d in s.commitments ==> d in s'.commitments)
    && (forall d :: d in s.shares ==> d in s'.shares)
    && (forall d :: d in s.pendingShare ==> d in s'.pendingShare || d in s'.shares)
    && (forall d, j :: d in s.acks && j in s.acks[d] ==> d in s'.acks && j in s'.acks[d])
  }

  /** The message has left its mark. */
  ghost predicate Holds(c: Config, s: Node, m: Msg) {
    match m.body
    case Commitments(_) => m.from in s.commitments
    case EncShare(to, _) => to == c.index ==> m.from in s.shares || m.from in s.pendingShare
    case Ack(d) => d in s.acks && m.from in s.acks[d]
    case _ => true
  }

  /** Every share taken is acknowledged. */
  ghost predicate Acknowledges(c: Config, s: Node, s': Node, out: set<Msg>) {
    forall d :: d in s'.shares && d !in s.shares ==> AckOf(s.epoch, c.index, d) in out
  }

  lemma HoldsStill(c: Config, s: Node, s': Node, m: Msg)
    requires Holds(c, s, m) && Grows(s, s')
    ensures Holds(c, s', m)
  {
  }

  // ----- one message

  lemma TakeShare(c: Config, polys: Dealings, epoch: nat, s: Node, d: int)
    requires ValidConfig(c) && Clean(c, polys, epoch, s) && d in polys && polys[d] != []
    ensures var (s', out) := OnShare(c, s, ShareOf(polys, epoch, d, c.index));
            && Clean(c, polys, epoch, s') && Grows(s, s') && Acknowledges(c, s, s', out)
            && s'.commitments == s.commitments
            && (if d in s.commitments then d in s'.shares else d in s'.pendingShare)
            && (forall e :: e in s'.pendingShare && e != d ==> e in s.pendingShare)
  {
    FeldmanExact(polys[d], Reduce(PolyAt(polys[d], c.index)), c.index);
    hide FeldmanCheck;
    hide WithoutComplaint;
    NoComplaint(d, c.index);
    assert s.bad == {} && s.complaints == map[] && s.epoch == epoch;
    if d in s.commitments {
      assert s.commitments[d] == Commit(polys[d]);
      if d !in s.shares {
        AcceptedClean(c, polys, epoch, s, d);
        hide Clean;
        assert OnShare(c, s, ShareOf(polys, epoch, d, c.index)).0 == Accepted(c, polys, s, d);
      }
    }
  }

  lemma NoComplaint(d: int, who: int)
    ensures WithoutComplaint(map[], d, who) == map[]
  {
  }

  /** The state once the share of d is taken. */
  function Accepted(c: Config, polys: Dealings, s: Node, d: int): Node
    requires d in polys
  {
    s.(pendingShare := s.pendingShare - {d}, shares := s.shares[d := Reduce(PolyAt(polys[d], c.index))],
       acks := s.acks[d := Bucket(s.acks, d) + {c.index}])
  }

  lemma AcceptedClean(c: Config, polys: Dealings, epoch: nat, s: Node, d: int)
    requires Clean(c, polys, epoch, s) && d in polys
    ensures Clean(c, polys, epoch, Accepted(c, polys, s, d)) && Grows(s, Accepted(c, polys, s, d))
  {
  }

  lemma HandleShare(c: Config, polys: Dealings, epoch: nat, s: Node, d: int)
    requires ValidConfig(c) && Clean(c, polys, epoch, s) && NoneWaiting(s) && d in polys && polys[d] != []
    ensures var (s', out) := OnShare(c, s, ShareOf(polys, epoch, d, c.index));
            && Clean(c, polys, epoch, s') && Grows(s, s') && Acknowledges(c, s, s', out) && NoneWaiting(s')
            && (d in s'.shares || d in s'.pendingShare)
  {
    hide OnShare;
    hide Clean;
    TakeShare(c, polys, epoch, s, d);
  }

  lemma TakeCommitments(c: Config, polys: Dealings, epoch: nat, s: Node, d: int)
    requires ValidConfig(c) && Clean(c, polys, epoch, s) && d in polys && |polys[d]| == c.threshold
    ensures var s' := OnCommitments(c, s, d, Commit(polys[d]));
            && Clean(c, polys, epoch, s') && Grows(s, s') && s'.shares == s.shares && s'.pendingShare == s.pendingShare
            && d in s'.commitments && (forall e :: e in s'.commitments ==> e == d || e in s.commitments)
  {
  }

  lemma HandleCommitments(c: Config, polys: Dealings, epoch: nat, s: Node, d: int)
    requires ValidConfig(c) && Clean(c, polys, epoch, s) && NoneWaiting(s) && d in polys && |polys[d]| == c.threshold
    requires PendingKinds(c, s)
    ensures var (s', out) := Handle(c, s, CommitmentsOf(polys, epoch, d));
            && Clean(c, polys, epoch, s') && Grows(s, s') && Acknowledges(c, s, s', out) && NoneWaiting(s') && d in s'.commitments
  {
    hide OnShare;
    hide OnCommitments;
    hide MissingShares;
    hide PendingKinds;
    TakeCommitments(c, polys, epoch, s, d);
    var s1 := OnCommitments(c, s, d, Commit(polys[d]));
    if d in s1.pendingShare {
      TakeShare(c, polys, epoch, s1, d);
    }
  }

  lemma HandleAck(c: Config, polys: Dealings, epoch: nat, s: Node, j: int, d: int)
    requires Clean(c, polys, epoch, s) && NoneWaiting(s) && 0 < d <= c.n
    ensures var s' := OnAck(c, s, j, d);
            && Clean(c, polys, epoch, s') && Grows(s, s') && NoneWaiting(s') && d in s'.acks && j in s'.acks[d]
            && s'.shares == s.shares
  {
  }

  lemma HandleHonest(c: Config, polys: Dealings, epoch: nat, s: Node, m: Msg)
    requires ValidConfig(c) && Dealt(c, polys) && Clean(c, polys, epoch, s) && NoneWaiting(s) && Honest(c, polys, epoch, m)
    requires PendingKinds(c, s) && s.epoch == m.epoch
    ensures var (s', out) := Handle(c, s, m);
            && Clean(c, polys, epoch, s') && Grows(s, s') && Acknowledges(c, s, s', out) && NoneWaiting(s') && Holds(c, s', m)
  {
    hide PendingKinds;
    if m.body.Commitments? {
      HandleCommitments(c, polys, epoch, s, m.from);
      hide *;
    } else if m.body.Ack? {
      HandleAck(c, polys, epoch, s, m.from, m.body.dealer);
      hide Clean;
      hide OnAck;
    } else if m.body.to == c.index {
      HandleShare(c, polys, epoch, s, m.from);
      hide Clean;
      hide OnShare;
    }
  }

  // ----- the result

  /** The sum of the dealt secrets. */
  function SecretTotal(polys: Dealings, n: int): int
    requires forall d :: 0 < d <= n ==> d in polys && polys[d] != []
  {
    if n <= 0 then 0 else SecretTotal(polys, n - 1) + polys[n][0]
  }

  /** The sum of the shares dealt to participant i. */
  function ShareTotal(polys: Dealings, n: int, i: int): int
    requires forall d :: 0 < d <= n ==> d in polys
  {
    if n <= 0 then 0 else ShareTotal(polys, n - 1, i) + Reduce(PolyAt(polys[n], i))
  }

  lemma {:induction false} AllQualify(n: int)
    ensures QualSize(n, {}) == if n <= 0 then 0 else n
  {
    if n > 0 {
      AllQualify(n - 1);
    }
  }

  lemma {:induction false} KeySumIsTotal(n: int, polys: Dealings, coms: map<int, seq<Compressed>>)
    requires forall d :: 0 < d <= n ==> d in polys && polys[d] != [] && d in coms && coms[d] == Commit(polys[d])
    ensures KeysReadable(n, {}, coms) && KeySum(n, {}, coms) == SecretTotal(polys, n)
  {
    if n > 0 {
      KeySumIsTotal(n - 1, polys, coms);
    }
  }

  lemma {:induction false} ShareSumIsTotal(n: int, i: int, polys: Dealings, shares: map<int, Scalar>)
    requires forall d :: 0 < d <= n ==> d in polys && d in shares && shares[d] == Reduce(PolyAt(polys[d], i))
    ensures SharesPresent(n, {}, shares) && ShareSum(n, {}, shares) == ShareTotal(polys, n, i)
  {
    if n > 0 {
      ShareSumIsTotal(n - 1, i, polys, shares);
    }
  }

  /** One result is in flight: that of all the dealings. */
  ghost predicate Concluded(c: Config, polys: Dealings, epoch: nat, f: Finish)
    requires Dealt(c, polys) && c.threshold > 0
  {
    && |f.inflight| == 1
    && var t := f.inflight[0];
       && t.epoch == epoch && t.excluded == {}
       && t.gpk == Reduce(SecretTotal(polys, c.n)) && t.share == Reduce(ShareTotal(polys, c.n, c.index))
  }

  /** Either the result is there or something is still missing. */
  ghost predicate Progressing(c: Config, polys: Dealings, epoch: nat, s: Node)
    requires Dealt(c, polys) && c.threshold > 0
  {
    && Clean(c, polys, epoch, s) && NoneWaiting(s)
    && if s.fin.finalizing then Concluded(c, polys, epoch, s.fin) else s.fin.inflight == [] && !AllEvident(c, s)
  }

  lemma EvidentTicket(c: Config, polys: Dealings, epoch: nat, s: Node)
    requires ValidConfig(c) && Dealt(c, polys) && Clean(c, polys, epoch, s) && AllEvident(c, s) && s.fin.inflight == []
    ensures Concluded(c, polys, epoch, Finalize(c, s, true).fin) && Finalize(c, s, true).fin.finalizing
  {
    ReadyIsEvident(c, s);
    AllQualify(c.n);
    forall d | 0 < d <= c.n
      ensures d in s.commitments && s.commitments[d] == Commit(polys[d]) && d in s.shares
    {
      assert Evident(c, s, d);
    }
    KeySumIsTotal(c.n, polys, s.commitments);
    ShareSumIsTotal(c.n, c.index, polys, s.shares);
    hide AllReady;
    hide AllEvident;
  }

  lemma FinalizeProgresses(c: Config, polys: Dealings, epoch: nat, s: Node, draw: Draw)
    requires ValidConfig(c) && Dealt(c, polys) && Clean(c, polys, epoch, s) && NoneWaiting(s)
    requires if s.fin.finalizing then Concluded(c, polys, epoch, s.fin) else s.fin.inflight == []
    ensures var (s', out) := MaybeFinalize(c, s, draw, true);
            && Progressing(c, polys, epoch, s') && out == {} && s' == s.(fin := s'.fin)
  {
    ReadyIsEvident(c, s);
    if !s.fin.finalizing && AllEvident(c, s) {
      EvidentTicket(c, polys, epoch, s);
    }
    hide AllReady;
    hide AllEvident;
    hide Concluded;
    hide BumpEpoch;
    hide KeysReadable;
    hide QualSize;
    hide NewTicket;
  }

  /** A faultless event keeps a node going and is not forgotten. */
  lemma StepProgresses(c: Config, polys: Dealings, epoch: nat, s: Node, e: Event)
    requires ValidConfig(c) && Dealt(c, polys) && epoch > 0 && Progressing(c, polys, epoch, s) && Faultless(c, polys, epoch, e)
    requires PendingKinds(c, s) && ValidEvent(c, s, e)
    ensures var (s', out) := Step(c, s, e);
            && Progressing(c, polys, epoch, s') && Grows(s.(fin := s'.fin), s') && Acknowledges(c, s, s', out)
            && (e.Deliver? ==> Holds(c, s', e.msg))
  {
    hide Handle;
    hide MaybeFinalize;
    hide MissingShares;
    hide NoneWaiting;
    hide Concluded;
    hide AllEvident;
    hide PendingKinds;
    assert !s.fin.done && !s.fin.idle && s.epoch == epoch;
    hide Clean;
    if e.Deliver? && !Ignored(c, e.msg) {
      DeliverProgresses(c, polys, epoch, s, e.msg, e.draw2);
      hide Progressing;
      hide Grows;
      hide Holds;
      hide Acknowledges;
      var (s', out) := Dispatch(c, s, e.msg, e.draw2, true);
      assert {} + out == out;
      assert Step(c, s, e) == (s', out);
    }
  }

  lemma DeliverProgresses(c: Config, polys: Dealings, epoch: nat, s: Node, m: Msg, draw: Draw)
    requires ValidConfig(c) && Dealt(c, polys) && Progressing(c, polys, epoch, s) && Honest(c, polys, epoch, m)
    requires PendingKinds(c, s) && s.epoch == m.epoch && !Ignored(c, m)
    ensures var (s', out) := Dispatch(c, s, m, draw, true);
            && Progressing(c, polys, epoch, s') && Grows(s.(fin := s'.fin), s') && Acknowledges(c, s, s', out) && Holds(c, s', m)
  {
    hide Handle;
    hide MaybeFinalize;
    hide NoneWaiting;
    hide Concluded;
    hide AllEvident;
    hide PendingKinds;
    hide Clean;
    hide Honest;
    hide Ignored;
    HandleHonest(c, polys, epoch, s, m);
    var (s1, out1) := Handle(c, s, m);
    FinalizeProgresses(c, polys, epoch, s1, draw);
  }

  // ----- the run

  ghost predicate Delivered(events: seq<Event>, m: Msg) {
    exists i :: 0 <= i < |events| && events[i].Deliver? && events[i].msg == m
  }

  /** A run from the start of the node's process: it deals, and then only faultless events. */
  ghost predicate FaultlessRun(c: Config, polys: Dealings, states: seq<Node>, events: seq<Event>)
    requires Dealt(c, polys) && ValidConfig(c)
  {
    && Run(c, states, events) && |events| > 0 && events[0] == Start(Some(polys[c.index]))
    && forall i :: 1 <= i < |events| ==> Faultless(c, polys, states[0].epoch, events[i])
  }

  ghost predicate AckSent(c: Config, states: seq<Node>, events: seq<Event>, i: int, d: int)
    requires |states| == |events| + 1
  {
    && 0 <= i < |events| && PendingKinds(c, states[i]) && ValidEvent(c, states[i], events[i])
    && AckOf(states[0].epoch, c.index, d) in Step(c, states[i], events[i]).1
  }

  /** The node's acknowledgement of dealer d has gone out. */
  ghost predicate Acknowledged(c: Config, states: seq<Node>, events: seq<Event>, d: int)
    requires |states| == |events| + 1
  {
    exists i :: AckSent(c, states, events, i, d)
  }

  /** What holds after k events. */
  ghost predicate SoFar(c: Config, polys: Dealings, states: seq<Node>, events: seq<Event>, k: nat)
    requires Dealt(c, polys) && ValidConfig(c) && |states| == |events| + 1 && k <= |events|
  {
    && Progressing(c, polys, states[0].epoch, states[k])
    && (forall i :: 0 <= i < k && events[i].Deliver? ==> Holds(c, states[k], events[i].msg))
    && c.index in states[k].commitments && c.index in states[k].shares
    && (forall d :: d in states[k].shares && d != c.index ==> Acknowledged(c, states, events, d))
  }

  lemma StartProgresses(c: Config, polys: Dealings, epoch: nat)
    requires ValidConfig(c) && c.n >= 2 && Dealt(c, polys)
    ensures PendingKinds(c, Fresh(epoch)) && ValidEvent(c, Fresh(epoch), Start(Some(polys[c.index])))
    ensures var s := Step(c, Fresh(epoch), Start(Some(polys[c.index]))).0;
            && Progressing(c, polys, epoch, s) && s.shares.Keys == {c.index} && c.index in s.commitments
  {
    var s := Step(c, Fresh(epoch), Start(Some(polys[c.index]))).0;
    var other := if c.index == 1 then 2 else 1;
    assert !Evident(c, s, other);
  }

  lemma {:induction false} RunProgresses(c: Config, polys: Dealings, states: seq<Node>, events: seq<Event>, k: nat)
    requires ValidConfig(c) && c.n >= 2 && Dealt(c, polys) && FaultlessRun(c, polys, states, events) && 1 <= k <= |events|
    ensures SoFar(c, polys, states, events, k)
  {
    hide Step;
    hide Progressing;
    hide PendingKinds;
    hide ValidEvent;
    hide Holds;
    var epoch := states[0].epoch;
    assert PendingKinds(c, states[k - 1]) && ValidEvent(c, states[k - 1], events[k - 1]) && states[k] == Step(c, states[k - 1], events[k - 1]).0;
    if k == 1 {
      StartProgresses(c, polys, epoch);
    } else {
      RunProgresses(c, polys, states, events, k - 1);
      StepSoFar(c, polys, states, events, k);
    }
  }

  lemma StepSoFar(c: Config, polys: Dealings, states: seq<Node>, events: seq<Event>, k: nat)
    requires ValidConfig(c) && Dealt(c, polys) && FaultlessRun(c, polys, states, events) && 2 <= k <= |events|
    requires SoFar(c, polys, states, events, k - 1)
    ensures SoFar(c, polys, states, events, k)
  {
    hide Step;
    hide PendingKinds;
    hide ValidEvent;
    hide Holds;
    hide Concluded;
    hide AllEvident;
    hide NoneWaiting;
    var epoch, s, e := states[0].epoch, states[k - 1], events[k - 1];
    assert PendingKinds(c, s) && ValidEvent(c, s, e) && states[k] == Step(c, s, e).0;
    StepProgresses(c, polys, epoch, s, e);
    var s' := states[k];
    forall i | 0 <= i < k && events[i].Deliver?
      ensures Holds(c, s', events[i].msg)
    {
      if i < k - 1 {
        HoldsElsewhere(c, s, s.(fin := s'.fin), events[i].msg);
        HoldsStill(c, s.(fin := s'.fin), s', events[i].msg);
      }
    }
    forall d | d in s'.shares && d != c.index
      ensures Acknowledged(c, states, events, d)
    {
      if d !in s.shares {
        assert AckSent(c, states, events, k - 1, d);
      }
    }
  }

  lemma HoldsElsewhere(c: Config, s: Node, s': Node, m: Msg)
    requires Holds(c, s, m) && s' == s.(fin := s'.fin)
    ensures Holds(c, s', m)
  {
  }

  /** Enough to finish: every other dealer's commitments and the share meant for the node,
      and everyone else's acknowledgement of every dealing but its own. */
  ghost predicate AllDelivered(c: Config, polys: Dealings, epoch: nat, events: seq<Event>)
    requires Dealt(c, polys)
  {
    && (forall d :: 0 < d <= c.n && d != c.index ==>
          Delivered(events, CommitmentsOf(polys, epoch, d)) && Delivered(events, ShareOf(polys, epoch, d, c.index)))
    && (forall d, j :: 0 < d <= c.n && 0 < j <= c.n && j != d && j != c.index ==> Delivered(events, AckOf(epoch, j, d)))
  }

  lemma {:induction false} DealersCount(n: nat)
    ensures |DealersUpTo(n)| == n
  {
    if n > 0 {
      DealersCount(n - 1);
      DealersExact(n - 1, n);
    }
  }

  lemma ManyAcks(n: nat, s: Node, d: int)
    requires 0 < d <= n && d in s.acks && forall j :: 0 < j <= n && j != d ==> Acked(s, d, j)
    ensures |s.acks[d]| >= n - 1
  {
    var others := DealersUpTo(n) - {d};
    DealersCount(n);
    DealersExact(n, d);
    forall j | j in others
      ensures j in s.acks[d]
    {
      DealersExact(n, j);
      assert Acked(s, d, j);
    }
    Subset(others, s.acks[d]);
  }

  lemma Subset(a: set<int>, b: set<int>)
    requires a <= b
    ensures |a| <= |b|
  {
    assert b == a + (b - a);
  }

  ghost predicate Acked(s: Node, d: int, j: int) {
    d in s.acks && j in s.acks[d]
  }

  lemma HoldsDelivered(c: Config, polys: Dealings, states: seq<Node>, events: seq<Event>, m: Msg)
    requires ValidConfig(c) && Dealt(c, polys) && |states| == |events| + 1 && SoFar(c, polys, states, events, |events|)
    requires Delivered(events, m)
    ensures Holds(c, states[|events|], m)
  {
    hide Holds;
    hide Progressing;
    var i :| 0 <= i < |events| && events[i].Deliver? && events[i].msg == m;
  }

  lemma SoFarClean(c: Config, polys: Dealings, states: seq<Node>, events: seq<Event>)
    requires ValidConfig(c) && Dealt(c, polys) && |states| == |events| + 1 && SoFar(c, polys, states, events, |events|)
    ensures var s := states[|events|];
            && Clean(c, polys, states[0].epoch, s) && NoneWaiting(s) && c.index in s.commitments && c.index in s.shares
  {
    hide Concluded;
    hide AllEvident;
    hide Clean;
    hide NoneWaiting;
    hide Holds;
  }

  lemma DeliveredDealing(c: Config, polys: Dealings, states: seq<Node>, events: seq<Event>, d: int)
    requires ValidConfig(c) && Dealt(c, polys) && |states| == |events| + 1 && SoFar(c, polys, states, events, |events|)
    requires AllDelivered(c, polys, states[0].epoch, events) && 0 < d <= c.n
    ensures var s := states[|events|]; d in s.commitments && d in s.shares
  {
    hide Delivered;
    hide SoFar;
    hide Clean;
    SoFarClean(c, polys, states, events);
    if d != c.index {
      HoldsDelivered(c, polys, states, events, CommitmentsOf(polys, states[0].epoch, d));
      HoldsDelivered(c, polys, states, events, ShareOf(polys, states[0].epoch, d, c.index));
    }
  }

  lemma DeliveredAck(c: Config, polys: Dealings, states: seq<Node>, events: seq<Event>, d: int, j: int)
    requires ValidConfig(c) && Dealt(c, polys) && |states| == |events| + 1 && SoFar(c, polys, states, events, |events|)
    requires AllDelivered(c, polys, states[0].epoch, events) && 0 < d <= c.n && 0 < j <= c.n && j != d
    ensures Acked(states[|events|], d, j)
  {
    hide Delivered;
    hide SoFar;
    if j != c.index {
      HoldsDelivered(c, polys, states, events, AckOf(states[0].epoch, j, d));
    } else {
      SoFarClean(c, polys, states, events);
      DeliveredDealing(c, polys, states, events, d);
    }
  }

  lemma DeliveredEvident(c: Config, polys: Dealings, states: seq<Node>, events: seq<Event>, d: int)
    requires ValidConfig(c) && c.n >= 2 && Dealt(c, polys) && |states| == |events| + 1 && SoFar(c, polys, states, events, |events|)
    requires AllDelivered(c, polys, states[0].epoch, events) && 0 < d <= c.n
    ensures Evident(c, states[|events|], d)
  {
    hide AllDelivered;
    hide SoFar;
    SoFarClean(c, polys, states, events);
    DeliveredDealing(c, polys, states, events, d);
    var s := states[|events|];
    assert s.complaints == map[] && s.commitments[d] == Commit(polys[d]);
    hide Clean;
    forall j | 0 < j <= c.n && j != d
      ensures Acked(s, d, j)
    {
      DeliveredAck(c, polys, states, events, d, j);
    }
    assert Acked(s, d, if d == 1 then 2 else 1);
    ManyAcks(c.n, s, d);
  }

  /** Whatever the order and however often they come, once the honest participants' messages
      are in, the node has computed the result of all dealings: the group key is g to the sum
      of the dealt secrets and its key share the sum of the shares dealt to it. And it has
      acknowledged every other dealer. */
  lemma DeliveryCompletes(c: Config, polys: Dealings, states: seq<Node>, events: seq<Event>)
    requires ValidConfig(c) && c.n >= 2 && Dealt(c, polys) && FaultlessRun(c, polys, states, events)
    requires AllDelivered(c, polys, states[0].epoch, events)
    ensures Concluded(c, polys, states[0].epoch, states[|events|].fin)
    ensures forall d :: 0 < d <= c.n && d != c.index ==> Acknowledged(c, states, events, d)
  {
    RunProgresses(c, polys, states, events, |events|);
    forall d | 0 < d <= c.n
      ensures Evident(c, states[|events|], d)
    {
      DeliveredEvident(c, polys, states, events, d);
    }
    hide Evident;
    assert AllEvident(c, states[|events|]);
    forall d | 0 < d <= c.n && d != c.index
      ensures Acknowledged(c, states, events, d)
    {
      EvidentShares(c, states[|events|], d);
    }
  }

  lemma EvidentShares(c: Config, s: Node, d: int)
    requires Evident(c, s, d)
    ensures d in s.shares
  {
  }

  // ----- a dealer that tells two nodes different things

  lemma {:induction false} TotalWithout(a: Dealings, b: Dealings, n: int, d: int)
    requires forall e :: 0 < e <= n ==> e in a && a[e] != [] && e in b && b[e] != []
    requires forall e :: 0 < e <= n && e != d ==> a[e] == b[e]
    ensures SecretTotal(a, n) + (if 0 < d <= n then b[d][0] else 0) == SecretTotal(b, n) + if 0 < d <= n then a[d][0] else 0
  {
    if n > 0 {
      TotalWithout(a, b, n - 1, d);
    }
  }

  lemma ShiftedEqual(x: int, y: int, u: Scalar, v: Scalar)
    requires x - y == u - v
    ensures Reduce(x) == Reduce(y) <==> u == v
  {
    if u != v {
      IndexDifference(u, v);
      if Cong(x, y) {
        var q := CongElim(x, y);
        CongIntro(u - v, 0, q);
      }
    }
  }

  /** Two nodes to which one dealer has shown different polynomials, and the others the same,
      both finish, and they compute one group key if and only if the two constant terms are
      equal: nothing in the protocol makes a dealer show everyone the same commitments. */
  lemma EquivocationSplits(
      c1: Config, polys1: Dealings, states1: seq<Node>, events1: seq<Event>,
      c2: Config, polys2: Dealings, states2: seq<Node>, events2: seq<Event>, d: int)
    requires ValidConfig(c1) && Dealt(c1, polys1) && FaultlessRun(c1, polys1, states1, events1)
    requires ValidConfig(c2) && Dealt(c2, polys2) && FaultlessRun(c2, polys2, states2, events2)
    requires AllDelivered(c1, polys1, states1[0].epoch, events1) && AllDelivered(c2, polys2, states2[0].epoch, events2)
    requires c1.n == c2.n >= 2 && 0 < d <= c1.n && forall e :: 0 < e <= c1.n && e != d ==> polys1[e] == polys2[e]
    ensures var f1, f2 := states1[|events1|].fin, states2[|events2|].fin;
            |f1.inflight| == |f2.inflight| == 1 && (f1.inflight[0].gpk == f2.inflight[0].gpk <==> polys1[d][0] == polys2[d][0])
  {
    hide FaultlessRun;
    hide AllDelivered;
    DeliveryCompletes(c1, polys1, states1, events1);
    DeliveryCompletes(c2, polys2, states2, events2);
    hide Acknowledged;
    TotalWithout(polys1, polys2, c1.n, d);
    ShiftedEqual(SecretTotal(polys1, c1.n), SecretTotal(polys2, c1.n), polys1[d][0], polys2[d][0]);
  }

  // ----- alone

  ghost predicate Resultless(f: Finish) {
    !f.done && f.result == None && f.inflight == [] && f.store == None && !f.idle
  }

  lemma AloneStep(c: Config, s: Node, e: Event)
    requires ValidConfig(c) && c.n == 1 && PendingKinds(c, s) && ValidEvent(c, s, e) && Resultless(s.fin)
    ensures Resultless(Step(c, s, e).0.fin)
  {
    hide PendingKinds;
    if e.Deliver? {
      assert e.msg.from <= 0 || e.msg.from > c.n || e.msg.from == c.index;
    }
  }

  /** Two participants are needed: only a message from another participant makes a node look
      whether it can finish, so a committee of one never does, whatever happens. */
  lemma {:induction false} AloneNever(c: Config, states: seq<Node>, events: seq<Event>, k: nat)
    requires ValidConfig(c) && c.n == 1 && Run(c, states, events) && k < |states|
    ensures Resultless(states[k].fin)
  {
    hide Step;
    if k > 0 {
      AloneNever(c, states, events, k - 1);
      assert PendingKinds(c, states[k - 1]) && ValidEvent(c, states[k - 1], events[k - 1]) && states[k] == Step(c, states[k - 1], events[k - 1]).0;
      AloneStep(c, states[k - 1], events[k - 1]);
    }
  }
}
