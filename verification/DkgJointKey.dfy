/** Runs of one node: what they keep, where results come from, and what restarts do. */
module DkgRuns {
  import opened PrimeField
  import opened Interpolation
  import opened Curve
  import opened Feldman
  import opened Outcomes
  import opened DkgNode
  import opened DkgInvariant

  /** A run: any sequence of events, restarts included, from a fresh node on. */
  ghost predicate Run(c: Config, states: seq<Node>, events: seq<Event>) {
    && |states| == |events| + 1
    && (exists epoch: nat :: epoch > 0 && states[0] == Fresh(epoch))
    && forall i :: 0 <= i < |events| ==>
         PendingKinds(c, states[i]) && ValidEvent(c, states[i], events[i])
         && states[i + 1] == Step(c, states[i], events[i]).0
  }

  lemma {:induction false} RunInvariant(c: Config, states: seq<Node>, events: seq<Event>, i: nat)
    requires ValidConfig(c) && Run(c, states, events) && i < |states|
    ensures NodeInv(c, states[i]) && states[i].epoch > 0
  {
    hide Step;
    if i == 0 {
      FreshSound(c, states[0].epoch, NOT_DONE);
    } else {
      hide NodeInv;
      RunInvariant(c, states, events, i - 1);
      StepKeeps(c, states[i - 1], events[i - 1]);
      ProgressExact(c, states[i - 1], events[i - 1]);
    }
  }

  /** Over any run and any interleaving of the two regions of finalisation, as long as no
      restart regresses: the epoch never decreases, and once a result is published it
      stays, unchanged, for good. */
  lemma {:induction false} RunMonotone(c: Config, states: seq<Node>, events: seq<Event>, i: nat, j: nat)
    requires ValidConfig(c) && Run(c, states, events) && i <= j < |states|
    requires forall k :: i <= k < j ==> !Regresses(states[k], events[k])
    ensures Progress(states[i], states[j])
  {
    hide Step;
    hide NodeInv;
    hide Regresses;
    if i < j {
      RunMonotone(c, states, events, i, j - 1);
      RunInvariant(c, states, events, j - 1);
      ProgressExact(c, states[j - 1], events[j - 1]);
    }
  }

  // ----- where results come from

  /** The ticket was computed while handling this event, from the node's commitments and
      shares of that epoch, when every qualified dealer had n - 1 acknowledgements and no
      open complaint. */
  ghost predicate Born(c: Config, s: Node, e: Event, t: Ticket) {
    && PendingKinds(c, s) && ValidEvent(c, s, e) && e.Deliver?
    && !s.fin.done && e.msg.epoch >= s.epoch && 0 < e.msg.from <= c.n && e.msg.from != c.index
    && var s1 := BumpEpoch(c, s, e.msg.epoch, e.draw1).0;
    && PendingKinds(c, s1) && s1.epoch == e.msg.epoch
    && var x := Handle(c, s1, e.msg).0;
    && !x.fin.done && QualSize(c.n, x.bad) >= c.threshold
    && AllReady(c, x) && KeysReadable(c.n, x.bad, x.commitments) && t == NewTicket(c, x)
    && t.epoch == Step(c, s, e).0.epoch
  }

  ghost predicate Held(s: Node, t: Ticket) {
    t in s.fin.inflight || s.fin.store == Some(t) || s.fin.result == Some(t)
  }

  lemma MaybeFinalizeHolds(c: Config, s: Node, draw: Draw, sumOk: bool, t: Ticket)
    requires Held(MaybeFinalize(c, s, draw, sumOk).0, t) && !Held(s, t)
    ensures && !s.fin.done && QualSize(c.n, s.bad) >= c.threshold && MaybeFinalize(c, s, draw, sumOk).0.epoch == s.epoch
            && AllReady(c, s) && KeysReadable(c.n, s.bad, s.commitments) && t == NewTicket(c, s) && t.epoch == s.epoch
  {
    hide AllReady;
    hide KeysReadable;
  }

  lemma BumpEpochHolds(c: Config, s: Node, epoch: nat, draw: Draw, t: Ticket)
    ensures Held(BumpEpoch(c, s, epoch, draw).0, t) ==> Held(s, t)
  {
  }

  /** Only a delivered message can add a ticket. */
  lemma QuietHolds(c: Config, s: Node, e: Event, t: Ticket)
    requires NodeInv(c, s) && ValidEvent(c, s, e) && !e.Deliver?
    ensures Held(Step(c, s, e).0, t) ==> Held(s, t)
  {
    hide Sound;
    hide Restore;
    match e
    case Start(draw) =>
    case Timeout(draw) => BumpEpochHolds(c, s, NextEpoch(s.epoch), draw, t);
    case Retry =>
    case Saved(k) =>
    case Published(k) => assert s.fin.inflight[k] in s.fin.inflight;
    case Restart(epoch) =>
      if !s.fin.done {
        RestoreRoundTrip(c, s);
      } else {
        RestoreDone(c, s);
      }
  }

  lemma DeliverHolds(c: Config, s: Node, e: Event, t: Ticket)
    requires NodeInv(c, s) && ValidConfig(c) && ValidEvent(c, s, e) && e.Deliver?
    requires Held(Step(c, s, e).0, t) && !Held(s, t)
    ensures Born(c, s, e, t)
  {
    hide Sound;
    hide Results;
    hide AllReady;
    hide KeysReadable;
    hide Handle;
    hide MaybeFinalize;
    hide NewTicket;
    var m := e.msg;
    BumpEpochHolds(c, s, m.epoch, e.draw1, t);
    BumpEpochKeeps(c, s, m.epoch, e.draw1);
    var s1 := BumpEpoch(c, s, m.epoch, e.draw1).0;
    hide BumpEpoch;
    HandleKeeps(c, s1, m);
    assert Step(c, s, e).0 == MaybeFinalize(c, Handle(c, s1, m).0, e.draw2, e.sumOk).0;
    MaybeFinalizeHolds(c, Handle(c, s1, m).0, e.draw2, e.sumOk, t);
  }

  /** Every result of a run, published, stored or read back from the key store, was
      computed at an earlier step of it, whole and from the evidence of its own epoch. */
  lemma {:induction false} ResultProvenance(c: Config, states: seq<Node>, events: seq<Event>, j: nat, t: Ticket)
    requires ValidConfig(c) && Run(c, states, events) && j < |states| && Held(states[j], t)
    ensures exists i :: 0 <= i < j && Born(c, states[i], events[i], t)
  {
    hide Born;
    hide NodeInv;
    hide Step;
    if j > 0 {
      RunInvariant(c, states, events, j - 1);
      if Held(states[j - 1], t) {
        ResultProvenance(c, states, events, j - 1, t);
      } else if events[j - 1].Deliver? {
        DeliverHolds(c, states[j - 1], events[j - 1], t);
      } else {
        QuietHolds(c, states[j - 1], events[j - 1], t);
      }
    }
  }

  // ----- restarts that find a key share

  /** Publishing the ticket now would make it, or it already is, the node's result. */
  ghost predicate Publishable(s: Node, t: Ticket) {
    s.fin.result == Some(t) || (!s.fin.done && s.epoch == t.epoch)
  }

  lemma PublishableExact(f: Finish, epoch: nat, k: nat)
    requires k < |f.inflight| && (f.done <==> f.result.Some?)
    ensures var t := f.inflight[k];
            Publish(f, epoch, k).result == Some(t) <==> f.result == Some(t) || (!f.done && epoch == t.epoch)
  {
  }

  lemma IdleStays(c: Config, s: Node, e: Event)
    requires NodeInv(c, s) && ValidEvent(c, s, e)
    ensures s.fin.idle || Regresses(s, e) ==> Step(c, s, e).0.fin.idle
  {
  }

  /** A node that is not idle has never regressed. */
  lemma {:induction false} AwakeNeverRegressed(c: Config, states: seq<Node>, events: seq<Event>, k: nat, j: nat)
    requires ValidConfig(c) && Run(c, states, events) && k < j < |states| && Regresses(states[k], events[k])
    ensures states[j].fin.idle
  {
    hide Step;
    hide NodeInv;
    hide Regresses;
    RunInvariant(c, states, events, j - 1);
    IdleStays(c, states[j - 1], events[j - 1]);
    if k < j - 1 {
      AwakeNeverRegressed(c, states, events, k, j - 1);
    }
  }

  /** From after step i on, up to state j, the epoch is the given one. */
  ghost predicate EpochKept(states: seq<Node>, i: int, j: int, epoch: nat)
    requires 0 <= i < j < |states|
  {
    forall k :: i < k <= j ==> states[k].epoch == epoch
  }

  /** Since the ticket was computed at step i, the epoch is still its own exactly when it
      never changed. */
  lemma EpochSince(c: Config, states: seq<Node>, events: seq<Event>, i: nat, j: nat, t: Ticket)
    requires ValidConfig(c) && Run(c, states, events) && i < j < |states| && Born(c, states[i], events[i], t)
    requires !states[j].fin.idle
    ensures states[j].epoch == t.epoch <==> EpochKept(states, i, j, t.epoch)
  {
    hide Step;
    hide Regresses;
    forall l | 0 <= l < j
      ensures !Regresses(states[l], events[l])
    {
      if Regresses(states[l], events[l]) {
        AwakeNeverRegressed(c, states, events, l, j);
      }
    }
    forall k | i < k <= j
      ensures t.epoch <= states[k].epoch <= states[j].epoch
    {
      RunMonotone(c, states, events, i + 1, k);
      RunMonotone(c, states, events, k, j);
    }
  }

  lemma RestartFinds(c: Config, s: Node, e: Event)
    requires PendingKinds(c, s) && e.Restart? && s.fin.store.Some?
    ensures Step(c, s, e).0.fin.done && Step(c, s, e).0.fin.result == s.fin.store
  {
  }

  /** A restart that finds a key share: the node's result is the share found, which was
      computed at some earlier step; and it is a result the node could have published at
      the moment of the restart if and only if it is the one already published, or none is
      and the epoch has not changed since that step. */
  lemma RestartFromStore(c: Config, states: seq<Node>, events: seq<Event>, j: nat, t: Ticket)
    requires ValidConfig(c) && Run(c, states, events) && j < |events|
    requires events[j].Restart? && states[j].fin.store == Some(t) && !states[j].fin.idle
    ensures states[j + 1].fin.done && states[j + 1].fin.result == Some(t)
    ensures exists i ::
      0 <= i < j && Born(c, states[i], events[i], t) &&
      (Publishable(states[j], t) <==>
        states[j].fin.result == Some(t) || (!states[j].fin.done && EpochKept(states, i, j, t.epoch)))
  {
    hide Born;
    hide NodeInv;
    hide Step;
    hide EpochKept;
    RestartFinds(c, states[j], events[j]);
    ResultProvenance(c, states, events, j, t);
    var i :| 0 <= i < j && Born(c, states[i], events[i], t);
    EpochSince(c, states, events, i, j, t);
  }

  /** The run in which it fails: whenever a result is in flight, it may reach the key store,
      the epoch may end before the second region, and the process may crash. The restarted
      node is finished with the abandoned epoch's result, in its configured epoch. */
  lemma StaleRestart(c: Config, states: seq<Node>, events: seq<Event>, k: nat, draw: Draw, epoch: nat)
      returns (states': seq<Node>, events': seq<Event>)
    requires ValidConfig(c) && Run(c, states, events) && ValidDraw(c, draw)
    requires var s := states[|states| - 1];
             && !s.fin.done && k < |s.fin.inflight| && s.fin.inflight[k].epoch == s.epoch
             && Configured(epoch) <= s.epoch < LAST_EPOCH
    ensures Run(c, states', events') && |states'| == |states| + 3 && states'[..|states|] == states
    ensures var n, t := |states| - 1, states[|states| - 1].fin.inflight[k];
            && events' == events + [Saved(k), Timeout(draw), Restart(epoch)]
            && !states'[n + 2].fin.done && states'[n + 2].epoch == t.epoch + 1 && !Publishable(states'[n + 2], t)
            && states'[n + 3].fin.done && states'[n + 3].fin.result == Some(t)
            && states'[n + 3].epoch == Configured(epoch) < states'[n + 2].epoch && Regresses(states'[n + 2], Restart(epoch))
  {
    var n, s := |states| - 1, states[|states| - 1];
    RunInvariant(c, states, events, n);
    StepKeeps(c, s, Saved(k));
    var s1 := Step(c, s, Saved(k)).0;
    StepKeeps(c, s1, Timeout(draw));
    var s2 := Step(c, s1, Timeout(draw)).0;
    var s3 := Step(c, s2, Restart(epoch)).0;
    states', events' := states + [s1, s2, s3], events + [Saved(k), Timeout(draw), Restart(epoch)];
    assert s1.fin.store == Some(s.fin.inflight[k]) && s1.epoch == s.epoch && !s1.fin.done && !s1.fin.idle;
    assert s2.epoch == s.epoch + 1 && s2.fin.store == s1.fin.store && !s2.fin.done;
    hide Step;
    hide NodeInv;
    forall i | 0 <= i < |events'|
      ensures PendingKinds(c, states'[i]) && ValidEvent(c, states'[i], events'[i])
      ensures states'[i + 1] == Step(c, states'[i], events'[i]).0
    {
    }
  }

  /** The smallest case: participant 1 of 2, threshold 1, with the other disqualified for
      malformed commitments and its acknowledgement in hand. */
  const PAIR := Config(2, 1, 1)

  function PairEvents(a: Scalar): seq<Event> {
    [Start(Some([a])),
     Deliver(Msg(2, 1, Commitments([Garbage(0), Garbage(0)])), None, None, true),
     Deliver(Msg(2, 1, Ack(1)), None, None, true)]
  }

  function PairStarted(a: Scalar): Node {
    Fresh(1).(coeffs := [a], selfCommitments := Commit([a]), commitments := map[1 := Commit([a])],
              shares := map[1 := Reduce(PolyAt([a], 1))])
  }

  lemma PairFirst(a: Scalar)
    ensures Step(PAIR, Fresh(1), PairEvents(a)[0]).0 == PairStarted(a)
  {
  }

  lemma PairSecond(a: Scalar)
    ensures Step(PAIR, PairStarted(a), PairEvents(a)[1]).0 == PairStarted(a).(bad := {2})
  {
    var s := PairStarted(a);
    var s1 := s.(bad := {2});
    assert {} + {2} == {2} && |{2}| == 1;
    assert s.complaints - {2} == s.complaints;
    assert Disqualify(s, 2) == s1;
    assert Handle(PAIR, s, PairEvents(a)[1].msg).0 == s1;
    assert Qualified(2, {2}, 1) && !DealerReady(PAIR, s1, 1);
    assert MaybeFinalize(PAIR, s1, None, true).0 == s1;
  }

  /** A run with a result in flight. */
  lemma PairThird(a: Scalar)
    ensures var s := Step(PAIR, PairStarted(a).(bad := {2}), PairEvents(a)[2]).0;
            s.epoch == 1 && !s.fin.done && |s.fin.inflight| == 1 && s.fin.inflight[0].epoch == 1
  {
    var s := PairStarted(a).(bad := {2});
    var s1 := RecordAck(s, 1, 2);
    assert Handle(PAIR, s, PairEvents(a)[2].msg).0 == s1;
    assert |{2}| == 1 && {} + {2} == {2};
    assert DealerReady(PAIR, s1, 1);
    assert forall d :: 0 < d <= 2 && Qualified(2, {2}, d) ==> d == 1;
    assert AllReady(PAIR, s1) && KeysReadable(2, {2}, s1.commitments);
    assert QualSize(2, {2}) == 1 by {
      assert QualSize(1, {2}) == 1 && QualSize(0, {2}) == 0;
    }
  }

  /** So the run exists: two participants, threshold one. */
  lemma StaleRestartHappens(a: Scalar) returns (states: seq<Node>, events: seq<Event>)
    requires ORDER > 2
    ensures Run(PAIR, states, events) && |events| == 6
    ensures states[5].epoch == 2 && !states[5].fin.done && events[5] == Restart(1)
    ensures states[6].epoch == 1 && states[6].fin.done && states[6].fin.result.Some? && states[6].fin.result.value.epoch == 1
  {
    hide Step;
    hide PairStarted;
    PairFirst(a);
    PairSecond(a);
    PairThird(a);
    PairKinds(a);
    var s1, s2 := PairStarted(a), PairStarted(a).(bad := {2});
    var s3 := Step(PAIR, s2, PairEvents(a)[2]).0;
    var run := [Fresh(1), s1, s2, s3];
    assert Run(PAIR, run, PairEvents(a));
    hide Run;
    states, events := StaleRestart(PAIR, run, PairEvents(a), 0, None, 1);
  }

  lemma PairKinds(a: Scalar)
    ensures PendingKinds(PAIR, Fresh(1)) && PendingKinds(PAIR, PairStarted(a)) && PendingKinds(PAIR, PairStarted(a).(bad := {2}))
  {
  }
}

/** What finished nodes hold: a Shamir sharing of one secret under one public key. */
module DkgJointKey {
  import opened PrimeField
  import opened Interpolation
  import opened Curve
  import opened Feldman
  import opened DkgNode
  import opened JointPolynomial

  /** A participant and a result it holds, published or read from its key store. */
  datatype Holder = Holder(config: Config, ticket: Ticket)

  /** The result's qualified dealers and their commitments are the given ones. */
  ghost predicate Agrees(h: Holder, n: int, t: nat, excluded: set<int>, coms: map<int, seq<Compressed>>) {
    && ValidConfig(h.config) && h.config.n == n && h.config.threshold == t && TicketSound(h.config, h.ticket)
    && SameQual(n, h.ticket.excluded, excluded)
    && forall d :: 0 < d <= n && Qualified(n, excluded, d) ==> d in coms && d in h.ticket.coms && h.ticket.coms[d] == coms[d]
  }

  ghost function KeyShares(hs: seq<Holder>): (r: seq<Share<Scalar>>)
    ensures |r| == |hs|
  {
    seq(|hs|, i requires 0 <= i < |hs| => Share(hs[i].config.index, hs[i].ticket.share))
  }

  lemma HolderShare(h: Holder, n: int, t: nat, excluded: set<int>, coms: map<int, seq<Compressed>>)
    requires Agrees(h, n, t, excluded, coms)
    ensures Committed(n, excluded, coms, t)
    ensures var joint := JointPoly(n, excluded, coms, t);
            && h.ticket.gpk == Reduce(joint[0])
            && h.ticket.share == Reduce(PolyAt(joint, h.config.index))
  {
    JointFrame(n, h.ticket.excluded, excluded, h.ticket.coms, coms, t);
  }

  /** Joint correctness: results computed from the same qualified dealers and the same
      commitments have the same group key g^s, and the key shares of any threshold of
      their holders recombine to s, however the dealers chose their polynomials. */
  lemma JointCorrectness(hs: seq<Holder>, n: int, t: nat, excluded: set<int>, coms: map<int, seq<Compressed>>)
    requires 0 < t <= |hs| && forall i :: 0 <= i < |hs| ==> Agrees(hs[i], n, t, excluded, coms)
    requires forall i, j :: 0 <= i < j < |hs| ==> hs[i].config.index != hs[j].config.index
    ensures Committed(n, excluded, coms, t)
    ensures forall i :: 0 <= i < |hs| ==> hs[i].ticket.gpk == Reduce(JointPoly(n, excluded, coms, t)[0])
    ensures var c := Chosen(KeyShares(hs), t);
            Cong(Interpolation.Combine(IndexSeq(c), ValueSeq(c), IndexSeq(c)), JointPoly(n, excluded, coms, t)[0])
  {
    HolderShare(hs[0], n, t, excluded, coms);
    var joint, shares := JointPoly(n, excluded, coms, t), KeyShares(hs);
    forall i | 0 <= i < |hs|
      ensures hs[i].ticket.gpk == Reduce(joint[0])
      ensures Cong(shares[i].value, PolyAt(joint, shares[i].index)) && 0 < shares[i].index < ORDER
    {
      HolderShare(hs[i], n, t, excluded, coms);
    }
    var js := IndexSeq(shares);
    assert forall a, b :: 0 <= a < b < |js| ==> js[a] != js[b];
    ChosenDistinct(shares, t);
    ChosenMembers(shares, t);
    var c := Chosen(shares, t);
    assert forall i :: 0 <= i < t ==> c[i] in c;
    SharesDetermineSecret(shares, t, joint);
  }
}
