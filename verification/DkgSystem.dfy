/** The whole protocol: honest nodes that follow the code, dishonest participants that
    send whatever they like under their own name, and a network that may delay, drop,
    repeat and reorder messages. */
module DkgSystem {
  import opened PrimeField
  import opened DkgNode

  datatype Params = Params(n: int, threshold: int, honest: set<int>)

  ghost predicate ValidParams(p: Params) {
    0 < p.threshold <= p.n < ORDER && forall i :: i in p.honest ==> 0 < i <= p.n
  }

  function ConfigOf(p: Params, i: int): Config {
    Config(p.n, p.threshold, i)
  }

  /** The polynomial each honest dealer has drawn first, by dealer and epoch. */
  type Polys = map<(int, nat), seq<Scalar>>

  /** All messages ever sent stay deliverable. */
  datatype System = System(nodes: map<int, Node>, net: set<Msg>, polys: Polys)

  datatype Action = Local(i: int, event: Event) | Dishonest(msg: Msg)

  ghost predicate Initial(p: Params, s: System) {
    && s.nodes.Keys == p.honest && s.net == {} && s.polys == map[]
    && forall i :: i in p.honest ==> s.nodes[i].epoch > 0 && s.nodes[i] == Fresh(s.nodes[i].epoch)
  }

  /** Local events are arbitrary, except that only sent messages are delivered. */
  ghost predicate Enabled(p: Params, s: System, a: Action) {
    match a
    case Local(i, event) =>
      && i in p.honest && i in s.nodes && PendingKinds(ConfigOf(p, i), s.nodes[i])
      && ValidEvent(ConfigOf(p, i), s.nodes[i], event)
      && (event.Deliver? ==> event.msg in s.net)
    case Dishonest(m) => m.from !in p.honest
  }

  /** The first draw of an epoch goes on record. */
  function Note(polys: Polys, c: Config, s: Node): Polys {
    if s.coeffs == [] || (c.index, s.epoch) in polys then polys else polys[(c.index, s.epoch) := s.coeffs]
  }

  /** The node after the epoch bump that a message from a later epoch causes. */
  function AfterBump(c: Config, s: Node, e: Event): (Node, set<Msg>) {
    if e.Deliver? && 0 < e.msg.from <= c.n && e.msg.from != c.index && !s.fin.done && e.msg.epoch > s.epoch then
      BumpEpoch(c, s, e.msg.epoch, e.draw1)
    else (s, {})
  }

  function NotedBy(c: Config, polys: Polys, s: Node, e: Event): Polys
    requires PendingKinds(c, s) && ValidEvent(c, s, e)
  {
    Note(Note(polys, c, AfterBump(c, s, e).0), c, Step(c, s, e).0)
  }

  function Act(p: Params, s: System, a: Action): System
    requires a.Local? ==> a.i in s.nodes && PendingKinds(ConfigOf(p, a.i), s.nodes[a.i])
    requires a.Local? ==> ValidEvent(ConfigOf(p, a.i), s.nodes[a.i], a.event)
  {
    match a
    case Local(i, event) =>
      var (node, out) := Step(ConfigOf(p, i), s.nodes[i], event);
      System(s.nodes[i := node], s.net + out, NotedBy(ConfigOf(p, i), s.polys, s.nodes[i], event))
    case Dishonest(m) => s.(net := s.net + {m})
  }

  /** A run of the system. */
  ghost predicate SystemRun(p: Params, states: seq<System>, actions: seq<Action>) {
    && |states| == |actions| + 1
    && Initial(p, states[0])
    && forall k :: 0 <= k < |actions| ==>
         Enabled(p, states[k], actions[k]) && states[k + 1] == Act(p, states[k], actions[k])
  }
}

/** Acknowledgements tell the truth: a node that has finished dealing in an epoch knows that
    every honest participant has its commitments, or has moved on. */
module DkgAcks {
  import opened Feldman
  import opened DkgNode
  import opened DkgInvariant
  import opened DkgRuns
  import opened DkgSystem

  /** For dealer d and epoch e the node is past being told anything new. */
  ghost predicate Settled(s: Node, d: int, e: nat) {
    s.fin.done || s.epoch > e || (s.epoch == e && d in s.commitments)
  }

  lemma SettledStays(s: Node, s': Node, d: int, e: nat)
    requires Settled(s, d, e) && Onward(s, s')
    ensures Settled(s', d, e)
  {
  }

  /** Acknowledgements of the node's own dealing come from others, and an honest one was sent. */
  ghost predicate AcksBacked(p: Params, net: set<Msg>, c: Config, s: Node) {
    forall j :: j in Bucket(s.acks, c.index) ==>
      0 < j <= c.n && j != c.index && (j in p.honest ==> Msg(j, s.epoch, Ack(c.index)) in net)
  }

  /** Every other honest participant acknowledged i's dealing in the result's epoch. */
  ghost predicate Acked(p: Params, net: set<Msg>, i: int, t: Ticket) {
    forall j :: j in p.honest && j != i ==> Msg(j, t.epoch, Ack(i)) in net
  }

  ghost predicate NodeAcks(p: Params, net: set<Msg>, c: Config, s: Node) {
    && NodeInv(c, s) && s.epoch > 0 && Placed(s) && AcksBacked(p, net, c, s)
    && forall t :: Held(s, t) ==> Acked(p, net, c.index, t)
  }

  ghost predicate AckInv(p: Params, s: System) {
    && s.nodes.Keys == p.honest
    && (forall i :: i in p.honest ==> NodeAcks(p, s.net, ConfigOf(p, i), s.nodes[i]))
    && (forall m :: m in s.net && m.from in p.honest && m.body.Ack? ==> Settled(s.nodes[m.from], m.body.dealer, m.epoch))
  }

  // ----- what a handler does to acknowledgements

  /** Only an acknowledgement of the node's own dealing adds to its own bucket. */
  ghost predicate OwnBucket(c: Config, s: Node, s': Node, m: Msg) {
    Bucket(s'.acks, c.index) <= Bucket(s.acks, c.index) + if m.body == Ack(c.index) then {m.from} else {}
  }

  /** What is acknowledged is committed to. */
  ghost predicate AcksCommitted(s': Node, out: set<Msg>) {
    forall m :: m in out && m.body.Ack? ==> m.epoch == s'.epoch && m.body.dealer in s'.commitments
  }

  lemma OnShareAcks(c: Config, s: Node, m: Msg)
    requires m.body.EncShare? && m.from != c.index
    ensures Bucket(OnShare(c, s, m).0.acks, c.index) == Bucket(s.acks, c.index)
    ensures AcksCommitted(OnShare(c, s, m).0, OnShare(c, s, m).1)
  {
    hide FeldmanCheck;
    hide WithoutComplaint;
  }

  lemma OnShareOpenAcksOwn(c: Config, s: Node, m: Msg)
    requires m.body.ShareOpen? && m.from != c.index
    ensures Bucket(OnShareOpen(c, s, m).0.acks, c.index) == Bucket(s.acks, c.index)
    ensures AcksCommitted(OnShareOpen(c, s, m).0, OnShareOpen(c, s, m).1)
  {
    hide FeldmanCheck;
    hide WithoutComplaint;
    hide Disqualify;
    DisqualifyFields(s, m.from);
  }

  lemma OnCommitmentsAcks(c: Config, s: Node, from: int, points: seq<Curve.Compressed>)
    ensures OnCommitments(c, s, from, points).acks == s.acks
  {
    hide Disqualify;
    DisqualifyFields(s, from);
  }

  lemma PendingAcks(c: Config, s: Node, d: int)
    requires NodeInv(c, s) && d != c.index
    ensures Bucket(TryProcessPending(c, s, d).0.acks, c.index) == Bucket(s.acks, c.index)
    ensures AcksCommitted(TryProcessPending(c, s, d).0, TryProcessPending(c, s, d).1)
  {
    hide Sound;
    hide Results;
    hide OnShare;
    hide OnShareOpen;
    var (s1, out1) := if d in s.pendingShare then OnShare(c, s, s.pendingShare[d]) else (s, {});
    if d in s.pendingShare {
      OnShareKeeps(c, s, s.pendingShare[d]);
      OnShareAcks(c, s, s.pendingShare[d]);
    }
    if d in s1.pendingOpen {
      OnShareOpenKeeps(c, s1, s1.pendingOpen[d]);
      OnShareOpenAcksOwn(c, s1, s1.pendingOpen[d]);
    }
  }

  lemma HandleAcks(c: Config, s: Node, m: Msg)
    requires NodeInv(c, s) && s.epoch == m.epoch && 0 < m.from <= c.n && m.from != c.index
    ensures OwnBucket(c, s, Handle(c, s, m).0, m) && AcksCommitted(Handle(c, s, m).0, Handle(c, s, m).1)
  {
    hide Sound;
    hide Results;
    hide OnShare;
    hide OnShareOpen;
    hide TryProcessPending;
    hide OnCommitments;
    match m.body
    case Commitments(points) =>
      OnCommitmentsKeeps(c, s, m.from, points);
      OnCommitmentsAcks(c, s, m.from, points);
      PendingAcks(c, OnCommitments(c, s, m.from, points), m.from);
    case EncShare(to, _) => OnShareAcks(c, s, m);
    case ShareOpen(_, _) => OnShareOpenAcksOwn(c, s, m);
    case Ack(d) =>
    case Complaint(d) =>
    case Unknown =>
  }

  // ----- a finished dealer was acknowledged by everybody

  function UpTo(n: int): set<int> {
    if n <= 0 then {} else UpTo(n - 1) + {n}
  }

  lemma {:induction false} UpToExact(n: int, j: int)
    ensures j in UpTo(n) <==> 0 < j <= n
  {
    if n > 0 {
      UpToExact(n - 1, j);
    }
  }

  lemma {:induction false} UpToSize(n: nat)
    ensures |UpTo(n)| == n
  {
    if n > 0 {
      UpToSize(n - 1);
      UpToExact(n - 1, n);
    }
  }

  lemma SameSize(a: set<int>, b: set<int>)
    requires a <= b && |a| >= |b|
    ensures a == b
  {
    assert b == a + (b - a) && |b| == |a| + |b - a|;
  }

  lemma EveryoneAcked(p: Params, net: set<Msg>, c: Config, s: Node)
    requires ValidParams(p) && c == ConfigOf(p, c.index) && c.index in p.honest && c.index !in s.bad
    requires AcksBacked(p, net, c, s) && AllReady(c, s) && KeysReadable(c.n, s.bad, s.commitments)
    ensures Acked(p, net, c.index, NewTicket(c, s))
  {
    var mine, others := Bucket(s.acks, c.index), UpTo(c.n) - {c.index};
    assert Qualified(c.n, s.bad, c.index);
    assert DealerReady(c, s, c.index);
    UpToSize(c.n);
    UpToExact(c.n, c.index);
    assert |others| == c.n - 1;
    forall j | j in mine
      ensures j in others
    {
      UpToExact(c.n, j);
    }
    SameSize(mine, others);
    forall j | j in p.honest && j != c.index
      ensures j in mine
    {
      UpToExact(c.n, j);
    }
  }

  lemma HandleBacked(p: Params, net: set<Msg>, c: Config, s: Node, m: Msg)
    requires NodeInv(c, s) && AcksBacked(p, net, c, s) && s.epoch == m.epoch && m in net && 0 < m.from <= c.n && m.from != c.index
    ensures AcksBacked(p, net, c, Handle(c, s, m).0)
  {
    hide NodeInv;
    hide Handle;
    HandleKeeps(c, s, m);
    HandleAcks(c, s, m);
    assert m.body == Ack(c.index) ==> m == Msg(m.from, s.epoch, Ack(c.index));
  }

  lemma BumpBacked(p: Params, net: set<Msg>, c: Config, s: Node, epoch: nat, draw: Draw)
    requires AcksBacked(p, net, c, s)
    ensures AcksBacked(p, net, c, BumpEpoch(c, s, epoch, draw).0)
    ensures forall m :: m in BumpEpoch(c, s, epoch, draw).1 ==> m.from == c.index && !m.body.Ack?
  {
  }

  lemma MaybeFinalizeBacked(p: Params, net: set<Msg>, c: Config, s: Node, draw: Draw, sumOk: bool)
    requires AcksBacked(p, net, c, s)
    ensures AcksBacked(p, net, c, MaybeFinalize(c, s, draw, sumOk).0)
    ensures forall m :: m in MaybeFinalize(c, s, draw, sumOk).1 ==> m.from == c.index && !m.body.Ack?
  {
    hide AllReady;
    hide KeysReadable;
    hide BumpEpoch;
    BumpBacked(p, net, c, s, NextEpoch(s.epoch), draw);
  }

  /** Acknowledgements among the messages are settled at the node. */
  ghost predicate AcksSettled(c: Config, s': Node, out: set<Msg>) {
    forall m :: m in out && m.body.Ack? ==> Settled(s', m.body.dealer, m.epoch)
  }

  lemma DeliverBacked(p: Params, net: set<Msg>, c: Config, s: Node, m: Msg, draw1: Draw, draw2: Draw, sumOk: bool)
    requires ValidConfig(c) && NodeInv(c, s) && AcksBacked(p, net, c, s) && m in net
    requires ValidDraw(c, draw1) && ValidDraw(c, draw2)
    ensures AcksBacked(p, net, c, OnMessage(c, s, m, draw1, draw2, sumOk).0)
    ensures AcksSettled(c, OnMessage(c, s, m, draw1, draw2, sumOk).0, OnMessage(c, s, m, draw1, draw2, sumOk).1)
  {
    hide Sound;
    hide Results;
    hide AcksBacked;
    hide BumpEpoch;
    hide Handle;
    hide MaybeFinalize;
    BumpEpochKeeps(c, s, m.epoch, draw1);
    BumpBacked(p, net, c, s, m.epoch, draw1);
    if 0 < m.from <= c.n && m.from != c.index && !s.fin.done && m.epoch >= s.epoch {
      var s1 := if m.epoch > s.epoch then BumpEpoch(c, s, m.epoch, draw1).0 else s;
      if m.epoch == s1.epoch {
        HandleKeeps(c, s1, m);
        HandleAcks(c, s1, m);
        HandleBacked(p, net, c, s1, m);
        var s2 := Handle(c, s1, m).0;
        MaybeFinalizeBacked(p, net, c, s2, draw2, sumOk);
        MaybeFinalizeOnward(c, s2, draw2, sumOk);
      }
    }
  }

  lemma RestartBacked(p: Params, net: set<Msg>, c: Config, s: Node, epoch: nat)
    requires NodeInv(c, s) && AcksBacked(p, net, c, s) && s.epoch > 0
    ensures AcksBacked(p, net, c, Reopen(c, epoch, s.fin.store, Persist(s)))
  {
    hide Sound;
    hide Restore;
    if s.fin.done {
      RestoreDone(c, s);
    } else {
      RestoreRoundTrip(c, s);
      assert Bucket(NonEmpty(s.acks), c.index) == Bucket(s.acks, c.index);
    }
  }

  lemma StepBacked(p: Params, net: set<Msg>, c: Config, s: Node, e: Event)
    requires ValidConfig(c) && NodeInv(c, s) && AcksBacked(p, net, c, s) && s.epoch > 0 && ValidEvent(c, s, e)
    requires e.Deliver? ==> e.msg in net
    ensures AcksBacked(p, net, c, Step(c, s, e).0) && AcksSettled(c, Step(c, s, e).0, Step(c, s, e).1)
  {
    hide NodeInv;
    hide OnMessage;
    hide BumpEpoch;
    hide Reopen;
    if !s.fin.idle || e.Restart? {
      match e
      case Start(draw) =>
      case Deliver(m, draw1, draw2, sumOk) => DeliverBacked(p, net, c, s, m, draw1, draw2, sumOk);
      case Timeout(draw) => BumpBacked(p, net, c, s, NextEpoch(s.epoch), draw);
      case Retry =>
      case Saved(k) =>
      case Published(k) =>
      case Restart(epoch) => RestartBacked(p, net, c, s, epoch);
    }
  }

  /** A result computed in this step was acknowledged by everybody. */
  lemma BornAcked(p: Params, net: set<Msg>, c: Config, s: Node, e: Event, t: Ticket)
    requires ValidParams(p) && c == ConfigOf(p, c.index) && c.index in p.honest
    requires NodeInv(c, s) && AcksBacked(p, net, c, s) && Born(c, s, e, t) && e.msg in net
    ensures Acked(p, net, c.index, t)
  {
    hide Sound;
    hide Results;
    hide Handle;
    hide AllReady;
    hide KeysReadable;
    hide NewTicket;
    hide Step;
    var s1 := BumpEpoch(c, s, e.msg.epoch, e.draw1).0;
    BumpEpochKeeps(c, s, e.msg.epoch, e.draw1);
    BumpBacked(p, net, c, s, e.msg.epoch, e.draw1);
    hide BumpEpoch;
    HandleBacked(p, net, c, s1, e.msg);
    HandleKeeps(c, s1, e.msg);
    EveryoneAcked(p, net, c, Handle(c, s1, e.msg).0);
  }

  lemma StepAcks(p: Params, net: set<Msg>, c: Config, s: Node, e: Event)
    requires ValidParams(p) && c == ConfigOf(p, c.index) && c.index in p.honest
    requires NodeAcks(p, net, c, s) && ValidEvent(c, s, e) && (e.Deliver? ==> e.msg in net)
    ensures NodeAcks(p, net, c, Step(c, s, e).0) && AcksSettled(c, Step(c, s, e).0, Step(c, s, e).1)
  {
    hide Sound;
    hide Results;
    hide AcksBacked;
    hide Acked;
    hide Step;
    hide Born;
    StepKeeps(c, s, e);
    ProgressExact(c, s, e);
    StepPlaced(c, s, e);
    StepBacked(p, net, c, s, e);
    forall t | Held(Step(c, s, e).0, t)
      ensures Acked(p, net, c.index, t)
    {
      if !Held(s, t) {
        if e.Deliver? {
          DeliverHolds(c, s, e, t);
          BornAcked(p, net, c, s, e, t);
        } else {
          QuietHolds(c, s, e, t);
        }
      }
    }
  }

  // ----- the whole system

  lemma NodeAcksGrow(p: Params, net: set<Msg>, net': set<Msg>, c: Config, s: Node)
    requires NodeAcks(p, net, c, s) && net <= net'
    ensures NodeAcks(p, net', c, s)
  {
    hide NodeInv;
    forall t | Acked(p, net, c.index, t)
      ensures Acked(p, net', c.index, t)
    {
    }
  }

  lemma ActAcks(p: Params, s: System, a: Action)
    requires ValidParams(p) && AckInv(p, s) && Enabled(p, s, a)
    ensures AckInv(p, Act(p, s, a))
  {
    hide NodeInv;
    hide Step;
    hide NotedBy;
    hide Settled;
    var s' := Act(p, s, a);
    match a
    case Local(i, event) =>
      var c := ConfigOf(p, i);
      StepAcks(p, s.net, c, s.nodes[i], event);
      StepOnward(c, s.nodes[i], event);
      var (node, out) := Step(c, s.nodes[i], event);
      StepSender(c, s.nodes[i], event);
      forall j | j in p.honest
        ensures NodeAcks(p, s'.net, ConfigOf(p, j), s'.nodes[j])
      {
        NodeAcksGrow(p, s.net, s'.net, ConfigOf(p, j), s'.nodes[j]);
      }
      forall m | m in s'.net && m.from in p.honest && m.body.Ack?
        ensures Settled(s'.nodes[m.from], m.body.dealer, m.epoch)
      {
        if m in s.net && m.from == i {
          SettledStays(s.nodes[i], node, m.body.dealer, m.epoch);
        }
      }
    case Dishonest(m) =>
      forall j | j in p.honest
        ensures NodeAcks(p, s'.net, ConfigOf(p, j), s'.nodes[j])
      {
        NodeAcksGrow(p, s.net, s'.net, ConfigOf(p, j), s'.nodes[j]);
      }
  }

  /** A node sends under its own name. */
  lemma StepSender(c: Config, s: Node, e: Event)
    requires NodeInv(c, s) && ValidConfig(c) && ValidEvent(c, s, e)
    ensures forall m :: m in Step(c, s, e).1 ==> m.from == c.index
  {
    if e.Deliver? {
      OnMessageSender(c, s, e.msg, e.draw1, e.draw2, e.sumOk);
    }
    hide NodeInv;
    hide OnMessage;
    hide Reopen;
  }

  lemma OnMessageSender(c: Config, s: Node, m: Msg, draw1: Draw, draw2: Draw, sumOk: bool)
    requires NodeInv(c, s) && ValidConfig(c) && ValidDraw(c, draw1) && ValidDraw(c, draw2)
    ensures forall m' :: m' in OnMessage(c, s, m, draw1, draw2, sumOk).1 ==> m'.from == c.index
  {
    hide Sound;
    hide Results;
    hide BumpEpoch;
    hide Handle;
    hide MaybeFinalize;
    BumpEpochKeeps(c, s, m.epoch, draw1);
    BumpSender(c, s, m.epoch, draw1);
    if 0 < m.from <= c.n && m.from != c.index && !s.fin.done && m.epoch >= s.epoch {
      var s1 := if m.epoch > s.epoch then BumpEpoch(c, s, m.epoch, draw1).0 else s;
      if m.epoch == s1.epoch {
        HandleSender(c, s1, m);
        MaybeFinalizeSender(c, Handle(c, s1, m).0, draw2, sumOk);
      }
    }
  }

  lemma BumpSender(c: Config, s: Node, epoch: nat, draw: Draw)
    ensures forall m :: m in BumpEpoch(c, s, epoch, draw).1 ==> m.from == c.index
  {
  }

  lemma MaybeFinalizeSender(c: Config, s: Node, draw: Draw, sumOk: bool)
    ensures forall m :: m in MaybeFinalize(c, s, draw, sumOk).1 ==> m.from == c.index
  {
    hide BumpEpoch;
    hide Finalize;
    BumpSender(c, s, NextEpoch(s.epoch), draw);
  }

  lemma HandleSender(c: Config, s: Node, m: Msg)
    requires PendingKinds(c, s) && s.epoch == m.epoch
    ensures forall m' :: m' in Handle(c, s, m).1 ==> m'.from == c.index
  {
    hide FeldmanCheck;
    hide WithoutComplaint;
    hide Disqualify;
    hide Bucket;
  }

  lemma {:induction false} AckInvariant(p: Params, states: seq<System>, actions: seq<Action>, k: nat)
    requires ValidParams(p) && SystemRun(p, states, actions) && k < |states|
    ensures AckInv(p, states[k])
  {
    hide Act;
    if k == 0 {
      AckInitial(p, states[0]);
    } else {
      hide AckInv;
      AckInvariant(p, states, actions, k - 1);
      ActAcks(p, states[k - 1], actions[k - 1]);
    }
  }

  lemma AckInitial(p: Params, s: System)
    requires ValidParams(p) && Initial(p, s)
    ensures AckInv(p, s)
  {
    forall i | i in p.honest
      ensures NodeInv(ConfigOf(p, i), s.nodes[i])
    {
      FreshSound(ConfigOf(p, i), s.nodes[i].epoch, NOT_DONE);
    }
    hide NodeInv;
  }

  /** In every run, once an honest dealer has finished, each other honest participant has its
      commitments of that epoch, or has finished itself or moved to a later epoch. */
  lemma FinishedDealerKnown(p: Params, s: System, i: int, j: int)
    requires ValidParams(p) && AckInv(p, s) && i in p.honest && j in p.honest && i != j
    requires s.nodes[i].fin.done && !s.nodes[i].fin.idle
    ensures Settled(s.nodes[j], i, s.nodes[i].epoch)
  {
    hide Settled;
    hide NodeInv;
    var t := s.nodes[i].fin.result.value;
    assert Held(s.nodes[i], t);
    assert Msg(j, t.epoch, Ack(i)) in s.net;
  }
}
