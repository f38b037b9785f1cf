/** The sum of the polynomials that the qualified dealers committed to. */
module JointPolynomial {
  import opened PrimeField
  import opened Interpolation
  import opened Curve
  import opened Outcomes
  import opened Feldman
  import opened DkgNode

  function Zeros(t: nat): (z: seq<int>)
    ensures |z| == t
  {
    seq(t, _ => 0)
  }

  function AddPoly(a: seq<int>, b: seq<int>): (r: seq<int>)
    requires |a| == |b|
    ensures |r| == |a|
  {
    seq(|a|, i requires 0 <= i < |a| => a[i] + b[i])
  }

  lemma ZerosAt(t: nat, x: int)
    ensures PolyAt(Zeros(t), x) == 0
  {
    if t > 0 {
      assert Zeros(t)[..t - 1] == Zeros(t - 1);
      ZerosAt(t - 1, x);
    }
  }

  lemma AddPolyAt(a: seq<int>, b: seq<int>, x: int)
    requires |a| == |b|
    ensures PolyAt(AddPoly(a, b), x) == PolyAt(a, x) + PolyAt(b, x)
  {
    if a != [] {
      var n := |a| - 1;
      assert AddPoly(a, b)[..n] == AddPoly(a[..n], b[..n]);
      AddPolyAt(a[..n], b[..n], x);
      Distribute(a[n], b[n], Pow(x, n));
    }
  }

  lemma Distribute(a: int, b: int, y: int)
    ensures (a + b) * y == a * y + b * y
  {
  }

  /** Every qualified dealer's commitments are t points. */
  ghost predicate Committed(n: int, excluded: set<int>, coms: map<int, seq<Compressed>>, t: nat) {
    forall d :: 0 < d <= n && Qualified(n, excluded, d) ==> d in coms && |coms[d]| == t && AllPoints(coms[d])
  }

  /** The sum of the polynomials committed to by the qualified dealers. */
  ghost function JointPoly(n: int, excluded: set<int>, coms: map<int, seq<Compressed>>, t: nat): (r: seq<int>)
    requires Committed(n, excluded, coms, t)
    ensures |r| == t
  {
    if n <= 0 then Zeros(t)
    else
      assert forall d :: Qualified(n - 1, excluded, d) ==> Qualified(n, excluded, d);
      var rest := JointPoly(n - 1, excluded, coms, t);
      if Qualified(n, excluded, n) then AddPoly(rest, Logs(coms[n])) else rest
  }

  lemma {:induction false} JointKey(n: int, excluded: set<int>, coms: map<int, seq<Compressed>>, t: nat)
    requires t > 0 && Committed(n, excluded, coms, t)
    ensures KeysReadable(n, excluded, coms)
    ensures KeySum(n, excluded, coms) == JointPoly(n, excluded, coms, t)[0]
  {
    if n > 0 {
      assert forall d :: Qualified(n - 1, excluded, d) ==> Qualified(n, excluded, d);
      JointKey(n - 1, excluded, coms, t);
    }
  }

  /** Shares that verify against the commitments add up to a share of the joint polynomial. */
  lemma {:induction false} JointShare(
      n: int, excluded: set<int>, coms: map<int, seq<Compressed>>, t: nat, shares: map<int, Scalar>, x: int)
    requires t > 0 && x > 0 && Committed(n, excluded, coms, t) && SharesPresent(n, excluded, shares)
    requires forall d :: 0 < d <= n && Qualified(n, excluded, d) ==>
      FeldmanCheck(shares[d], x, coms[d]) == Ok(true)
    ensures Cong(ShareSum(n, excluded, shares), PolyAt(JointPoly(n, excluded, coms, t), x))
  {
    if n <= 0 {
      ZerosAt(t, x);
    } else {
      assert forall d :: Qualified(n - 1, excluded, d) ==> Qualified(n, excluded, d);
      JointShare(n - 1, excluded, coms, t, shares, x);
      if Qualified(n, excluded, n) {
        var rest := JointPoly(n - 1, excluded, coms, t);
        AddPolyAt(rest, Logs(coms[n]), x);
        DealerShare(shares[n], x, coms[n]);
        CongAdd(ShareSum(n - 1, excluded, shares), PolyAt(rest, x), shares[n], PolyAt(Logs(coms[n]), x));
      }
    }
  }

  lemma DealerShare(share: Scalar, x: int, com: seq<Compressed>)
    requires FeldmanCheck(share, x, com) == Ok(true)
    ensures AllPoints(com) && Cong(share, PolyAt(Logs(com), x))
  {
  }

  /** Two sets of excluded participants leave the same dealers qualified. */
  ghost predicate SameQual(n: int, x: set<int>, y: set<int>) {
    forall d :: 0 < d <= n ==> (Qualified(n, x, d) <==> Qualified(n, y, d))
  }

  lemma SameQualBelow(n: int, m: int, x: set<int>, y: set<int>)
    requires m <= n && SameQual(n, x, y)
    ensures SameQual(m, x, y)
  {
    assert forall d :: 0 < d <= m ==> (Qualified(m, x, d) <==> Qualified(n, x, d));
    assert forall d :: 0 < d <= m ==> (Qualified(m, y, d) <==> Qualified(n, y, d));
  }

  lemma {:induction false} JointFrame(
      n: int, x: set<int>, y: set<int>, a: map<int, seq<Compressed>>, b: map<int, seq<Compressed>>, t: nat)
    requires Committed(n, x, a, t) && SameQual(n, x, y)
    requires forall d :: 0 < d <= n && Qualified(n, x, d) ==> d in b && a[d] == b[d]
    ensures Committed(n, y, b, t) && JointPoly(n, x, a, t) == JointPoly(n, y, b, t)
  {
    if n > 0 {
      assert forall d :: Qualified(n - 1, x, d) ==> Qualified(n, x, d);
      SameQualBelow(n, n - 1, x, y);
      JointFrame(n - 1, x, y, a, b, t);
    }
  }

  /** The group key commits to the constant term of the sum of the committed polynomials
      of enough dealers, and the key share is the participant's share of that sum. */
  ghost predicate TicketSound(c: Config, t: Ticket) {
    && c.threshold > 0 && QualSize(c.n, t.excluded) >= c.threshold
    && Committed(c.n, t.excluded, t.coms, c.threshold)
    && var joint := JointPoly(c.n, t.excluded, t.coms, c.threshold);
    t.gpk == Reduce(joint[0]) && t.share == Reduce(PolyAt(joint, c.index))
  }
}

/** What every step of a node keeps, whatever messages arrive in whatever order. */
module DkgInvariant {
  import opened PrimeField
  import opened Curve
  import opened Outcomes
  import opened Feldman
  import opened DkgNode
  import opened JointPolynomial

  /** Stored commitments have exactly threshold points, and come from a dealer. */
  ghost predicate CommitmentsOk(c: Config, s: Node) {
    forall d :: d in s.commitments ==>
      0 < d <= c.n && |s.commitments[d]| == c.threshold && AllPoints(s.commitments[d])
  }

  /** Every held share verifies at the node's own index. */
  ghost predicate SharesOk(c: Config, s: Node) {
    forall d :: d in s.shares ==>
      d in s.commitments && FeldmanCheck(s.shares[d], c.index, s.commitments[d]) == Ok(true)
  }

  ghost predicate OwnPolyOk(c: Config, s: Node) {
    if s.coeffs == [] then s.selfCommitments == [] && c.index !in s.commitments
    else
      && |s.coeffs| == c.threshold && s.selfCommitments == Commit(s.coeffs)
      && c.index in s.commitments && s.commitments[c.index] == s.selfCommitments
      && c.index in s.shares
  }

  /** The evidence of the current epoch is in order. */
  ghost predicate Sound(c: Config, s: Node) {
    CommitmentsOk(c, s) && SharesOk(c, s) && OwnPolyOk(c, s)
  }

  /** Every result, published, stored or in flight, is sound. */
  ghost predicate Results(c: Config, f: Finish) {
    && (f.done <==> f.result.Some?)
    && (f.result.Some? ==> TicketSound(c, f.result.value))
    && (f.store.Some? ==> TicketSound(c, f.store.value))
    && (forall t :: t in f.inflight ==> TicketSound(c, t))
  }

  ghost predicate NodeInv(c: Config, s: Node) {
    && Sound(c, s) && PendingKinds(c, s) && Results(c, s.fin) && c.index !in s.bad
    && (s.fin.idle ==> s.fin.done && s.fin.store.Some? && s.coeffs == [])
  }

  /** A handler step: the invariant holds, commitments are not lost, and epoch, polynomial
      and results are untouched. */
  ghost predicate Handled(c: Config, s: Node, s': Node) {
    && NodeInv(c, s') && s.commitments.Keys <= s'.commitments.Keys
    && s'.epoch == s.epoch && s'.coeffs == s.coeffs && s'.selfCommitments == s.selfCommitments && s'.fin == s.fin
  }

  /** A step that touches neither commitments nor shares. */
  lemma SameEvidence(c: Config, s: Node, s': Node)
    requires NodeInv(c, s) && PendingKinds(c, s')
    requires s' == s.(pendingShare := s'.pendingShare, pendingOpen := s'.pendingOpen,
                      complaints := s'.complaints, acks := s'.acks, bad := s'.bad)
    requires c.index !in s'.bad
    ensures Handled(c, s, s')
  {
    hide FeldmanCheck;
    hide Results;
  }

  lemma DisqualifyFields(s: Node, d: int)
    ensures var s' := Disqualify(s, d);
            && s' == s.(bad := s'.bad, complaints := s'.complaints)
            && s.bad <= s'.bad <= s.bad + {d}
  {
    if d <= 0 || d in s.bad {
      assert Disqualify(s, d) == s;
    } else {
      assert Disqualify(s, d) == s.(bad := s.bad + {d}, complaints := s.complaints - {d});
    }
  }

  lemma DisqualifyKeeps(c: Config, s: Node, d: int)
    requires NodeInv(c, s) && d != c.index
    ensures Handled(c, s, Disqualify(s, d))
  {
    hide Sound;
    hide Disqualify;
    DisqualifyFields(s, d);
    SameEvidence(c, s, Disqualify(s, d));
  }

  lemma RecordAckKeeps(c: Config, s: Node, d: int, who: int)
    requires NodeInv(c, s)
    ensures Handled(c, s, RecordAck(s, d, who))
  {
    hide Sound;
    SameEvidence(c, s, RecordAck(s, d, who));
  }

  lemma RecordComplaintKeeps(c: Config, s: Node, d: int, who: int)
    requires NodeInv(c, s)
    ensures Handled(c, s, RecordComplaint(s, d, who))
  {
    hide Sound;
    SameEvidence(c, s, RecordComplaint(s, d, who));
  }

  lemma AddCommitmentKeeps(c: Config, s: Node, from: int, points: seq<Compressed>)
    requires NodeInv(c, s) && 0 < from <= c.n && from != c.index && from !in s.commitments
    requires |points| == c.threshold && AllPoints(points)
    ensures Handled(c, s, s.(commitments := s.commitments[from := points]))
  {
    hide FeldmanCheck;
    hide Results;
  }

  lemma OnCommitmentsKeeps(c: Config, s: Node, from: int, points: seq<Compressed>)
    requires NodeInv(c, s) && 0 < from <= c.n && from != c.index
    ensures Handled(c, s, OnCommitments(c, s, from, points))
  {
    hide Sound;
    SameEvidence(c, s, s);
    if points == [] {
    } else if |points| != c.threshold || !AllPoints(points) {
      DisqualifyKeeps(c, s, from);
    } else if from !in s.bad && from !in s.commitments {
      AddCommitmentKeeps(c, s, from, points);
    }
  }

  lemma HandledTrans(c: Config, a: Node, b: Node, d: Node)
    requires Handled(c, a, b) && Handled(c, b, d)
    ensures Handled(c, a, d)
  {
  }

  lemma AddShareKeeps(c: Config, s: Node, d: int, v: Scalar, s1: Node)
    requires NodeInv(c, s) && d !in s.shares && d in s.commitments
    requires FeldmanCheck(v, c.index, s.commitments[d]) == Ok(true)
    requires s1 == s.(pendingShare := s1.pendingShare, pendingOpen := s1.pendingOpen,
                      complaints := s1.complaints, shares := s.shares[d := v])
    requires PendingKinds(c, s1)
    ensures Handled(c, s, s1)
  {
    hide FeldmanCheck;
    hide Results;
  }

  ghost predicate OnlyShares(s: Node, s': Node) {
    s' == s.(pendingShare := s'.pendingShare, shares := s'.shares, acks := s'.acks, complaints := s'.complaints)
  }

  lemma RecordFields(s: Node, d: int, who: int)
    ensures OnlyShares(s, RecordAck(s, d, who)) && OnlyShares(s, RecordComplaint(s, d, who)) && OnlyShares(s, s)
  {
    hide WithoutComplaint;
    hide Bucket;
  }

  lemma OnShareCases(c: Config, s: Node, m: Msg)
    requires m.body.EncShare?
    ensures OnlyShares(s, OnShare(c, s, m).0)
  {
    var d := m.from;
    RecordFields(s, d, c.index);
    hide FeldmanCheck;
    hide RecordAck;
    hide RecordComplaint;
    if d in s.bad {
    } else if d !in s.commitments || s.commitments[d] == [] {
      assert OnShare(c, s, m).0 == s.(pendingShare := s.pendingShare[d := m]);
    } else if d in s.shares {
    } else if m.body.plain.NoKey? {
    } else if m.body.plain.Garbled? || FeldmanCheck(m.body.plain.value, c.index, s.commitments[d]) != Ok(true) {
      assert OnShare(c, s, m).0 == RecordComplaint(s, d, c.index);
    } else {
      var s1 := s.(pendingShare := s.pendingShare - {d}, shares := s.shares[d := m.body.plain.value]);
      assert OnShare(c, s, m).0 == RecordAck(s1, d, c.index);
      RecordFields(s1, d, c.index);
    }
  }

  lemma AcceptShareKeeps(c: Config, s: Node, d: int, v: Scalar)
    requires NodeInv(c, s) && d !in s.shares && d in s.commitments
    requires FeldmanCheck(v, c.index, s.commitments[d]) == Ok(true)
    ensures Handled(c, s, RecordAck(s.(pendingShare := s.pendingShare - {d}, shares := s.shares[d := v]), d, c.index))
  {
    hide Sound;
    hide FeldmanCheck;
    var s1 := s.(pendingShare := s.pendingShare - {d}, shares := s.shares[d := v]);
    AddShareKeeps(c, s, d, v, s1);
    RecordAckKeeps(c, s1, d, c.index);
    HandledTrans(c, s, s1, RecordAck(s1, d, c.index));
  }

  lemma OnShareKeeps(c: Config, s: Node, m: Msg)
    requires NodeInv(c, s) && m.body.EncShare? && m.epoch == s.epoch
    ensures Handled(c, s, OnShare(c, s, m).0)
  {
    hide Sound;
    hide FeldmanCheck;
    var d := m.from;
    SameEvidence(c, s, s);
    if d in s.bad {
    } else if d !in s.commitments || s.commitments[d] == [] {
      SameEvidence(c, s, OnShare(c, s, m).0);
    } else if d in s.shares || m.body.plain.NoKey? {
    } else if m.body.plain.Garbled? || FeldmanCheck(m.body.plain.value, c.index, s.commitments[d]) != Ok(true) {
      RecordComplaintKeeps(c, s, d, c.index);
    } else {
      AcceptShareKeeps(c, s, d, m.body.plain.value);
    }
  }

  lemma OnShareOpenKeeps(c: Config, s: Node, m: Msg)
    requires NodeInv(c, s) && m.body.ShareOpen? && m.epoch == s.epoch && m.from != c.index
    ensures Handled(c, s, OnShareOpen(c, s, m).0)
  {
    hide Sound;
    hide FeldmanCheck;
    var d, to, content := m.from, m.body.to, m.body.content;
    SameEvidence(c, s, s);
    if to <= 0 || to > c.n {
    } else if content.WrongSize? {
      DisqualifyKeeps(c, s, d);
    } else if d in s.bad {
    } else if d !in s.commitments || s.commitments[d] == [] {
      SameEvidence(c, s, OnShareOpen(c, s, m).0);
    } else if content.NotScalar? || FeldmanCheck(content.value, to, s.commitments[d]) != Ok(true) {
      DisqualifyKeeps(c, s, d);
    } else {
      AcceptOpenKeeps(c, s, d, to, content.value);
    }
  }

  lemma AcceptOpenKeeps(c: Config, s: Node, d: int, to: int, v: Scalar)
    requires NodeInv(c, s) && d in s.commitments && FeldmanCheck(v, to, s.commitments[d]) == Ok(true)
    ensures var s1 := s.(pendingOpen := s.pendingOpen - {d}, complaints := WithoutComplaint(s.complaints, d, to));
            && Handled(c, s, s1)
            && (to == c.index ==>
                  Handled(c, s, RecordAck(if d in s1.shares then s1 else s1.(shares := s1.shares[d := v]), d, c.index)))
  {
    hide Sound;
    hide FeldmanCheck;
    var s1 := s.(pendingOpen := s.pendingOpen - {d}, complaints := WithoutComplaint(s.complaints, d, to));
    SameEvidence(c, s, s1);
    if to == c.index {
      var s2 := if d in s1.shares then s1 else s1.(shares := s1.shares[d := v]);
      if d !in s1.shares {
        AddShareKeeps(c, s1, d, v, s2);
      }
      RecordAckKeeps(c, s2, d, c.index);
    }
  }

  lemma TryProcessPendingKeeps(c: Config, s: Node, d: int)
    requires NodeInv(c, s) && d != c.index
    ensures Handled(c, s, TryProcessPending(c, s, d).0)
  {
    hide Sound;
    hide FeldmanCheck;
    var s1 := if d in s.pendingShare then OnShare(c, s, s.pendingShare[d]).0 else s;
    SameEvidence(c, s, s);
    if d in s.pendingShare {
      OnShareKeeps(c, s, s.pendingShare[d]);
    }
    if d in s1.pendingOpen {
      OnShareOpenKeeps(c, s1, s1.pendingOpen[d]);
    }
  }

  lemma HandleKeeps(c: Config, s: Node, m: Msg)
    requires NodeInv(c, s) && s.epoch == m.epoch && 0 < m.from <= c.n && m.from != c.index
    ensures Handled(c, s, Handle(c, s, m).0)
  {
    hide Sound;
    hide FeldmanCheck;
    SameEvidence(c, s, s);
    match m.body
    case Commitments(points) =>
      OnCommitmentsKeeps(c, s, m.from, points);
      var s1 := OnCommitments(c, s, m.from, points);
      TryProcessPendingKeeps(c, s1, m.from);
      HandledTrans(c, s, s1, TryProcessPending(c, s1, m.from).0);
    case EncShare(to, _) => OnShareKeeps(c, s, m);
    case ShareOpen(_, _) => OnShareOpenKeeps(c, s, m);
    case Ack(d) => RecordAckKeeps(c, s, d, m.from);
    case Complaint(d) => RecordComplaintKeeps(c, s, d, m.from);
    case Unknown =>
  }

  // ----- whole events

  /** What is not undone: the epoch does not decrease, and a finished node stays in its
      epoch, finished, with its result. */
  ghost predicate Progress(s: Node, s': Node) {
    && s.epoch <= s'.epoch
    && (s.fin.done ==> s'.fin.done && s'.fin.result == s.fin.result && s'.epoch == s.epoch)
  }

  lemma EnsureLocalPolyKeeps(c: Config, s: Node, draw: Draw)
    requires ValidConfig(c) && NodeInv(c, s) && !s.fin.idle && ValidDraw(c, draw)
    ensures NodeInv(c, EnsureLocalPoly(c, s, draw)) && Progress(s, EnsureLocalPoly(c, s, draw))
  {
    hide Results;
    var s' := EnsureLocalPoly(c, s, draw);
    if s.coeffs == [] && draw.Some? {
      FeldmanExact(draw.value, s'.shares[c.index], c.index);
    }
  }

  lemma BumpEpochKeeps(c: Config, s: Node, epoch: nat, draw: Draw)
    requires ValidConfig(c) && NodeInv(c, s) && ValidDraw(c, draw)
    ensures NodeInv(c, BumpEpoch(c, s, epoch, draw).0) && Progress(s, BumpEpoch(c, s, epoch, draw).0)
  {
    hide EnsureLocalPoly;
    if !(epoch == 0 || s.fin.done || epoch <= s.epoch) {
      EnsureLocalPolyKeeps(c, Reset(s, epoch), draw);
    }
  }

  /** A result computed from sound evidence is sound. */
  lemma NewTicketSound(c: Config, s: Node)
    requires ValidConfig(c) && Sound(c, s) && AllReady(c, s) && QualSize(c.n, s.bad) >= c.threshold
    requires KeysReadable(c.n, s.bad, s.commitments)
    ensures TicketSound(c, NewTicket(c, s))
  {
    hide FeldmanCheck;
    JointKey(c.n, s.bad, s.commitments, c.threshold);
    JointShare(c.n, s.bad, s.commitments, c.threshold, s.shares, c.index);
  }

  lemma FinalizeKeeps(c: Config, s: Node, sumOk: bool)
    requires ValidConfig(c) && NodeInv(c, s) && !s.fin.done
    ensures NodeInv(c, Finalize(c, s, sumOk)) && Progress(s, Finalize(c, s, sumOk))
  {
    hide TicketSound;
    hide AllReady;
    hide KeysReadable;
    if AllReady(c, s) && QualSize(c.n, s.bad) >= c.threshold && KeysReadable(c.n, s.bad, s.commitments) {
      NewTicketSound(c, s);
    }
  }

  lemma MaybeFinalizeKeeps(c: Config, s: Node, draw: Draw, sumOk: bool)
    requires ValidConfig(c) && NodeInv(c, s) && ValidDraw(c, draw)
    ensures NodeInv(c, MaybeFinalize(c, s, draw, sumOk).0) && Progress(s, MaybeFinalize(c, s, draw, sumOk).0)
  {
    hide NodeInv;
    hide Finalize;
    BumpEpochKeeps(c, s, NextEpoch(s.epoch), draw);
    if !s.fin.done {
      FinalizeKeeps(c, s, sumOk);
    }
  }

  lemma OnMessageKeeps(c: Config, s: Node, m: Msg, draw1: Draw, draw2: Draw, sumOk: bool)
    requires ValidConfig(c) && NodeInv(c, s) && ValidDraw(c, draw1) && ValidDraw(c, draw2)
    ensures NodeInv(c, OnMessage(c, s, m, draw1, draw2, sumOk).0) && Progress(s, OnMessage(c, s, m, draw1, draw2, sumOk).0)
  {
    hide Sound;
    hide Results;
    hide BumpEpoch;
    hide Handle;
    hide MaybeFinalize;
    BumpEpochKeeps(c, s, m.epoch, draw1);
    if 0 < m.from <= c.n && m.from != c.index && !s.fin.done && m.epoch >= s.epoch {
      var s1 := if m.epoch > s.epoch then BumpEpoch(c, s, m.epoch, draw1).0 else s;
      if m.epoch == s1.epoch {
        HandleKeeps(c, s1, m);
        MaybeFinalizeKeeps(c, Handle(c, s1, m).0, draw2, sumOk);
      }
    }
  }

  lemma FinishKeeps(c: Config, f: Finish, epoch: nat, k: nat)
    requires Results(c, f) && k < |f.inflight|
    ensures Results(c, Save(f, k)) && Results(c, Publish(f, epoch, k))
    ensures Save(f, k).idle == Publish(f, epoch, k).idle == f.idle && Save(f, k).done == f.done && Save(f, k).result == f.result
    ensures f.done ==> Publish(f, epoch, k).done && Publish(f, epoch, k).result == f.result
    ensures Save(f, k).store.Some? && Publish(f, epoch, k).store == f.store
  {
    hide TicketSound;
    assert f.inflight[k] in f.inflight;
  }

  lemma OtherFinish(c: Config, s: Node, f: Finish)
    requires NodeInv(c, s) && Results(c, f) && f.idle == s.fin.idle && (s.fin.done ==> f.done)
    requires s.fin.store.Some? ==> f.store.Some?
    ensures NodeInv(c, s.(fin := f))
  {
    hide Results;
    hide FeldmanCheck;
  }

  // ----- restarts

  /** A session saved and taken up again is the node it came from, up to messages that
      wait for commitments. */
  lemma RestoreRoundTrip(c: Config, s: Node)
    requires NodeInv(c, s) && !s.fin.done
    ensures Restore(c, Persist(s)) == Fresh(s.epoch).(coeffs := s.coeffs, selfCommitments := s.selfCommitments,
      commitments := s.commitments, shares := s.shares, acks := NonEmpty(s.acks), complaints := NonEmpty(s.complaints),
      bad := Positive(s.bad))
  {
    hide FeldmanCheck;
    assert OwnCommitments(c, Persist(s)) + s.commitments == s.commitments;
  }

  lemma FreshSound(c: Config, epoch: nat, f: Finish)
    requires Results(c, f) && (f.idle ==> f.done && f.store.Some?)
    ensures NodeInv(c, Fresh(epoch).(fin := f))
  {
    hide TicketSound;
  }

  lemma ReopenKeeps(c: Config, s: Node, epoch: nat)
    requires NodeInv(c, s)
    ensures NodeInv(c, Reopen(c, epoch, s.fin.store, Persist(s)))
  {
    hide TicketSound;
    hide FeldmanCheck;
    if s.fin.store.Some? || s.epoch == 0 || s.fin.done {
      FreshSound(c, Reopen(c, epoch, s.fin.store, Persist(s)).epoch, Reopen(c, epoch, s.fin.store, Persist(s)).fin);
    } else {
      RestoreRoundTrip(c, s);
      hide Restore;
    }
  }

  /** Every event keeps the invariant. */
  lemma StepKeeps(c: Config, s: Node, e: Event)
    requires ValidConfig(c) && NodeInv(c, s) && ValidEvent(c, s, e)
    ensures NodeInv(c, Step(c, s, e).0)
    ensures !e.Restart? ==> Progress(s, Step(c, s, e).0)
  {
    hide Sound;
    hide Results;
    hide OnMessage;
    hide BumpEpoch;
    hide Reopen;
    hide EnsureLocalPoly;
    if !s.fin.idle || e.Restart? {
      match e
      case Start(draw) => EnsureLocalPolyKeeps(c, s, draw);
      case Deliver(m, draw1, draw2, sumOk) => OnMessageKeeps(c, s, m, draw1, draw2, sumOk);
      case Timeout(draw) => BumpEpochKeeps(c, s, NextEpoch(s.epoch), draw);
      case Retry =>
      case Saved(k) =>
        FinishKeeps(c, s.fin, s.epoch, k);
        OtherFinish(c, s, Save(s.fin, k));
      case Published(k) =>
        FinishKeeps(c, s.fin, s.epoch, k);
        OtherFinish(c, s, Publish(s.fin, s.epoch, k));
      case Restart(epoch) => ReopenKeeps(c, s, epoch);
    }
  }

  /** A restart that finds a key share moves the node to its configured epoch with the
      share found there. */
  ghost predicate Regresses(s: Node, e: Event) {
    && e.Restart? && s.fin.store.Some?
    && (Configured(e.epoch) < s.epoch || (s.fin.done && (Configured(e.epoch) != s.epoch || s.fin.result != s.fin.store)))
  }

  /** Nothing is ever undone except by such a restart: an event fails to make progress if
      and only if it is a restart that finds a key share and is configured for an earlier
      epoch, or the node had finished in another epoch or with another result. */
  lemma ProgressExact(c: Config, s: Node, e: Event)
    requires ValidConfig(c) && NodeInv(c, s) && ValidEvent(c, s, e) && s.epoch > 0
    ensures Progress(s, Step(c, s, e).0) <==> !Regresses(s, e)
    ensures Step(c, s, e).0.epoch > 0
  {
    StepKeeps(c, s, e);
    if e.Restart? && s.fin.store.None? && !s.fin.done {
      RestoreRoundTrip(c, s);
    }
  }

  // ----- no commitments are lost within an epoch

  /** From s on to s': finished stays finished, and an unfinished node goes to a later epoch
      or keeps the dealers whose commitments it has. */
  ghost predicate Onward(s: Node, s': Node) {
    && (s.fin.done ==> s'.fin.done)
    && (s'.fin.done || s'.epoch > s.epoch || (s'.epoch == s.epoch && s.commitments.Keys <= s'.commitments.Keys))
  }

  lemma MaybeFinalizeOnward(c: Config, s: Node, draw: Draw, sumOk: bool)
    ensures Onward(s, MaybeFinalize(c, s, draw, sumOk).0)
  {
    hide AllReady;
    hide KeysReadable;
  }

  lemma OnMessageOnward(c: Config, s: Node, m: Msg, draw1: Draw, draw2: Draw, sumOk: bool)
    requires ValidConfig(c) && NodeInv(c, s) && ValidDraw(c, draw1) && ValidDraw(c, draw2)
    ensures Onward(s, OnMessage(c, s, m, draw1, draw2, sumOk).0)
  {
    hide Sound;
    hide Results;
    hide Handle;
    hide MaybeFinalize;
    BumpEpochKeeps(c, s, m.epoch, draw1);
    if 0 < m.from <= c.n && m.from != c.index && !s.fin.done && m.epoch >= s.epoch {
      var s1 := if m.epoch > s.epoch then BumpEpoch(c, s, m.epoch, draw1).0 else s;
      if m.epoch == s1.epoch {
        HandleKeeps(c, s1, m);
        MaybeFinalizeOnward(c, Handle(c, s1, m).0, draw2, sumOk);
      }
    }
  }

  lemma StepOnward(c: Config, s: Node, e: Event)
    requires ValidConfig(c) && NodeInv(c, s) && ValidEvent(c, s, e) && s.epoch > 0
    ensures Onward(s, Step(c, s, e).0)
  {
    hide Sound;
    hide TicketSound;
    hide OnMessage;
    hide Restore;
    if !s.fin.idle || e.Restart? {
      match e
      case Start(draw) =>
      case Deliver(m, draw1, draw2, sumOk) => OnMessageOnward(c, s, m, draw1, draw2, sumOk);
      case Timeout(draw) =>
      case Retry =>
      case Saved(k) =>
      case Published(k) =>
      case Restart(epoch) =>
        if s.fin.done {
          RestoreDone(c, s);
        } else {
          RestoreRoundTrip(c, s);
        }
    }
  }

  lemma RestoreDone(c: Config, s: Node)
    requires s.fin.done && s.fin.result.Some?
    ensures Restore(c, Persist(s)) == Fresh(s.epoch).(fin := Finished(s.fin.result))
  {
  }

  /** The result of a finished process that is awake belongs to its epoch. */
  ghost predicate Placed(s: Node) {
    s.fin.done && !s.fin.idle ==> s.fin.result.Some? && s.fin.result.value.epoch == s.epoch
  }

  lemma EnsureLocalPolyFin(c: Config, s: Node, draw: Draw)
    ensures EnsureLocalPoly(c, s, draw).fin == s.fin && EnsureLocalPoly(c, s, draw).epoch == s.epoch
  {
  }

  lemma StepPlaced(c: Config, s: Node, e: Event)
    requires ValidConfig(c) && NodeInv(c, s) && ValidEvent(c, s, e) && Placed(s) && s.epoch > 0
    ensures Placed(Step(c, s, e).0)
  {
    hide Sound;
    hide TicketSound;
    hide EnsureLocalPoly;
    hide OnMessage;
    hide Restore;
    if e.Deliver? {
      OnMessageStays(c, s, e.msg, e.draw1, e.draw2, e.sumOk);
    } else if e.Start? || e.Timeout? {
      EnsureLocalPolyFin(c, s, e.draw);
      EnsureLocalPolyFin(c, Reset(s, NextEpoch(s.epoch)), e.draw);
    } else if e.Restart? {
      if s.fin.done {
        RestoreDone(c, s);
      } else {
        RestoreRoundTrip(c, s);
      }
    }
  }

  /** Handling messages never finishes a node, nor moves one that has. */
  lemma OnMessageStays(c: Config, s: Node, m: Msg, draw1: Draw, draw2: Draw, sumOk: bool)
    requires ValidConfig(c) && NodeInv(c, s) && ValidDraw(c, draw1) && ValidDraw(c, draw2)
    ensures var s' := OnMessage(c, s, m, draw1, draw2, sumOk).0; if s.fin.done then s' == s else !s'.fin.done
  {
    hide Sound;
    hide Results;
    hide Handle;
    hide AllReady;
    hide KeysReadable;
    BumpEpochKeeps(c, s, m.epoch, draw1);
    if 0 < m.from <= c.n && m.from != c.index && !s.fin.done && m.epoch >= s.epoch {
      var s1 := if m.epoch > s.epoch then BumpEpoch(c, s, m.epoch, draw1).0 else s;
      if m.epoch == s1.epoch {
        HandleKeeps(c, s1, m);
      }
    }
  }
}
