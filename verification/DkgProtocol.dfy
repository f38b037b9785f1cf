/** What honest participants can rely on. */
module DkgProtocol {
  import opened PrimeField
  import opened Interpolation
  import opened Curve
  import opened Outcomes
  import opened Feldman
  import opened DkgNode
  import opened DkgInvariant
  import opened JointPolynomial
  import opened DkgJointKey
  import opened DkgSystem
  import opened DkgAcks

  // ----- invariant

  /** What an honest dealer says is consistent with its polynomial of that epoch. */
  ghost predicate Consistent(p: Params, polys: Polys, m: Msg) {
    match m.body
    case Commitments(points) =>
      points == [] || ((m.from, m.epoch) in polys && points == Commit(polys[(m.from, m.epoch)]))
    case ShareOpen(to, content) =>
      0 < to <= p.n && (m.from, m.epoch) in polys && content == Opened(Reduce(PolyAt(polys[(m.from, m.epoch)], to)))
    case _ => true
  }

  /** Well-formed commitments, of whatever polynomial. */
  ghost predicate Announces(p: Params, m: Msg) {
    m.body.Commitments? && (m.body.points == [] || (|m.body.points| == p.threshold && AllPoints(m.body.points)))
  }

  /** A message that cannot mislead the node about its sender: consistent, or commitments
      that come too late to be taken. */
  ghost predicate Harmless(p: Params, polys: Polys, s: Node, m: Msg) {
    Consistent(p, polys, m) || (Announces(p, m) && Settled(s, m.from, m.epoch))
  }

  /** A node holds nothing against dealer i and, until it has finished, its true commitments. */
  ghost predicate TrustsDealer(p: Params, polys: Polys, s: Node, i: int) {
    i !in s.bad && (s.fin.done || Informed(p, polys, s, i))
  }

  ghost predicate Informed(p: Params, polys: Polys, s: Node, i: int) {
    && (i in s.commitments ==> (i, s.epoch) in polys && s.commitments[i] == Commit(polys[(i, s.epoch)]))
    && (i in s.pendingOpen ==> Consistent(p, polys, s.pendingOpen[i]))
  }

  ghost predicate Trusts(p: Params, polys: Polys, s: Node) {
    forall i :: i in p.honest ==> TrustsDealer(p, polys, s, i)
  }

  ghost predicate Draws(p: Params, polys: Polys) {
    forall k :: k in polys ==> |polys[k]| == p.threshold
  }

  /** The node's own draws are on record; until it has finished, the recorded polynomial is
      the one it uses, and there is none for later epochs. */
  ghost predicate Recorded(c: Config, polys: Polys, s: Node) {
    (s.coeffs != [] ==> (c.index, s.epoch) in polys) && (s.fin.done || RecordedAwake(c, polys, s))
  }

  ghost predicate RecordedAwake(c: Config, polys: Polys, s: Node) {
    && (forall e :: (c.index, e) in polys ==> e <= s.epoch)
    && (if s.coeffs == [] then (c.index, s.epoch) !in polys
        else (c.index, s.epoch) in polys && polys[(c.index, s.epoch)] == s.coeffs)
  }

  /** A result leaves no honest dealer out and was computed from its true commitments. */
  ghost predicate Vouched(p: Params, polys: Polys, t: Ticket) {
    forall d :: d in p.honest ==>
      && d !in t.excluded && (d, t.epoch) in polys
      && d in t.coms && t.coms[d] == Commit(polys[(d, t.epoch)])
  }

  ghost predicate AllVouched(p: Params, polys: Polys, f: Finish) {
    && (f.result.Some? ==> Vouched(p, polys, f.result.value))
    && (f.store.Some? ==> Vouched(p, polys, f.store.value))
    && (forall t :: t in f.inflight ==> Vouched(p, polys, t))
  }

  ghost predicate SystemInv(p: Params, s: System) {
    && s.nodes.Keys == p.honest
    && Draws(p, s.polys)
    && (forall i :: i in p.honest ==>
          && NodeInv(ConfigOf(p, i), s.nodes[i])
          && Trusts(p, s.polys, s.nodes[i])
          && Recorded(ConfigOf(p, i), s.polys, s.nodes[i])
          && AllVouched(p, s.polys, s.nodes[i].fin))
    && (forall m, j :: m in s.net && m.from in p.honest && j in p.honest && j != m.from ==>
          Harmless(p, s.polys, s.nodes[j], m))
  }

  ghost predicate Extends(a: Polys, b: Polys) {
    forall k :: k in a ==> k in b && b[k] == a[k]
  }

  lemma TrustsExtend(p: Params, a: Polys, b: Polys, s: Node)
    requires Trusts(p, a, s) && Extends(a, b)
    ensures Trusts(p, b, s)
  {
  }

  lemma VouchedExtend(p: Params, a: Polys, b: Polys, f: Finish)
    requires AllVouched(p, a, f) && Extends(a, b)
    ensures AllVouched(p, b, f)
  {
    hide Commit;
    forall t | Vouched(p, a, t)
      ensures Vouched(p, b, t)
    {
    }
  }

  /** From a node in order and polynomials on record to the next such pair. */
  ghost predicate Ready(p: Params, c: Config, polys: Polys, s: Node) {
    NodeInv(c, s) && Trusts(p, polys, s) && Recorded(c, polys, s) && Draws(p, polys) && AllVouched(p, polys, s.fin)
  }

  ghost predicate Sends(p: Params, c: Config, polys: Polys, out: set<Msg>) {
    forall m :: m in out ==> m.from == c.index && Consistent(p, polys, m)
  }

  /** What a finished process may still announce is well-formed. */
  ghost predicate Emits(p: Params, c: Config, polys: Polys, s': Node, out: set<Msg>) {
    || Sends(p, c, polys, out)
    || (s'.fin.done && !s'.fin.idle && forall m :: m in out ==> m.from == c.index && m.epoch == s'.epoch && Announces(p, m))
  }

  /** From polys and s to polys' and s', sending out. */
  ghost predicate Steps(p: Params, c: Config, polys: Polys, polys': Polys, s': Node, out: set<Msg>) {
    Ready(p, c, polys', s') && Extends(polys, polys') && Sends(p, c, polys', out)
  }

  ghost predicate StepsTo(p: Params, c: Config, polys: Polys, polys': Polys, s': Node, out: set<Msg>) {
    Ready(p, c, polys', s') && Extends(polys, polys') && Emits(p, c, polys', s', out)
  }

  lemma OwnCommitmentsMsg(p: Params, c: Config, polys: Polys, s: Node)
    requires Ready(p, c, polys, s) && !s.fin.done
    ensures Sends(p, c, polys, {CommitmentsMsg(c, s)})
  {
  }

  /** An honest dealer's consistent message never disqualifies it. */
  lemma OnShareOpenTrusts(p: Params, c: Config, polys: Polys, s: Node, m: Msg, i: int)
    requires TrustsDealer(p, polys, s, i) && !s.fin.done && m.body.ShareOpen? && m.epoch == s.epoch && c.n == p.n
    requires m.from == i ==> Consistent(p, polys, m)
    requires Draws(p, polys) && p.threshold > 0
    ensures TrustsDealer(p, polys, OnShareOpen(c, s, m).0, i)
  {
    if m.from == i && !s.fin.done && i in s.commitments {
      OpenedShareVerifies(polys[(i, m.epoch)], m.body.to);
    }
    OnShareOpenCases(c, s, m);
    DisqualifyFields(s, m.from);
    var s' := OnShareOpen(c, s, m).0;
    hide *;
    TrustsAfterOpen(p, polys, s, s', m, i);
  }

  lemma TrustsAfterOpen(p: Params, polys: Polys, s: Node, s': Node, m: Msg, i: int)
    requires TrustsDealer(p, polys, s, i)
    requires m.from == i ==> Consistent(p, polys, m)
    requires s'.epoch == s.epoch && s'.commitments == s.commitments && s'.fin == s.fin && i !in s'.bad
    requires s'.pendingOpen == s.pendingOpen || s'.pendingOpen == s.pendingOpen[m.from := m]
             || s'.pendingOpen == s.pendingOpen - {m.from}
    ensures TrustsDealer(p, polys, s', i)
  {
    hide Consistent;
    hide Commit;
  }

  /** Why an opened share costs its dealer the qualification. */
  ghost predicate OpenRefuted(c: Config, s: Node, m: Msg)
    requires m.body.ShareOpen?
  {
    var d, content := m.from, m.body.content;
    content.WrongSize? ||
    (d in s.commitments && s.commitments[d] != [] &&
     (content.NotScalar? || FeldmanCheck(content.value, m.body.to, s.commitments[d]) != Ok(true)))
  }

  lemma OnShareOpenCases(c: Config, s: Node, m: Msg)
    requires m.body.ShareOpen?
    ensures var s', d := OnShareOpen(c, s, m).0, m.from;
            || s' == s
            || (s' == Disqualify(s, d) && OpenRefuted(c, s, m))
            || s' == s.(pendingOpen := s.pendingOpen[d := m])
            || s' == s.(pendingOpen := s.pendingOpen - {d}, complaints := s'.complaints, shares := s'.shares, acks := s'.acks)
  {
    hide Disqualify;
    hide WithoutComplaint;
    hide FeldmanCheck;
  }

  lemma OpenedShareVerifies(poly: seq<Scalar>, to: int)
    requires poly != [] && 0 < to
    ensures Commit(poly) != []
    ensures FeldmanCheck(Reduce(PolyAt(poly, to)), to, Commit(poly)) == Ok(true)
  {
    FeldmanExact(poly, Reduce(PolyAt(poly, to)), to);
  }

  lemma OnCommitmentsTrusts(p: Params, c: Config, polys: Polys, s: Node, m: Msg, i: int)
    requires TrustsDealer(p, polys, s, i) && !s.fin.done && m.body.Commitments? && m.epoch == s.epoch && c.threshold == p.threshold
    requires m.from == i ==> Harmless(p, polys, s, m)
    requires Draws(p, polys)
    ensures TrustsDealer(p, polys, OnCommitments(c, s, m.from, m.body.points), i)
  {
    DisqualifyFields(s, m.from);
    hide Disqualify;
  }

  lemma BumpReady(p: Params, c: Config, polys: Polys, s: Node, epoch: nat, draw: Draw)
    requires ValidParams(p) && c == ConfigOf(p, c.index) && c.index in p.honest
    requires Ready(p, c, polys, s) && ValidDraw(c, draw)
    ensures var (s', out) := BumpEpoch(c, s, epoch, draw);
            Steps(p, c, polys, Note(polys, c, s'), s', out)
  {
    hide CommitmentsOk;
    hide SharesOk;
    hide Results;
    hide Vouched;
    BumpEpochKeeps(c, s, epoch, draw);
    var (s', out) := BumpEpoch(c, s, epoch, draw);
    var polys' := Note(polys, c, s');
    TrustsExtend(p, polys, polys', s);
    VouchedExtend(p, polys, polys', s.fin);
    if out != {} {
      OwnCommitmentsMsg(p, c, polys', s');
    }
  }

  /** A new result vouches for the honest dealers. */
  lemma NewTicketVouched(p: Params, c: Config, polys: Polys, s: Node)
    requires ValidParams(p) && c.n == p.n && Trusts(p, polys, s) && !s.fin.done && AllReady(c, s) && KeysReadable(c.n, s.bad, s.commitments)
    ensures Vouched(p, polys, NewTicket(c, s))
  {
    hide Commit;
    hide Consistent;
    forall d | d in p.honest
      ensures d !in s.bad && d in s.commitments && (d, s.epoch) in polys && s.commitments[d] == Commit(polys[(d, s.epoch)])
    {
      assert TrustsDealer(p, polys, s, d);
      assert Qualified(c.n, s.bad, d);
    }
  }

  lemma FinalizeReady(p: Params, c: Config, polys: Polys, s: Node, sumOk: bool)
    requires ValidParams(p) && c == ConfigOf(p, c.index) && c.index in p.honest && Ready(p, c, polys, s) && !s.fin.done
    ensures Ready(p, c, polys, Finalize(c, s, sumOk))
  {
    hide Vouched;
    hide AllReady;
    hide KeysReadable;
    FinalizeKeeps(c, s, sumOk);
    if AllReady(c, s) && KeysReadable(c.n, s.bad, s.commitments) {
      NewTicketVouched(p, c, polys, s);
    }
    hide NodeInv;
    TrustsSame(p, polys, s, Finalize(c, s, sumOk));
  }

  lemma MaybeFinalizeReady(p: Params, c: Config, polys: Polys, s: Node, draw: Draw, sumOk: bool)
    requires ValidParams(p) && c == ConfigOf(p, c.index) && c.index in p.honest
    requires Ready(p, c, polys, s) && ValidDraw(c, draw)
    ensures var (s', out) := MaybeFinalize(c, s, draw, sumOk);
            Steps(p, c, polys, Note(polys, c, s'), s', out)
  {
    hide Ready;
    hide BumpEpoch;
    hide Finalize;
    if s.fin.done || s.fin.finalizing {
      NoteReady(p, c, polys, s);
    } else if c.n - |s.bad| < c.threshold {
      BumpReady(p, c, polys, s, NextEpoch(s.epoch), draw);
    } else {
      FinalizeReady(p, c, polys, s, sumOk);
      NoteReady(p, c, polys, Finalize(c, s, sumOk));
    }
  }

  // ----- handlers

  lemma TrustsSame(p: Params, polys: Polys, s: Node, s': Node)
    requires Trusts(p, polys, s)
    requires s'.epoch == s.epoch && s'.bad == s.bad && s'.commitments == s.commitments && s'.pendingOpen == s.pendingOpen
    requires s.fin.done ==> s'.fin.done
    ensures Trusts(p, polys, s')
  {
    hide Consistent;
    hide Commit;
    assert forall i :: i in p.honest ==> TrustsDealer(p, polys, s, i);
  }

  /** A handler leaves the node in order and sends nothing inconsistent. */
  ghost predicate Kept(p: Params, c: Config, polys: Polys, s: Node, s': Node, out: set<Msg>) {
    Ready(p, c, polys, s') && Handled(c, s, s') && Sends(p, c, polys, out)
  }

  lemma KeptIntro(p: Params, c: Config, polys: Polys, s: Node, s': Node, out: set<Msg>)
    requires Ready(p, c, polys, s) && Handled(c, s, s') && Trusts(p, polys, s')
    requires forall m :: m in out ==> m.from == c.index && (m.body.Ack? || m.body.Complaint?)
    ensures Kept(p, c, polys, s, s', out)
  {
    hide NodeInv;
    hide Trusts;
    hide Draws;
  }

  lemma OnShareReady(p: Params, c: Config, polys: Polys, s: Node, m: Msg)
    requires Ready(p, c, polys, s) && m.body.EncShare? && m.epoch == s.epoch
    ensures Kept(p, c, polys, s, OnShare(c, s, m).0, OnShare(c, s, m).1)
  {
    OnShareKeeps(c, s, m);
    OnShareCases(c, s, m);
    OnShareSends(c, s, m);
    var (s', out) := OnShare(c, s, m);
    assert s'.epoch == s.epoch && s'.bad == s.bad && s'.commitments == s.commitments && s'.pendingOpen == s.pendingOpen by {
      hide OnShare;
    }
    hide *;
    assert Ready(p, c, polys, s);
    TrustsReady(p, c, polys, s);
    TrustsSame(p, polys, s, s');
    KeptIntro(p, c, polys, s, s', out);
  }

  lemma TrustsReady(p: Params, c: Config, polys: Polys, s: Node)
    requires Ready(p, c, polys, s)
    ensures Trusts(p, polys, s) && NodeInv(c, s) && Draws(p, polys) && Recorded(c, polys, s)
  {
  }

  lemma OnShareSends(c: Config, s: Node, m: Msg)
    requires m.body.EncShare?
    ensures forall m' :: m' in OnShare(c, s, m).1 ==> m'.from == c.index && (m'.body.Ack? || m'.body.Complaint?)
  {
    hide WithoutComplaint;
    hide FeldmanCheck;
    hide Bucket;
  }

  lemma OnShareOpenReady(p: Params, c: Config, polys: Polys, s: Node, m: Msg)
    requires Ready(p, c, polys, s) && !s.fin.done && m.body.ShareOpen? && m.epoch == s.epoch && c.n == p.n && p.threshold > 0
    requires m.from != c.index
    requires m.from in p.honest ==> Consistent(p, polys, m)
    ensures Kept(p, c, polys, s, OnShareOpen(c, s, m).0, OnShareOpen(c, s, m).1)
  {
    OnShareOpenKeeps(c, s, m);
    var (s', out) := OnShareOpen(c, s, m);
    OnShareOpenAcks(c, s, m);
    TrustsReady(p, c, polys, s);
    forall i | i in p.honest
      ensures TrustsDealer(p, polys, s', i)
    {
      OnShareOpenTrusts(p, c, polys, s, m, i);
    }
    hide NodeInv;
    hide OnShareOpen;
    hide TrustsDealer;
    KeptIntro(p, c, polys, s, s', out);
  }

  lemma OnShareOpenAcks(c: Config, s: Node, m: Msg)
    requires m.body.ShareOpen?
    ensures forall m' :: m' in OnShareOpen(c, s, m).1 ==> m'.from == c.index && m'.body.Ack?
  {
    hide WithoutComplaint;
    hide Disqualify;
    hide FeldmanCheck;
  }

  lemma KeptTrans(p: Params, c: Config, polys: Polys, a: Node, b: Node, d: Node, out1: set<Msg>, out2: set<Msg>)
    requires Kept(p, c, polys, a, b, out1) && Kept(p, c, polys, b, d, out2)
    ensures Kept(p, c, polys, a, d, out1 + out2)
  {
    hide NodeInv;
    hide Trusts;
    hide Draws;
    hide Recorded;
    hide Consistent;
    HandledTrans(c, a, b, d);
  }

  lemma KeptRefl(p: Params, c: Config, polys: Polys, s: Node)
    requires Ready(p, c, polys, s)
    ensures Kept(p, c, polys, s, s, {})
  {
    SameEvidence(c, s, s);
  }

  lemma TryProcessPendingReady(p: Params, c: Config, polys: Polys, s: Node, d: int)
    requires Ready(p, c, polys, s) && !s.fin.done && c.n == p.n && p.threshold > 0 && d != c.index
    ensures Kept(p, c, polys, s, TryProcessPending(c, s, d).0, TryProcessPending(c, s, d).1)
  {
    var (s1, out1) := if d in s.pendingShare then OnShare(c, s, s.pendingShare[d]) else (s, {});
    hide OnShare;
    hide OnShareOpen;
    hide Consistent;
    KeptRefl(p, c, polys, s);
    if d in s.pendingShare {
      OnShareReady(p, c, polys, s, s.pendingShare[d]);
    }
    KeptRefl(p, c, polys, s1);
    if d in s1.pendingOpen {
      assert d in p.honest ==> TrustsDealer(p, polys, s1, d);
      OnShareOpenReady(p, c, polys, s1, s1.pendingOpen[d]);
      var (s2, out2) := OnShareOpen(c, s1, s1.pendingOpen[d]);
      KeptTrans(p, c, polys, s, s1, s2, out1, out2);
    } else {
      KeptTrans(p, c, polys, s, s1, s1, out1, {});
    }
  }

  lemma OnCommitmentsReady(p: Params, c: Config, polys: Polys, s: Node, m: Msg)
    requires Ready(p, c, polys, s) && !s.fin.done && m.body.Commitments? && m.epoch == s.epoch && c.threshold == p.threshold
    requires 0 < m.from <= c.n && m.from != c.index
    requires m.from in p.honest ==> Harmless(p, polys, s, m)
    ensures Kept(p, c, polys, s, OnCommitments(c, s, m.from, m.body.points), {})
  {
    OnCommitmentsKeeps(c, s, m.from, m.body.points);
    var s' := OnCommitments(c, s, m.from, m.body.points);
    TrustsReady(p, c, polys, s);
    forall i | i in p.honest
      ensures TrustsDealer(p, polys, s', i)
    {
      OnCommitmentsTrusts(p, c, polys, s, m, i);
    }
    hide NodeInv;
    hide OnCommitments;
    hide TrustsDealer;
    KeptIntro(p, c, polys, s, s', {});
  }

  lemma OnAckReady(p: Params, c: Config, polys: Polys, s: Node, from: int, d: int)
    requires Ready(p, c, polys, s)
    ensures Kept(p, c, polys, s, OnAck(c, s, from, d), {})
  {
    RecordAckKeeps(c, s, d, from);
    KeptRefl(p, c, polys, s);
    hide NodeInv;
    hide WithoutComplaint;
    var s' := RecordAck(s, d, from);
    TrustsSame(p, polys, s, s');
    KeptIntro(p, c, polys, s, s', {});
  }

  lemma OnComplaintReady(p: Params, c: Config, polys: Polys, s: Node, from: int, d: int)
    requires Ready(p, c, polys, s) && !s.fin.done && c.n == p.n
    ensures Kept(p, c, polys, s, OnComplaint(c, s, from, d).0, OnComplaint(c, s, from, d).1)
  {
    RecordComplaintKeeps(c, s, d, from);
    KeptRefl(p, c, polys, s);
    hide NodeInv;
    hide PolyAt;
    var s' := RecordComplaint(s, d, from);
    TrustsSame(p, polys, s, s');
    KeptIntro(p, c, polys, s, s', {});
  }

  lemma HandleReady(p: Params, c: Config, polys: Polys, s: Node, m: Msg)
    requires Ready(p, c, polys, s) && !s.fin.done && m.epoch == s.epoch && c == ConfigOf(p, c.index) && p.threshold > 0
    requires 0 < m.from <= c.n && m.from != c.index
    requires m.from in p.honest ==> Harmless(p, polys, s, m)
    ensures Kept(p, c, polys, s, Handle(c, s, m).0, Handle(c, s, m).1)
  {
    hide Sound;
    hide Results;
    match m.body
    case Commitments(points) =>
      OnCommitmentsReady(p, c, polys, s, m);
      var s1 := OnCommitments(c, s, m.from, points);
      TryProcessPendingReady(p, c, polys, s1, m.from);
      var (s2, out2) := TryProcessPending(c, s1, m.from);
      hide *;
      KeptTrans(p, c, polys, s, s1, s2, {}, out2);
      assert {} + out2 == out2;
      SendsMissing(p, c, polys, s, s2, out2);
    case EncShare(to, _) =>
      KeptRefl(p, c, polys, s);
      OnShareReady(p, c, polys, s, m);
    case ShareOpen(_, _) => OnShareOpenReady(p, c, polys, s, m);
    case Ack(d) => OnAckReady(p, c, polys, s, m.from, d);
    case Complaint(d) => OnComplaintReady(p, c, polys, s, m.from, d);
    case Unknown => KeptRefl(p, c, polys, s);
  }

  lemma SendsMissing(p: Params, c: Config, polys: Polys, s: Node, s': Node, out: set<Msg>)
    requires Kept(p, c, polys, s, s', out) && !s'.fin.done
    ensures Kept(p, c, polys, s, s', out + MissingShares(c, s'))
  {
    hide NodeInv;
    hide Trusts;
    hide PolyAt;
  }

  // ----- honest dealers get their shares accepted

  lemma ComplaintCleared(complaints: map<int, set<int>>, d: int, who: int)
    ensures who !in Bucket(WithoutComplaint(complaints, d, who), d)
  {
  }

  /** A true share of a dealer whose commitments are known is kept and acknowledged, and
      the receiver's complaint against the dealer is withdrawn. */
  lemma TrueShareAccepted(c: Config, s: Node, d: int, poly: seq<Scalar>, m: Msg)
    requires ValidConfig(c) && poly != [] && d !in s.bad && d in s.commitments && s.commitments[d] == Commit(poly) && d !in s.shares
    requires m == Msg(d, s.epoch, EncShare(c.index, Plain(Reduce(PolyAt(poly, c.index)))))
    ensures var (s', out) := OnShare(c, s, m);
            && d in s'.shares && s'.shares[d] == Reduce(PolyAt(poly, c.index))
            && c.index in Bucket(s'.acks, d) && c.index !in Bucket(s'.complaints, d)
            && out == {Msg(c.index, s.epoch, Ack(d))}
  {
    OpenedShareVerifies(poly, c.index);
    ComplaintCleared(s.complaints, d, c.index);
    hide FeldmanCheck;
    hide WithoutComplaint;
  }

  /** A complaint is resolved by the dealer's answer: whoever holds the dealer's true
      commitments drops the complaint on receiving it, and the complainant itself then
      holds the share and acknowledges it. */
  lemma ComplaintResolved(dealer: Config, ds: Node, c: Config, s: Node, to: int, m: Msg)
    requires ValidConfig(c) && ds.coeffs != [] && ds.epoch == s.epoch && dealer.n == c.n
    requires 0 < to <= c.n && to != dealer.index && m in OnComplaint(dealer, ds, to, dealer.index).1
    requires 0 < dealer.index <= dealer.n && dealer.index !in s.bad
    requires dealer.index in s.commitments && s.commitments[dealer.index] == Commit(ds.coeffs)
    ensures m.body.ShareOpen?
    ensures var (s', out) := OnShareOpen(c, s, m);
            && dealer.index !in s'.bad && to !in Bucket(s'.complaints, dealer.index)
            && (to == c.index ==>
                  && dealer.index in s'.shares && c.index in Bucket(s'.acks, dealer.index)
                  && out == {Msg(c.index, s.epoch, Ack(dealer.index))})
  {
    assert m == Msg(dealer.index, ds.epoch, ShareOpen(to, Opened(ShareFor(ds, to))));
    OpenedShareVerifies(ds.coeffs, to);
    ComplaintCleared(s.complaints, dealer.index, to);
    ComplaintCleared(WithoutComplaint(s.complaints, dealer.index, to), dealer.index, to);
    hide FeldmanCheck;
    hide WithoutComplaint;
  }

  // ----- whole events

  lemma SendsUnion(p: Params, c: Config, a: Polys, b: Polys, out1: set<Msg>, out2: set<Msg>)
    requires Sends(p, c, a, out1) && Extends(a, b) && Sends(p, c, b, out2)
    ensures Sends(p, c, b, out1 + out2)
  {
    hide PolyAt;
    hide Commit;
  }

  lemma DispatchReady(p: Params, c: Config, polys: Polys, s: Node, m: Msg, draw: Draw, sumOk: bool)
    requires ValidParams(p) && c == ConfigOf(p, c.index) && c.index in p.honest
    requires Ready(p, c, polys, s) && !s.fin.done && ValidDraw(c, draw) && m.epoch == s.epoch
    requires 0 < m.from <= c.n && m.from != c.index
    requires m.from in p.honest ==> Harmless(p, polys, s, m)
    ensures var (s', out) := Dispatch(c, s, m, draw, sumOk);
            Steps(p, c, polys, Note(polys, c, s'), s', out)
  {
    hide Sound;
    hide Results;
    hide Trusts;
    hide Consistent;
    hide Draws;
    hide Handle;
    hide MaybeFinalize;
    if Ignored(c, m) {
      NoteReady(p, c, polys, s);
    } else {
      HandleReady(p, c, polys, s, m);
      var (s1, out1) := Handle(c, s, m);
      MaybeFinalizeReady(p, c, polys, s1, draw, sumOk);
      var (s2, out2) := MaybeFinalize(c, s1, draw, sumOk);
      SendsUnion(p, c, polys, Note(polys, c, s2), out1, out2);
    }
  }

  lemma NoteReady(p: Params, c: Config, polys: Polys, s: Node)
    requires Ready(p, c, polys, s)
    ensures Note(polys, c, s) == polys
  {
  }

  /** Starting, or starting over: a finished process may announce a new polynomial. */
  lemma StartReady(p: Params, c: Config, polys: Polys, s: Node, draw: Draw)
    requires ValidParams(p) && c == ConfigOf(p, c.index) && c.index in p.honest
    requires Ready(p, c, polys, s) && !s.fin.idle && ValidDraw(c, draw)
    ensures var s' := EnsureLocalPoly(c, s, draw);
            StepsTo(p, c, polys, Note(polys, c, s'), s', {CommitmentsMsg(c, s')})
  {
    hide CommitmentsOk;
    hide SharesOk;
    hide Results;
    hide Vouched;
    hide PolyAt;
    EnsureLocalPolyKeeps(c, s, draw);
    var s' := EnsureLocalPoly(c, s, draw);
    var polys' := Note(polys, c, s');
    NoteReady(p, c, polys, s);
    TrustsExtend(p, polys, polys', s);
    VouchedExtend(p, polys, polys', s.fin);
    if s.fin.done {
      assert Announces(p, CommitmentsMsg(c, s'));
    } else {
      OwnCommitmentsMsg(p, c, polys', s');
    }
  }

  lemma FinishReady(p: Params, c: Config, polys: Polys, s: Node, f: Finish)
    requires Ready(p, c, polys, s) && Results(c, f) && AllVouched(p, polys, f)
    requires f.idle == s.fin.idle && (s.fin.done ==> f.done) && (s.fin.store.Some? ==> f.store.Some?)
    ensures Steps(p, c, polys, Note(polys, c, s.(fin := f)), s.(fin := f), {})
  {
    hide AllVouched;
    hide Trusts;
    hide Draws;
    TrustsReady(p, c, polys, s);
    OtherFinish(c, s, f);
    NoteReady(p, c, polys, s);
    hide NodeInv;
    TrustsSame(p, polys, s, s.(fin := f));
  }

  lemma SavedReady(p: Params, c: Config, polys: Polys, s: Node, k: nat)
    requires Ready(p, c, polys, s) && k < |s.fin.inflight|
    ensures AllVouched(p, polys, Save(s.fin, k)) && Results(c, Save(s.fin, k))
    ensures AllVouched(p, polys, Publish(s.fin, s.epoch, k))
    ensures Save(s.fin, k).store.Some? && Publish(s.fin, s.epoch, k).store == s.fin.store
    ensures Results(c, Publish(s.fin, s.epoch, k)) && Save(s.fin, k).idle == Publish(s.fin, s.epoch, k).idle == s.fin.idle
    ensures s.fin.done ==> Save(s.fin, k).done && Publish(s.fin, s.epoch, k).done
  {
    hide Vouched;
    hide Sound;
    FinishKeeps(c, s.fin, s.epoch, k);
    assert s.fin.inflight[k] in s.fin.inflight;
  }

  lemma RetryReady(p: Params, c: Config, polys: Polys, s: Node)
    requires Ready(p, c, polys, s) && !s.fin.done
    ensures Sends(p, c, polys, {CommitmentsMsg(c, s)} + MissingShares(c, s))
  {
    KeptRefl(p, c, polys, s);
    OwnCommitmentsMsg(p, c, polys, s);
    SendsMissing(p, c, polys, s, s, {});
    hide *;
  }

  lemma ConsistentExtends(p: Params, a: Polys, b: Polys, m: Msg)
    requires Extends(a, b)
    ensures Consistent(p, a, m) ==> Consistent(p, b, m)
  {
    hide PolyAt;
    hide Commit;
  }

  lemma DeliverReady(p: Params, c: Config, polys: Polys, s: Node, m: Msg, draw1: Draw, draw2: Draw, sumOk: bool)
    requires ValidParams(p) && c == ConfigOf(p, c.index) && c.index in p.honest
    requires Ready(p, c, polys, s) && !s.fin.idle && ValidDraw(c, draw1) && ValidDraw(c, draw2)
    requires m.from in p.honest && m.from != c.index ==> Harmless(p, polys, s, m)
    ensures var e := Deliver(m, draw1, draw2, sumOk);
            Steps(p, c, polys, NotedBy(c, polys, s, e), Step(c, s, e).0, Step(c, s, e).1)
  {
    hide Sound;
    hide Results;
    hide Trusts;
    hide Draws;
    hide Recorded;
    hide Consistent;
    hide Dispatch;
    var e := Deliver(m, draw1, draw2, sumOk);
    var (s1, out1) := AfterBump(c, s, e);
    NoteReady(p, c, polys, s);
    BumpReady(p, c, polys, s, m.epoch, draw1);
    var polys1 := Note(polys, c, s1);
    assert Steps(p, c, polys, polys1, s1, out1);
    NoteReady(p, c, polys1, s1);
    ConsistentExtends(p, polys, polys1, m);
    hide BumpEpoch;
    if m.epoch == 0 || m.from <= 0 || m.from > c.n || m.from == c.index || s.fin.done || m.epoch < s.epoch || m.epoch != s1.epoch {
    } else {
      if s1 != s {
        assert m.from in p.honest ==> Consistent(p, polys, m);
      }
      DispatchReady(p, c, polys1, s1, m, draw2, sumOk);
      var (s2, out2) := Dispatch(c, s1, m, draw2, sumOk);
      SendsUnion(p, c, polys1, Note(polys1, c, s2), out1, out2);
    }
  }

  /** Taking up the session changes neither the polynomial nor what is held against anyone. */
  lemma ResumeReady(p: Params, c: Config, polys: Polys, s: Node)
    requires Ready(p, c, polys, s) && !s.fin.done
    ensures Trusts(p, polys, Restore(c, Persist(s))) && Recorded(c, polys, Restore(c, Persist(s)))
    ensures Restore(c, Persist(s)).fin == NOT_DONE
  {
    hide Restore;
    hide Commit;
    hide Sound;
    hide AllVouched;
    RestoreRoundTrip(c, s);
    var s' := Restore(c, Persist(s));
    forall i | i in p.honest
      ensures TrustsDealer(p, polys, s', i)
    {
      assert TrustsDealer(p, polys, s, i);
    }
  }

  /** A restart that finds a key share retires the node, one of a finished node leaves only
      its result, and any other takes up the session. */
  lemma RestartReady(p: Params, c: Config, polys: Polys, s: Node, epoch: nat)
    requires Ready(p, c, polys, s) && s.epoch > 0
    ensures var s' := Reopen(c, epoch, s.fin.store, Persist(s));
            Steps(p, c, polys, Note(polys, c, s'), s', {})
  {
    hide Restore;
    hide NodeInv;
    hide Vouched;
    TrustsReady(p, c, polys, s);
    ReopenKeeps(c, s, epoch);
    var s' := Reopen(c, epoch, s.fin.store, Persist(s));
    if s.fin.store.None? {
      if s.fin.done {
        FinishedSession(c, s);
      } else {
        ResumeReady(p, c, polys, s);
      }
    }
    NoteReady(p, c, polys, s');
  }

  lemma FinishedSession(c: Config, s: Node)
    requires NodeInv(c, s) && s.fin.done
    ensures Restore(c, Persist(s)) == Fresh(s.epoch).(fin := Finished(s.fin.result))
  {
    RestoreDone(c, s);
  }

  lemma StepReady(p: Params, c: Config, polys: Polys, s: Node, e: Event)
    requires ValidParams(p) && c == ConfigOf(p, c.index) && c.index in p.honest
    requires Ready(p, c, polys, s) && s.epoch > 0 && ValidEvent(c, s, e)
    requires e.Deliver? && e.msg.from in p.honest && e.msg.from != c.index ==> Harmless(p, polys, s, e.msg)
    ensures StepsTo(p, c, polys, NotedBy(c, polys, s, e), Step(c, s, e).0, Step(c, s, e).1)
  {
    hide Sound;
    hide Trusts;
    hide Draws;
    hide RecordedAwake;
    hide Consistent;
    hide AllVouched;
    hide OnMessage;
    hide BumpEpoch;
    hide EnsureLocalPoly;
    hide Publish;
    hide Save;
    hide Reopen;
    NoteReady(p, c, polys, s);
    if !s.fin.idle || e.Restart? {
      match e
      case Start(draw) => StartReady(p, c, polys, s, draw);
      case Deliver(m, draw1, draw2, sumOk) => DeliverReady(p, c, polys, s, m, draw1, draw2, sumOk);
      case Timeout(draw) => BumpReady(p, c, polys, s, NextEpoch(s.epoch), draw);
      case Retry =>
        if !s.fin.done {
          RetryReady(p, c, polys, s);
        }
      case Saved(k) =>
        SavedReady(p, c, polys, s, k);
        FinishReady(p, c, polys, s, Save(s.fin, k));
      case Published(k) =>
        SavedReady(p, c, polys, s, k);
        FinishReady(p, c, polys, s, Publish(s.fin, s.epoch, k));
      case Restart(epoch) => RestartReady(p, c, polys, s, epoch);
    }
  }

  // ----- runs of the whole system

  lemma HarmlessStays(p: Params, a: Polys, b: Polys, s: Node, s': Node, m: Msg)
    requires Harmless(p, a, s, m) && Extends(a, b) && Onward(s, s')
    ensures Harmless(p, b, s', m)
  {
    hide Consistent;
    ConsistentExtends(p, a, b, m);
    if Announces(p, m) && Settled(s, m.from, m.epoch) {
      SettledStays(s, s', m.from, m.epoch);
    }
  }

  /** The invariant, with the one thing that changed set apart. */
  lemma LocalKeeps(p: Params, s: System, i: int, node: Node, out: set<Msg>, polys: Polys)
    requires ValidParams(p) && SystemInv(p, s) && AckInv(p, s) && i in p.honest
    requires StepsTo(p, ConfigOf(p, i), s.polys, polys, node, out) && Onward(s.nodes[i], node)
    requires forall k :: k in polys && k.0 != i ==> k in s.polys
    requires AckInv(p, System(s.nodes[i := node], s.net + out, polys))
    ensures SystemInv(p, System(s.nodes[i := node], s.net + out, polys))
  {
    hide NodeInv;
    hide Commit;
    hide AllVouched;
    hide Harmless;
    hide AckInv;
    hide Onward;
    var s' := System(s.nodes[i := node], s.net + out, polys);
    forall j | j in p.honest && j != i
      ensures Trusts(p, polys, s.nodes[j]) && Recorded(ConfigOf(p, j), polys, s.nodes[j])
      ensures AllVouched(p, polys, s.nodes[j].fin)
    {
      TrustsExtend(p, s.polys, polys, s.nodes[j]);
      VouchedExtend(p, s.polys, polys, s.nodes[j].fin);
    }
    forall m, j | m in s'.net && m.from in p.honest && j in p.honest && j != m.from
      ensures Harmless(p, polys, s'.nodes[j], m)
    {
      if m in s.net {
        OnwardRefl(s.nodes[j]);
        HarmlessStays(p, s.polys, polys, s.nodes[j], s'.nodes[j], m);
      } else {
        NewHarmless(p, s', i, node, out, m, j);
      }
    }
  }

  lemma OnwardRefl(s: Node)
    ensures Onward(s, s)
  {
  }

  /** What a node newly sends misleads nobody: if it announces after having finished, all
      others have settled its epoch. */
  lemma NewHarmless(p: Params, s': System, i: int, node: Node, out: set<Msg>, m: Msg, j: int)
    requires ValidParams(p) && AckInv(p, s') && i in p.honest && j in p.honest && j != i && s'.nodes[i] == node
    requires m in out && Emits(p, ConfigOf(p, i), s'.polys, node, out)
    ensures Harmless(p, s'.polys, s'.nodes[j], m)
  {
    hide Consistent;
    hide Settled;
    hide Announces;
    if node.fin.done && !node.fin.idle {
      FinishedDealerKnown(p, s', i, j);
    }
    hide AckInv;
  }

  lemma ActKeeps(p: Params, s: System, a: Action)
    requires ValidParams(p) && SystemInv(p, s) && AckInv(p, s) && Enabled(p, s, a)
    ensures SystemInv(p, Act(p, s, a))
  {
    hide NodeInv;
    hide Trusts;
    hide Recorded;
    hide Harmless;
    hide AllVouched;
    hide Step;
    hide AfterBump;
    ActAcks(p, s, a);
    match a
    case Local(i, event) =>
      var c := ConfigOf(p, i);
      assert Ready(p, c, s.polys, s.nodes[i]);
      assert NodeAcks(p, s.net, c, s.nodes[i]);
      StepReady(p, c, s.polys, s.nodes[i], event);
      StepOnward(c, s.nodes[i], event);
      var (node, out) := Step(c, s.nodes[i], event);
      LocalKeeps(p, s, i, node, out, NotedBy(c, s.polys, s.nodes[i], event));
    case Dishonest(m) =>
  }

  lemma InitialInv(p: Params, s: System)
    requires ValidParams(p) && Initial(p, s)
    ensures SystemInv(p, s)
  {
    forall i | i in p.honest
      ensures NodeInv(ConfigOf(p, i), s.nodes[i])
    {
      FreshSound(ConfigOf(p, i), s.nodes[i].epoch, NOT_DONE);
    }
    hide NodeInv;
  }

  lemma {:induction false} SystemInvariant(p: Params, states: seq<System>, actions: seq<Action>, k: nat)
    requires ValidParams(p) && SystemRun(p, states, actions) && k < |states|
    ensures SystemInv(p, states[k])
  {
    hide SystemInv;
    if k == 0 {
      InitialInv(p, states[0]);
    } else {
      SystemInvariant(p, states, actions, k - 1);
      AckInvariant(p, states, actions, k - 1);
      ActKeeps(p, states[k - 1], actions[k - 1]);
    }
  }

  /** No honest dealer is ever disqualified by an honest node, in any run, whatever the
      dishonest participants send, however messages are delayed or reordered and whenever
      nodes restart; and every honest result counts it in. */
  lemma NoHonestDealerDisqualified(p: Params, states: seq<System>, actions: seq<Action>, k: nat, i: int, d: int)
    requires ValidParams(p) && SystemRun(p, states, actions) && k < |states|
    requires i in p.honest && d in p.honest
    ensures i in states[k].nodes && d !in states[k].nodes[i].bad
    ensures var f := states[k].nodes[i].fin; f.done ==> f.result.Some? && Qualified(p.n, f.result.value.excluded, d)
  {
    SystemInvariant(p, states, actions, k);
    assert TrustsDealer(p, states[k].polys, states[k].nodes[i], d);
  }

  // ----- everybody follows the code

  ghost predicate AllHonest(p: Params) {
    forall i :: 0 < i <= p.n ==> i in p.honest
  }

  /** When all participants follow the code, every finisher's qualified set is 1..n. */
  lemma EveryoneQualifies(p: Params, states: seq<System>, actions: seq<Action>, k: nat, i: int, d: int)
    requires ValidParams(p) && AllHonest(p) && SystemRun(p, states, actions) && k < |states|
    requires i in p.honest
    ensures i in states[k].nodes
    ensures var f := states[k].nodes[i].fin;
            f.done ==> f.result.Some? && (Qualified(p.n, f.result.value.excluded, d) <==> 0 < d <= p.n)
  {
    SystemInvariant(p, states, actions, k);
    if 0 < d <= p.n {
      NoHonestDealerDisqualified(p, states, actions, k, i, d);
    }
  }

  /** The sum of the constant terms drawn in an epoch. */
  ghost function DrawnSecret(n: int, polys: Polys, epoch: nat): int {
    if n <= 0 then 0
    else
      var own := if (n, epoch) in polys && polys[(n, epoch)] != [] then polys[(n, epoch)][0] else 0;
      DrawnSecret(n - 1, polys, epoch) + own
  }

  ghost function TrueCommitments(n: int, polys: Polys, epoch: nat): map<int, seq<Compressed>> {
    map d | 0 < d <= n && (d, epoch) in polys :: Commit(polys[(d, epoch)])
  }

  /** Honest dealers' true commitments add up to the drawn secret. */
  lemma {:induction false} DrawnSecretIsKey(n: int, m: int, polys: Polys, epoch: nat, t: nat)
    requires t > 0 && n <= m && Committed(n, {}, TrueCommitments(m, polys, epoch), t)
    ensures KeysReadable(n, {}, TrueCommitments(m, polys, epoch))
    ensures KeySum(n, {}, TrueCommitments(m, polys, epoch)) == DrawnSecret(n, polys, epoch)
  {
    if n > 0 {
      assert forall d :: Qualified(n - 1, {}, d) ==> Qualified(n, {}, d);
      DrawnSecretIsKey(n - 1, m, polys, epoch, t);
      assert Qualified(n, {}, n);
    }
  }

  /** The nodes js have finished with results of the epoch, whether they published them or
      found them in their key stores. */
  ghost predicate FinishedIn(p: Params, s: System, js: seq<int>, epoch: nat) {
    && (forall a, b :: 0 <= a < b < |js| ==> js[a] != js[b])
    && forall a :: 0 <= a < |js| ==>
         && js[a] in p.honest && js[a] in s.nodes && s.nodes[js[a]].fin.done
         && s.nodes[js[a]].fin.result.Some? && s.nodes[js[a]].fin.result.value.epoch == epoch
  }

  ghost function Holders(p: Params, s: System, js: seq<int>): (hs: seq<Holder>)
    requires forall a :: 0 <= a < |js| ==> js[a] in s.nodes && s.nodes[js[a]].fin.result.Some?
    ensures |hs| == |js|
  {
    seq(|js|, a requires 0 <= a < |js| => Holder(ConfigOf(p, js[a]), s.nodes[js[a]].fin.result.value))
  }

  lemma HolderAgrees(p: Params, polys: Polys, i: int, t: Ticket)
    requires ValidParams(p) && AllHonest(p) && i in p.honest && TicketSound(ConfigOf(p, i), t) && Vouched(p, polys, t)
    ensures Agrees(Holder(ConfigOf(p, i), t), p.n, p.threshold, {}, TrueCommitments(p.n, polys, t.epoch))
  {
    hide Commit;
    hide TicketSound;
    var coms := TrueCommitments(p.n, polys, t.epoch);
    forall d | 0 < d <= p.n
      ensures Qualified(p.n, t.excluded, d) && Qualified(p.n, {}, d) && d in coms && d in t.coms && t.coms[d] == coms[d]
    {
      assert d in p.honest;
    }
  }

  /** When all participants follow the code, the key generation is correct without any
      further assumption: all results of one epoch, published or found in a key store, have
      the group key g^s for s the sum of the secrets drawn in that epoch, and any threshold
      of their key shares recombine to s. */
  lemma HonestKeyGeneration(p: Params, states: seq<System>, actions: seq<Action>, k: nat, js: seq<int>, epoch: nat)
    requires ValidParams(p) && AllHonest(p) && SystemRun(p, states, actions) && k < |states|
    requires FinishedIn(p, states[k], js, epoch) && |js| >= p.threshold
    ensures forall a :: 0 <= a < |js| ==>
      states[k].nodes[js[a]].fin.result.value.gpk == Reduce(DrawnSecret(p.n, states[k].polys, epoch))
    ensures var c := Chosen(KeyShares(Holders(p, states[k], js)), p.threshold);
            Cong(Interpolation.Combine(IndexSeq(c), ValueSeq(c), IndexSeq(c)), DrawnSecret(p.n, states[k].polys, epoch))
  {
    hide Agrees;
    hide TicketSound;
    hide Vouched;
    hide JointPoly;
    hide TrueCommitments;
    hide DrawnSecret;
    hide Cong;
    hide Chosen;
    var s := states[k];
    SystemInvariant(p, states, actions, k);
    var hs, coms := Holders(p, s, js), TrueCommitments(p.n, s.polys, epoch);
    forall a | 0 <= a < |hs|
      ensures Agrees(hs[a], p.n, p.threshold, {}, coms)
    {
      HolderAgrees(p, s.polys, js[a], s.nodes[js[a]].fin.result.value);
    }
    assert forall a :: 0 <= a < |js| ==> hs[a].ticket == s.nodes[js[a]].fin.result.value;
    JointCorrectness(hs, p.n, p.threshold, {}, coms);
    JointKey(p.n, {}, coms, p.threshold);
    DrawnSecretIsKey(p.n, p.n, s.polys, epoch, p.threshold);
  }
}
