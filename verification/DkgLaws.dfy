/** What the handlers are for, stated on a node's raw state: dealing, acknowledging,
    complaining, disqualifying and finalising. */
module DkgLaws {
  import opened PrimeField
  import opened Interpolation
  import opened Curve
  import opened Outcomes
  import opened Feldman
  import opened DkgNode
  import opened DkgInvariant
  import opened DkgRuns

  // ----- dealing

  /** Participant i has acknowledged the node's own dealing. */
  ghost predicate AckedBy(c: Config, s: Node, i: int) {
    c.index in s.acks && i in s.acks[c.index]
  }

  /** A share is addressed to participant i. */
  ghost predicate SharedWith(out: set<Msg>, i: int) {
    exists m :: m in out && m.body.EncShare? && m.body.to == i
  }

  /** The dealing law: a dealer with a polynomial sends a share to exactly the other
      participants that have not acknowledged it, and to nobody else. */
  lemma DealingLaw(c: Config, s: Node, i: int)
    ensures SharedWith(MissingShares(c, s), i) <==> s.coeffs != [] && 0 < i <= c.n && i != c.index && !AckedBy(c, s, i)
  {
    if s.coeffs != [] && 0 < i <= c.n && i != c.index && !AckedBy(c, s, i) {
      var m := Msg(c.index, s.epoch, EncShare(i, Plain(ShareFor(s, i))));
      assert 1 <= i <= c.n && i !in Bucket(s.acks, c.index);
      assert m in MissingShares(c, s);
    }
  }

  /** What is sent is right: the addressee, holding the dealer's commitments and no share
      yet, keeps a share that passes the Feldman check and acknowledges it. */
  lemma DealtShareAccepted(dealer: Config, ds: Node, c: Config, s: Node, m: Msg)
    requires ValidConfig(c) && m in MissingShares(dealer, ds) && m.body.EncShare? && m.body.to == c.index && s.epoch == ds.epoch
    requires dealer.index !in s.bad && dealer.index !in s.shares
    requires dealer.index in s.commitments && s.commitments[dealer.index] == Commit(ds.coeffs)
    ensures m.from == dealer.index && m.epoch == s.epoch
    ensures var (s', out) := OnShare(c, s, m);
            && dealer.index in s'.shares
            && FeldmanCheck(s'.shares[dealer.index], c.index, s.commitments[dealer.index]) == Ok(true)
            && out == {Msg(c.index, s.epoch, Ack(dealer.index))}
            && s'.commitments == s.commitments && s'.bad == s.bad
  {
    hide WithoutComplaint;
    FeldmanExact(ds.coeffs, Reduce(PolyAt(ds.coeffs, c.index)), c.index);
  }

  /** The dealer stops sending to whoever acknowledges, and to nobody else. */
  lemma AckStopsShares(c: Config, s: Node, from: int, i: int)
    requires 0 < c.index <= c.n && c.index !in s.bad
    ensures var s' := OnAck(c, s, from, c.index);
            SharedWith(MissingShares(c, s'), i) <==> SharedWith(MissingShares(c, s), i) && i != from
  {
    hide MissingShares;
    hide WithoutComplaint;
    DealingLaw(c, s, i);
    DealingLaw(c, OnAck(c, s, from, c.index), i);
  }

  /** A working dealer keeps announcing its commitments and the missing shares. */
  lemma RetryDeals(c: Config, s: Node, i: int)
    requires PendingKinds(c, s) && !s.fin.done && !s.fin.idle
    ensures Step(c, s, Retry).0 == s
    ensures Msg(c.index, s.epoch, Commitments(s.selfCommitments)) in Step(c, s, Retry).1
    ensures SharedWith(Step(c, s, Retry).1, i) <==> s.coeffs != [] && 0 < i <= c.n && i != c.index && !AckedBy(c, s, i)
  {
    DealingLaw(c, s, i);
    hide MissingShares;
    var out := Step(c, s, Retry).1;
    assert out == {CommitmentsMsg(c, s)} + MissingShares(c, s);
    if SharedWith(MissingShares(c, s), i) {
      var m :| m in MissingShares(c, s) && m.body.EncShare? && m.body.to == i;
      assert m in out;
    }
  }

  /** The first commitments of a dealer are answered with the missing shares. */
  lemma CommitmentsAnswered(c: Config, s: Node, from: int, points: seq<Compressed>, i: int)
    requires PendingKinds(c, s)
    ensures var (s', out) := Handle(c, s, Msg(from, s.epoch, Commitments(points)));
            SharedWith(MissingShares(c, s'), i) ==> SharedWith(out, i)
  {
    hide MissingShares;
    var (s', out) := Handle(c, s, Msg(from, s.epoch, Commitments(points)));
    if SharedWith(MissingShares(c, s'), i) {
      var m :| m in MissingShares(c, s') && m.body.EncShare? && m.body.to == i;
      assert m in out;
    }
  }

  // ----- bad dealers

  /** Commitments of the wrong number, or that do not decompress, cost the dealer its
      qualification; good ones are kept if they are the first. */
  lemma CommitmentsLaw(c: Config, s: Node, from: int, points: seq<Compressed>)
    requires from > 0 && points != []
    ensures var s' := OnCommitments(c, s, from, points);
            if |points| != c.threshold || exists k :: 0 <= k < |points| && points[k].Garbage?
            then s'.bad == s.bad + {from} && s'.commitments == s.commitments && (from !in s.bad ==> from !in s'.complaints)
            else s'.bad == s.bad &&
                 s'.commitments == if from in s.bad || from in s.commitments then s.commitments else s.commitments[from := points]
  {
    assert AllPoints(points) <==> !exists k :: 0 <= k < |points| && points[k].Garbage?;
  }

  /** An encrypted share that does not verify is complained about, and not kept. */
  lemma BadShareComplained(c: Config, s: Node, m: Msg)
    requires m.body.EncShare? && m.from !in s.bad && m.from !in s.shares && m.from in s.commitments && s.commitments[m.from] != []
    requires m.body.plain.Garbled? ||
             (m.body.plain.Plain? && FeldmanCheck(m.body.plain.value, c.index, s.commitments[m.from]) != Ok(true))
    ensures var (s', out) := OnShare(c, s, m);
            && s'.shares == s.shares && s'.acks == s.acks
            && m.from in s'.complaints && c.index in s'.complaints[m.from]
            && out == {Msg(c.index, s.epoch, Complaint(m.from))}
  {
    hide FeldmanCheck;
  }

  /** An opened share that fails the check disqualifies its dealer. */
  lemma BadOpeningDisqualifies(c: Config, s: Node, m: Msg)
    requires m.body.ShareOpen? && 0 < m.body.to <= c.n && m.from > 0 && m.from !in s.bad
    requires m.body.content.WrongSize? ||
             (m.from in s.commitments && s.commitments[m.from] != [] &&
              (m.body.content.NotScalar? || FeldmanCheck(m.body.content.value, m.body.to, s.commitments[m.from]) != Ok(true)))
    ensures var (s', out) := OnShareOpen(c, s, m);
            && s'.bad == s.bad + {m.from} && m.from !in s'.complaints && out == {}
            && s'.shares == s.shares && s'.commitments == s.commitments && s'.acks == s.acks
  {
    hide FeldmanCheck;
  }

  /** A third party's complaint is recorded, beside all others; one against the node itself is
      answered by opening the complainant's share. */
  lemma ComplaintLaw(c: Config, s: Node, from: int, d: int)
    requires 0 < d <= c.n && d !in s.bad
    ensures var (s', out) := OnComplaint(c, s, from, d);
            if d != c.index
            then && out == {} && s' == s.(complaints := s'.complaints)
                 && d in s'.complaints && from in s'.complaints[d]
                 && s'.complaints[d] == (if d in s.complaints then s.complaints[d] else {}) + {from}
                 && (forall e :: e != d ==> (e in s'.complaints <==> e in s.complaints))
                 && (forall e :: e != d && e in s.complaints ==> s'.complaints[e] == s.complaints[e])
            else s' == s &&
                 (0 < from <= c.n && from != c.index && s.coeffs != [] ==>
                    out == {Msg(c.index, s.epoch, ShareOpen(from, Opened(Reduce(PolyAt(s.coeffs, from)))))})
  {
  }

  /** An acknowledgement is recorded beside all others and withdraws its sender's complaint
      against that dealer, and no other. */
  lemma AckLaw(c: Config, s: Node, from: int, d: int, e: int, j: int)
    requires 0 < d <= c.n && d !in s.bad
    ensures var s' := OnAck(c, s, from, d);
            && s' == s.(acks := s'.acks, complaints := s'.complaints)
            && (e in s'.acks && j in s'.acks[e] <==> (e in s.acks && j in s.acks[e]) || (e == d && j == from))
            && (e in s'.complaints && j in s'.complaints[e] <==> e in s.complaints && j in s.complaints[e] && !(e == d && j == from))
  {
  }

  /** A timeout leads to the next epoch, unless the node is done or the counter is used up. */
  lemma TimeoutLaw(c: Config, s: Node, draw: Draw)
    requires PendingKinds(c, s) && ValidDraw(c, draw) && !s.fin.idle
    ensures var (s', out) := Step(c, s, Timeout(draw));
            if s.fin.done || s.epoch >= LAST_EPOCH then s' == s && out == {}
            else && s'.epoch == s.epoch + 1 && s'.bad == {} && s'.acks == map[] && s'.complaints == map[]
                 && s'.coeffs == (if draw.Some? then draw.value else []) && s'.fin.store == s.fin.store
                 && s'.shares.Keys == (if draw.Some? then {c.index} else {})
                 && out == {Msg(c.index, s'.epoch, Commitments(s'.selfCommitments))}
  {
  }

  /** A message of a later epoch makes an unfinished node join that epoch, with a polynomial
      of its own if one is drawn, and announce it. */
  lemma CatchUpLaw(c: Config, s: Node, m: Msg, draw1: Draw, draw2: Draw, sumOk: bool)
    requires ValidConfig(c) && NodeInv(c, s) && ValidDraw(c, draw1) && ValidDraw(c, draw2)
    requires !s.fin.done && m.epoch > s.epoch && 0 < m.from <= c.n && m.from != c.index
    ensures var (s', out) := Step(c, s, Deliver(m, draw1, draw2, sumOk));
            && s'.epoch >= m.epoch
            && (draw1.Some? ==> Msg(c.index, m.epoch, Commitments(Commit(draw1.value))) in out)
  {
    hide Handle;
    hide Sound;
    hide Results;
    hide Commit;
    BumpEpochKeeps(c, s, m.epoch, draw1);
    var s1 := BumpEpoch(c, s, m.epoch, draw1).0;
    HandleKeeps(c, s1, m);
    var x := Handle(c, s1, m).0;
    FinishEpoch(c, x, draw2, sumOk);
    hide MaybeFinalize;
    hide Ignored;
  }

  lemma FinishEpoch(c: Config, s: Node, draw: Draw, sumOk: bool)
    ensures MaybeFinalize(c, s, draw, sumOk).0.epoch >= s.epoch
  {
  }

  /** A message of an earlier epoch, from the node itself or from nobody, or to a node that
      is done, changes nothing and is not answered. */
  lemma StaleIgnored(c: Config, s: Node, m: Msg, draw1: Draw, draw2: Draw, sumOk: bool)
    requires PendingKinds(c, s) && ValidDraw(c, draw1) && ValidDraw(c, draw2)
    requires s.fin.done || m.epoch < s.epoch || m.epoch == 0 || m.from == c.index || m.from <= 0 || m.from > c.n
    ensures Step(c, s, Deliver(m, draw1, draw2, sumOk)) == (s, {})
  {
  }

  /** A result in flight is published if and only if the node is not done and still in the
      result's epoch; a late one is dropped and the node may compute another. */
  lemma PublishLaw(c: Config, s: Node, k: nat)
    requires PendingKinds(c, s) && k < |s.fin.inflight| && !s.fin.idle
    ensures var s', t := Step(c, s, Published(k)).0, s.fin.inflight[k];
            && s' == s.(fin := s'.fin) && s'.fin.store == s.fin.store && s'.fin.inflight == s.fin.inflight[..k] + s.fin.inflight[k + 1..]
            && (if !s.fin.done && s.epoch == t.epoch then s'.fin.done && s'.fin.result == Some(t)
                else s'.fin.done == s.fin.done && s'.fin.result == s.fin.result && !s'.fin.finalizing)
  {
  }

  /** Too few remaining dealers: the node goes on to the next epoch with nothing but what is
      in flight or stored, a new polynomial if one is drawn, and announces it. */
  lemma TooFewDealers(c: Config, s: Node, draw: Draw, sumOk: bool)
    requires !s.fin.done && !s.fin.finalizing && c.n - |s.bad| < c.threshold && s.epoch < LAST_EPOCH
    ensures var (s', out) := MaybeFinalize(c, s, draw, sumOk);
            && s'.epoch == s.epoch + 1 && s'.bad == {} && s'.acks == map[] && s'.complaints == map[]
            && s'.pendingShare == map[] && s'.pendingOpen == map[]
            && s'.coeffs == (if draw.Some? then draw.value else [])
            && s'.commitments.Keys == (if draw.Some? then {c.index} else {}) && s'.shares.Keys == s'.commitments.Keys
            && !s'.fin.done && s'.fin.inflight == s.fin.inflight && s'.fin.store == s.fin.store
            && out == {Msg(c.index, s'.epoch, Commitments(s'.selfCommitments))}
  {
  }

  // ----- finalisation

  /** Everything about dealer d is in order, said on the state itself. */
  ghost predicate Evident(c: Config, s: Node, d: int) {
    && (d in s.complaints ==> s.complaints[d] == {})
    && (if d in s.acks then |s.acks[d]| else 0) >= c.n - 1
    && d in s.commitments && s.commitments[d] != []
    && d in s.shares
  }

  /** Every dealer that is not disqualified is in order. */
  ghost predicate AllEvident(c: Config, s: Node) {
    forall d :: 0 < d <= c.n && d !in s.bad ==> Evident(c, s, d)
  }

  lemma ReadyIsEvident(c: Config, s: Node)
    ensures AllReady(c, s) <==> AllEvident(c, s)
  {
    if AllReady(c, s) {
      forall d | 0 < d <= c.n && d !in s.bad
        ensures Evident(c, s, d)
      {
        assert Qualified(c.n, s.bad, d);
      }
    }
    if AllEvident(c, s) {
      forall d | 0 < d <= c.n && Qualified(c.n, s.bad, d)
        ensures DealerReady(c, s, d)
      {
        assert Evident(c, s, d);
      }
    }
  }

  function DealersUpTo(n: int): set<int> {
    if n <= 0 then {} else DealersUpTo(n - 1) + {n}
  }

  lemma {:induction false} DealersExact(n: int, d: int)
    ensures d in DealersUpTo(n) <==> 0 < d <= n
  {
    if n > 0 {
      DealersExact(n - 1, d);
    }
  }

  /** The number of qualified dealers. */
  lemma {:induction false} QualSizeExact(n: int, excluded: set<int>)
    ensures QualSize(n, excluded) == |DealersUpTo(n) - excluded|
  {
    if n > 0 {
      QualSizeExact(n - 1, excluded);
      DealersExact(n - 1, n);
      var rest := DealersUpTo(n - 1) - excluded;
      assert DealersUpTo(n) - excluded == if n in excluded then rest else rest + {n};
    }
  }

  /** Exactly when a result is computed: no result yet nor one in the making, enough dealers
      left, every one of them in order, their keys readable and the sum accepted. */
  lemma FinalizeExact(c: Config, s: Node, draw: Draw, sumOk: bool)
    requires ValidConfig(c) && NodeInv(c, s)
    ensures |MaybeFinalize(c, s, draw, sumOk).0.fin.inflight| > |s.fin.inflight| <==>
      && !s.fin.done && !s.fin.finalizing && sumOk
      && c.n - |s.bad| >= c.threshold && |DealersUpTo(c.n) - s.bad| >= c.threshold
      && AllEvident(c, s)
  {
    ReadyIsEvident(c, s);
    QualSizeExact(c.n, s.bad);
    if AllEvident(c, s) {
      forall d | 0 < d <= c.n && Qualified(c.n, s.bad, d)
        ensures d in s.commitments && s.commitments[d] != [] && s.commitments[d][0].Point?
      {
        assert Evident(c, s, d);
      }
    }
    hide AllReady;
    hide AllEvident;
    hide Sound;
  }

  lemma BornEvident(c: Config, s: Node, e: Event, t: Ticket)
    requires ValidConfig(c) && NodeInv(c, s) && s.epoch > 0 && Born(c, s, e, t)
    ensures Witnessed(c, Step(c, s, e).0, t)
  {
    hide Handle;
    hide Sound;
    hide Results;
    hide AllReady;
    hide AllEvident;
    hide KeysReadable;
    hide QualSize;
    BumpEpochKeeps(c, s, e.msg.epoch, e.draw1);
    var s1 := BumpEpoch(c, s, e.msg.epoch, e.draw1).0;
    HandleKeeps(c, s1, e.msg);
    var x := Handle(c, s1, e.msg).0;
    ReadyIsEvident(c, x);
    QualSizeExact(c.n, x.bad);
    hide MaybeFinalize;
    hide Ignored;
    var s' := Step(c, s, e).0;
    if Ignored(c, e.msg) {
      IgnoredHandle(c, s1, e.msg);
      assert s' == s1;
    } else {
      FinishOnly(c, x, e.draw2, e.sumOk);
      assert s' == MaybeFinalize(c, x, e.draw2, e.sumOk).0;
    }
    SameEvident(c, x, s');
  }

  lemma IgnoredHandle(c: Config, s: Node, m: Msg)
    requires PendingKinds(c, s) && s.epoch == m.epoch && Ignored(c, m)
    ensures Handle(c, s, m).0 == s
  {
  }

  lemma FinishOnly(c: Config, s: Node, draw: Draw, sumOk: bool)
    ensures var s' := MaybeFinalize(c, s, draw, sumOk).0; s'.epoch == s.epoch ==> s' == s.(fin := s'.fin)
  {
    hide AllReady;
    hide KeysReadable;
    hide NewTicket;
  }

  lemma SameEvident(c: Config, s: Node, s': Node)
    requires s' == s.(fin := s'.fin)
    ensures AllEvident(c, s) ==> AllEvident(c, s')
  {
    if AllEvident(c, s) {
      forall d | 0 < d <= c.n && d !in s'.bad
        ensures Evident(c, s', d)
      {
        assert Evident(c, s, d);
      }
    }
  }

  /** The state holds the evidence of the result: every dealer that is not disqualified is in
      order, there are enough of them, and the result is of that epoch and these
      commitments. */
  ghost predicate Witnessed(c: Config, s: Node, t: Ticket) {
    && AllEvident(c, s) && |DealersUpTo(c.n) - s.bad| >= c.threshold
    && t.excluded == s.bad && t.coms == s.commitments && t.epoch == s.epoch
  }

  /** Whatever result a run's node holds, published, in flight or stored, an earlier state of
      the run held all its evidence. */
  lemma ResultWitnessed(c: Config, states: seq<Node>, events: seq<Event>, j: nat, t: Ticket)
    requires ValidConfig(c) && Run(c, states, events) && j < |states| && Held(states[j], t)
    ensures exists i :: 0 < i <= j && Witnessed(c, states[i], t)
  {
    hide Witnessed;
    hide NodeInv;
    ResultProvenance(c, states, events, j, t);
    var i :| 0 <= i < j && Born(c, states[i], events[i], t);
    RunInvariant(c, states, events, i);
    BornEvident(c, states[i], events[i], t);
    assert Witnessed(c, states[i + 1], t);
  }

  // ----- a complaint blocks its dealer until it is answered

  /** The dealer is disqualified, or j's complaint against it is open. */
  ghost predicate Stands(s: Node, d: int, j: int) {
    d in s.bad || (d in s.complaints && j in s.complaints[d])
  }

  /** m opens j's share of dealer d, and the share verifies. */
  ghost predicate Opens(coms: map<int, seq<Compressed>>, m: Msg, d: int, j: int) {
    && m.body.ShareOpen? && m.from == d && m.body.to == j && d in coms
    && m.body.content.Opened? && FeldmanCheck(m.body.content.value, j, coms[d]) == Ok(true)
  }

  /** Handling m settles j's complaint against d: j acknowledges the dealer, or its share is
      opened and verifies, now or once the commitments it waited for are in. */
  ghost predicate ResolvesAt(c: Config, s: Node, m: Msg, d: int, j: int) {
    || (m.body == Ack(d) && m.from == j)
    || Opens(s.commitments, m, d, j)
    || (m.body.Commitments? && m.from == d && d in s.pendingOpen
        && Opens(OnCommitments(c, s, d, m.body.points).commitments, s.pendingOpen[d], d, j))
  }

  ghost predicate Resolves(c: Config, s: Node, e: Event, d: int, j: int) {
    e.Deliver? && e.msg.epoch == s.epoch && ResolvesAt(c, s, e.msg, d, j)
  }

  lemma OtherComplaintStays(complaints: map<int, set<int>>, d: int, j: int, d': int, who: int)
    requires d in complaints && j in complaints[d] && (d' != d || who != j)
    ensures var r := WithoutComplaint(complaints, d', who); d in r && j in r[d]
  {
  }

  lemma RecordAckStands(s: Node, d': int, who: int, d: int, j: int)
    requires Stands(s, d, j) && (d' != d || who != j)
    ensures Stands(RecordAck(s, d', who), d, j)
  {
    hide WithoutComplaint;
    if d !in s.bad {
      OtherComplaintStays(s.complaints, d, j, d', who);
    }
  }

  lemma DisqualifyStands(s: Node, d': int, d: int, j: int)
    requires Stands(s, d, j) && d > 0
    ensures Stands(Disqualify(s, d'), d, j)
  {
  }

  lemma OnShareStands(c: Config, s: Node, m: Msg, d: int, j: int)
    requires m.body.EncShare? && Stands(s, d, j) && j != c.index
    ensures Stands(OnShare(c, s, m).0, d, j)
  {
    hide FeldmanCheck;
    hide RecordAck;
    var from := m.from;
    if from !in s.bad && from in s.commitments && s.commitments[from] != [] && from !in s.shares && m.body.plain.Plain? {
      RecordAckStands(s.(pendingShare := s.pendingShare - {from}, shares := s.shares[from := m.body.plain.value]), from, c.index, d, j);
    }
  }

  lemma OnShareOpenStands(c: Config, s: Node, m: Msg, d: int, j: int)
    requires m.body.ShareOpen? && Stands(s, d, j) && j != c.index && d > 0
    requires !Opens(s.commitments, m, d, j)
    ensures Stands(OnShareOpen(c, s, m).0, d, j)
  {
    hide FeldmanCheck;
    hide RecordAck;
    hide WithoutComplaint;
    hide Disqualify;
    var from, to, content := m.from, m.body.to, m.body.content;
    DisqualifyStands(s, from, d, j);
    if 0 < to <= c.n && !content.WrongSize? && from !in s.bad && from in s.commitments && s.commitments[from] != []
       && content.Opened? && FeldmanCheck(content.value, to, s.commitments[from]) == Ok(true) {
      var s1 := s.(pendingOpen := s.pendingOpen - {from}, complaints := WithoutComplaint(s.complaints, from, to));
      if d !in s.bad {
        OtherComplaintStays(s.complaints, d, j, from, to);
      }
      assert Stands(s1, d, j);
      var s2 := if from in s1.shares then s1 else s1.(shares := s1.shares[from := content.value]);
      if to == c.index {
        RecordAckStands(s2, from, c.index, d, j);
      }
    }
  }

  lemma PendingStands(c: Config, s: Node, d': int, d: int, j: int)
    requires NodeInv(c, s) && Stands(s, d, j) && j != c.index && d > 0 && d' != c.index
    requires d' in s.pendingOpen ==> !Opens(s.commitments, s.pendingOpen[d'], d, j)
    ensures Stands(TryProcessPending(c, s, d').0, d, j)
  {
    hide Sound;
    hide Results;
    hide OnShare;
    hide OnShareOpen;
    hide Opens;
    var s1 := if d' in s.pendingShare then OnShare(c, s, s.pendingShare[d']).0 else s;
    if d' in s.pendingShare {
      OnShareCases(c, s, s.pendingShare[d']);
      OnShareStands(c, s, s.pendingShare[d'], d, j);
    }
    if d' in s1.pendingOpen {
      OnShareOpenStands(c, s1, s1.pendingOpen[d'], d, j);
    }
  }

  lemma OnCommitmentsStands(c: Config, s: Node, from: int, points: seq<Compressed>, d: int, j: int)
    requires Stands(s, d, j) && d > 0
    ensures Stands(OnCommitments(c, s, from, points), d, j)
  {
    hide Disqualify;
    DisqualifyStands(s, from, d, j);
  }

  lemma HandleStands(c: Config, s: Node, m: Msg, d: int, j: int)
    requires NodeInv(c, s) && s.epoch == m.epoch && 0 < m.from <= c.n && m.from != c.index
    requires Stands(s, d, j) && j != c.index && d > 0 && !ResolvesAt(c, s, m, d, j)
    ensures Stands(Handle(c, s, m).0, d, j)
  {
    hide Sound;
    hide Results;
    hide OnShare;
    hide OnShareOpen;
    hide OnCommitments;
    hide TryProcessPending;
    hide RecordAck;
    hide Opens;
    match m.body
    case Commitments(points) =>
      OnCommitmentsKeeps(c, s, m.from, points);
      OnCommitmentsStands(c, s, m.from, points, d, j);
      PendingOtherDealer(c, s, m, d, j);
      PendingStands(c, OnCommitments(c, s, m.from, points), m.from, d, j);
    case EncShare(to, _) => OnShareStands(c, s, m, d, j);
    case ShareOpen(_, _) => OnShareOpenStands(c, s, m, d, j);
    case Ack(d') =>
      if d' != d || m.from != j {
        RecordAckStands(s, d', m.from, d, j);
      }
    case Complaint(d') =>
    case Unknown =>
  }

  lemma PendingOtherDealer(c: Config, s: Node, m: Msg, d: int, j: int)
    requires NodeInv(c, s) && m.body.Commitments? && !ResolvesAt(c, s, m, d, j)
    ensures var s1 := OnCommitments(c, s, m.from, m.body.points);
            m.from in s1.pendingOpen ==> !Opens(s1.commitments, s1.pendingOpen[m.from], d, j)
  {
    hide Sound;
    hide Results;
    hide FeldmanCheck;
  }

  lemma MaybeFinalizeStands(c: Config, s: Node, draw: Draw, sumOk: bool, d: int, j: int)
    requires Stands(s, d, j)
    ensures var s' := MaybeFinalize(c, s, draw, sumOk).0; s'.epoch != s.epoch || Stands(s', d, j)
  {
    hide AllReady;
    hide KeysReadable;
  }

  /** Only an answer, a new epoch or the end of the run settles a complaint. */
  lemma StepStands(c: Config, s: Node, e: Event, d: int, j: int)
    requires ValidConfig(c) && NodeInv(c, s) && ValidEvent(c, s, e) && s.epoch > 0
    requires Stands(s, d, j) && j != c.index && d > 0 && !Resolves(c, s, e, d, j)
    ensures var s' := Step(c, s, e).0; s'.fin.done || s'.epoch != s.epoch || Stands(s', d, j)
  {
    hide Sound;
    hide OnMessage;
    hide Restore;
    hide ResolvesAt;
    if !s.fin.idle || e.Restart? {
      match e
      case Start(draw) =>
      case Deliver(m, draw1, draw2, sumOk) => DeliverStands(c, s, m, draw1, draw2, sumOk, d, j);
      case Timeout(draw) =>
      case Retry =>
      case Saved(k) =>
      case Published(k) =>
      case Restart(epoch) =>
        if !s.fin.done {
          RestoreRoundTrip(c, s);
        } else {
          RestoreDone(c, s);
        }
    }
  }

  lemma DeliverStands(c: Config, s: Node, m: Msg, draw1: Draw, draw2: Draw, sumOk: bool, d: int, j: int)
    requires ValidConfig(c) && NodeInv(c, s) && ValidDraw(c, draw1) && ValidDraw(c, draw2)
    requires Stands(s, d, j) && j != c.index && d > 0 && !(m.epoch == s.epoch && ResolvesAt(c, s, m, d, j))
    ensures var s' := OnMessage(c, s, m, draw1, draw2, sumOk).0; s'.fin.done || s'.epoch != s.epoch || Stands(s', d, j)
  {
    hide Sound;
    hide Results;
    hide Handle;
    hide MaybeFinalize;
    hide ResolvesAt;
    hide Stands;
    OnMessageKeeps(c, s, m, draw1, draw2, sumOk);
    if 0 < m.from <= c.n && m.from != c.index && !s.fin.done && m.epoch == s.epoch {
      HandleKeeps(c, s, m);
      HandleStands(c, s, m, d, j);
      MaybeFinalizeStands(c, Handle(c, s, m).0, draw2, sumOk, d, j);
    } else if m.epoch > s.epoch {
      LaterEpoch(c, s, m, draw1, draw2, sumOk);
    }
  }

  lemma LaterEpoch(c: Config, s: Node, m: Msg, draw1: Draw, draw2: Draw, sumOk: bool)
    requires ValidConfig(c) && NodeInv(c, s) && ValidDraw(c, draw1) && ValidDraw(c, draw2) && m.epoch > s.epoch
    ensures var s' := OnMessage(c, s, m, draw1, draw2, sumOk).0; s' == s || s'.epoch > s.epoch
  {
    hide Sound;
    hide Results;
    hide Handle;
    hide MaybeFinalize;
    BumpEpochKeeps(c, s, m.epoch, draw1);
    if 0 < m.from <= c.n && m.from != c.index && !s.fin.done {
      var s1 := BumpEpoch(c, s, m.epoch, draw1).0;
      HandleKeeps(c, s1, m);
      MaybeFinalizeKeeps(c, Handle(c, s1, m).0, draw2, sumOk);
    }
  }

  /** A result computed while a complaint stands leaves the dealer out. */
  lemma BornAfterComplaint(c: Config, s: Node, e: Event, t: Ticket, d: int, j: int)
    requires ValidConfig(c) && NodeInv(c, s) && Born(c, s, e, t) && t.epoch == s.epoch
    requires Stands(s, d, j) && j != c.index && 0 < d <= c.n && !Resolves(c, s, e, d, j)
    ensures d in t.excluded
  {
    hide Sound;
    hide Results;
    hide Handle;
    hide ResolvesAt;
    hide Step;
    BumpEpochKeeps(c, s, e.msg.epoch, e.draw1);
    HandleKeeps(c, BumpEpoch(c, s, e.msg.epoch, e.draw1).0, e.msg);
    HandleStands(c, s, e.msg, d, j);
    StandsNotReady(c, Handle(c, s, e.msg).0, d, j);
  }

  lemma StandsNotReady(c: Config, s: Node, d: int, j: int)
    requires Stands(s, d, j) && 0 < d <= c.n && AllReady(c, s)
    ensures d in s.bad
  {
    ReadyIsEvident(c, s);
    assert d !in s.bad ==> Evident(c, s, d);
  }

  lemma {:induction false} StandsUntil(c: Config, states: seq<Node>, events: seq<Event>, i: nat, k: nat, d: int, j: int)
    requires ValidConfig(c) && Run(c, states, events) && i <= k < |states| && j != c.index && d > 0
    requires Stands(states[i], d, j)
    requires forall l :: i <= l <= k ==> states[l].epoch == states[i].epoch && !states[l].fin.done
    requires forall l :: i <= l < k ==> !Resolves(c, states[l], events[l], d, j)
    ensures Stands(states[k], d, j)
  {
    hide Step;
    hide NodeInv;
    hide Resolves;
    hide Stands;
    if i < k {
      StandsUntil(c, states, events, i, k - 1, d, j);
      RunInvariant(c, states, events, k - 1);
      StepStands(c, states[k - 1], events[k - 1], d, j);
    }
  }

  /** Until the run computes a result at step k, the epoch only grows and nothing is finished. */
  lemma BeforeResult(c: Config, states: seq<Node>, events: seq<Event>, i: nat, k: nat, t: Ticket)
    requires ValidConfig(c) && Run(c, states, events) && i <= k < |events| && Born(c, states[k], events[k], t)
    requires states[i].epoch == t.epoch
    ensures forall l :: i <= l <= k ==> states[l].epoch == t.epoch && !states[l].fin.done
  {
    hide Step;
    hide Regresses;
    RunInvariant(c, states, events, k);
    forall l | 0 <= l < k
      ensures !Regresses(states[l], events[l])
    {
      if Regresses(states[l], events[l]) {
        AwakeNeverRegressed(c, states, events, l, k);
      }
    }
    BornEpoch(c, states[k], events[k], t);
    forall l | i <= l <= k
      ensures states[l].epoch == t.epoch && !states[l].fin.done
    {
      RunMonotone(c, states, events, i, l);
      RunMonotone(c, states, events, l, k);
    }
  }

  lemma BornEpoch(c: Config, s: Node, e: Event, t: Ticket)
    requires ValidConfig(c) && NodeInv(c, s) && Born(c, s, e, t)
    ensures s.epoch <= t.epoch
  {
    hide Sound;
    hide Results;
    hide Handle;
    hide AllReady;
    hide KeysReadable;
    BumpEpochKeeps(c, s, e.msg.epoch, e.draw1);
    HandleKeeps(c, BumpEpoch(c, s, e.msg.epoch, e.draw1).0, e.msg);
  }

  /** While a complaint stands in an epoch, no result of that epoch that counts the dealer in
      is computed before the complainant acknowledges the dealer or its share is opened and
      verifies. */
  lemma ComplaintBlocks(c: Config, states: seq<Node>, events: seq<Event>, i: nat, k: nat, d: int, j: int, t: Ticket)
    requires ValidConfig(c) && Run(c, states, events) && i <= k < |events| && Born(c, states[k], events[k], t)
    requires states[i].epoch == t.epoch && Stands(states[i], d, j) && j != c.index && 0 < d <= c.n
    ensures d in t.excluded || exists l :: i <= l <= k && Resolves(c, states[l], events[l], d, j)
  {
    hide Step;
    hide NodeInv;
    hide Born;
    hide Stands;
    hide Resolves;
    if forall l :: i <= l <= k ==> !Resolves(c, states[l], events[l], d, j) {
      RunInvariant(c, states, events, k);
      BeforeResult(c, states, events, i, k, t);
      StandsUntil(c, states, events, i, k, d, j);
      BornAfterComplaint(c, states[k], events[k], t, d, j);
    }
  }

  /** A delivered complaint of a third party stands, in its epoch. */
  lemma ComplaintFiled(c: Config, s: Node, e: Event, d: int, j: int)
    requires ValidConfig(c) && NodeInv(c, s) && ValidEvent(c, s, e) && !s.fin.done && e.Deliver?
    requires e.msg.epoch >= s.epoch && e.msg.epoch > 0 && 0 < j <= c.n && j != c.index
    requires e.msg == Msg(j, e.msg.epoch, Complaint(d)) && 0 < d <= c.n && d != c.index
    ensures var s' := Step(c, s, e).0; s'.epoch != e.msg.epoch || Stands(s', d, j)
  {
    hide Sound;
    hide Results;
    hide MaybeFinalize;
    BumpEpochKeeps(c, s, e.msg.epoch, e.draw1);
    var s1 := BumpEpoch(c, s, e.msg.epoch, e.draw1).0;
    hide BumpEpoch;
    var x := Handle(c, s1, e.msg).0;
    assert Stands(x, d, j);
    MaybeFinalizeStands(c, x, e.draw2, e.sumOk, d, j);
    assert Step(c, s, e).0 == MaybeFinalize(c, x, e.draw2, e.sumOk).0;
  }
}
