/** The key generation runner as the mutable object of
    internal/tss/dkg/beast_runner_blst.go: its handlers update the fields in place, and
    each is proved to take exactly the step that the state machine of one node takes. */
module DkgRunner {
  import opened PrimeField
  import opened Interpolation
  import opened Curve
  import opened Outcomes
  import opened Feldman
  import opened DkgNode
  import opened DkgInvariant
  import opened DkgLaws
  import Spec = DkgNode

  // ----- the qualified dealers as a list

  function QualList(n: int, excluded: set<int>): (q: seq<int>)
    ensures |q| == QualSize(n, excluded)
    ensures forall i :: 0 <= i < |q| ==> Qualified(n, excluded, q[i])
  {
    if n <= 0 then [] else QualList(n - 1, excluded) + if n in excluded then [] else [n]
  }

  ghost predicate AllIn<V>(ds: seq<int>, m: map<int, V>) {
    forall i :: 0 <= i < |ds| ==> ds[i] in m
  }

  ghost predicate Readable(ds: seq<int>, coms: map<int, seq<Compressed>>) {
    forall i :: 0 <= i < |ds| ==> ds[i] in coms && coms[ds[i]] != [] && coms[ds[i]][0].Point?
  }

  ghost function LogSum(ds: seq<int>, coms: map<int, seq<Compressed>>): int
    requires Readable(ds, coms)
  {
    if ds == [] then 0 else LogSum(ds[..|ds| - 1], coms) + coms[ds[|ds| - 1]][0].dlog
  }

  ghost function ValueSum(ds: seq<int>, shares: map<int, Scalar>): int
    requires AllIn(ds, shares)
  {
    if ds == [] then 0 else ValueSum(ds[..|ds| - 1], shares) + shares[ds[|ds| - 1]]
  }

  lemma QualListStep(n: int, excluded: set<int>)
    ensures n <= 0 ==> QualList(n, excluded) == []
    ensures n > 0 ==>
      var q := QualList(n, excluded);
      if n in excluded then q == QualList(n - 1, excluded)
      else q != [] && q[|q| - 1] == n && q[..|q| - 1] == QualList(n - 1, excluded) && Qualified(n, excluded, n)
    ensures forall d :: Qualified(n - 1, excluded, d) ==> Qualified(n, excluded, d)
  {
  }

  lemma LogSumSnoc(ds: seq<int>, coms: map<int, seq<Compressed>>)
    requires ds != [] && Readable(ds[..|ds| - 1], coms)
    requires var d := ds[|ds| - 1]; d in coms && coms[d] != [] && coms[d][0].Point?
    ensures Readable(ds, coms) && LogSum(ds, coms) == LogSum(ds[..|ds| - 1], coms) + coms[ds[|ds| - 1]][0].dlog
  {
    forall i | 0 <= i < |ds|
      ensures ds[i] in coms && coms[ds[i]] != [] && coms[ds[i]][0].Point?
    {
      assert i < |ds| - 1 ==> ds[..|ds| - 1][i] == ds[i];
    }
  }

  lemma {:induction false} LogSumIsKeySum(n: int, excluded: set<int>, coms: map<int, seq<Compressed>>)
    requires KeysReadable(n, excluded, coms)
    ensures Readable(QualList(n, excluded), coms)
    ensures LogSum(QualList(n, excluded), coms) == KeySum(n, excluded, coms)
  {
    hide QualList;
    hide QualSize;
    QualListStep(n, excluded);
    if n > 0 {
      LogSumIsKeySum(n - 1, excluded, coms);
      if n !in excluded {
        LogSumSnoc(QualList(n, excluded), coms);
      }
    }
  }

  lemma ValueSumSnoc(ds: seq<int>, shares: map<int, Scalar>)
    requires ds != [] && AllIn(ds[..|ds| - 1], shares) && ds[|ds| - 1] in shares
    ensures AllIn(ds, shares) && ValueSum(ds, shares) == ValueSum(ds[..|ds| - 1], shares) + shares[ds[|ds| - 1]]
  {
    forall i | 0 <= i < |ds|
      ensures ds[i] in shares
    {
      assert i < |ds| - 1 ==> ds[..|ds| - 1][i] == ds[i];
    }
  }

  lemma {:induction false} ValueSumIsShareSum(n: int, excluded: set<int>, shares: map<int, Scalar>)
    requires SharesPresent(n, excluded, shares)
    ensures AllIn(QualList(n, excluded), shares)
    ensures ValueSum(QualList(n, excluded), shares) == ShareSum(n, excluded, shares)
  {
    hide QualList;
    hide QualSize;
    QualListStep(n, excluded);
    if n > 0 {
      ValueSumIsShareSum(n - 1, excluded, shares);
      if n !in excluded {
        ValueSumSnoc(QualList(n, excluded), shares);
      }
    }
  }

  /** A dealer whose point does not decompress is a dealer of the list. */
  lemma {:induction false} ListCovers(n: int, excluded: set<int>, d: int) returns (i: nat)
    requires Qualified(n, excluded, d)
    ensures i < QualSize(n, excluded) && QualList(n, excluded)[i] == d
  {
    if n == d {
      i := QualSize(n, excluded) - 1;
    } else {
      i := ListCovers(n - 1, excluded, d);
    }
  }

  lemma ReadableKeys(n: int, excluded: set<int>, coms: map<int, seq<Compressed>>)
    requires Readable(QualList(n, excluded), coms)
    ensures KeysReadable(n, excluded, coms)
  {
    forall d | 0 < d <= n && Qualified(n, excluded, d)
      ensures d in coms && coms[d] != [] && coms[d][0].Point?
    {
      var i := ListCovers(n, excluded, d);
    }
  }

  /** Adding up a list of points; fails on one that does not decompress. */
  method SumKeys(qual: seq<int>, coms: map<int, seq<Compressed>>) returns (r: Option<Scalar>)
    requires forall i :: 0 <= i < |qual| ==> qual[i] in coms && coms[qual[i]] != []
    ensures r.Some? <==> Readable(qual, coms)
    ensures r.Some? ==> r.value == Reduce(LogSum(qual, coms))
  {
    var acc: Scalar := 0;
    ReduceSmall(0);
    for k := 0 to |qual|
      invariant Readable(qual[..k], coms)
      invariant acc == Reduce(LogSum(qual[..k], coms))
    {
      var first := coms[qual[k]][0];
      if !first.Point? {
        return None;
      }
      assert qual[..k + 1][..k] == qual[..k];
      ReduceOps(LogSum(qual[..k], coms), first.dlog);
      acc := Reduce(acc + first.dlog);
    }
    assert qual[..|qual|] == qual;
    r := Some(acc);
  }

  ghost predicate SumVanishes(ds: seq<int>, shares: map<int, Scalar>) {
    AllIn(ds, shares) && exists k :: 0 < k <= |ds| && Reduce(ValueSum(ds[..k], shares)) == 0
  }

  /** What readiness of all dealers means for their list. */
  lemma ReadyParts(c: Config, s: Node)
    requires AllReady(c, s)
    ensures var q := QualList(c.n, s.bad);
            && (forall i :: 0 <= i < |q| ==> q[i] in s.commitments && s.commitments[q[i]] != [])
            && SharesPresent(c.n, s.bad, s.shares) && AllIn(q, s.shares)
            && ValueSum(q, s.shares) == ShareSum(c.n, s.bad, s.shares)
            && (Readable(q, s.commitments) <==> KeysReadable(c.n, s.bad, s.commitments))
            && (KeysReadable(c.n, s.bad, s.commitments) ==>
                  LogSum(q, s.commitments) == KeySum(c.n, s.bad, s.commitments))
  {
    var q := QualList(c.n, s.bad);
    assert forall i :: 0 <= i < |q| ==> Qualified(c.n, s.bad, q[i]) && 0 < q[i] <= c.n;
    ValueSumIsShareSum(c.n, s.bad, s.shares);
    if KeysReadable(c.n, s.bad, s.commitments) {
      LogSumIsKeySum(c.n, s.bad, s.commitments);
    }
    if Readable(q, s.commitments) {
      ReadableKeys(c.n, s.bad, s.commitments);
    }
  }

  /** Adding up shares; the curve library may refuse an addition that gives zero. */
  method SumShares(qual: seq<int>, shares: map<int, Scalar>) returns (r: Option<Scalar>)
    requires AllIn(qual, shares)
    ensures r.Some? ==> r.value == Reduce(ValueSum(qual, shares))
    ensures r.None? ==> SumVanishes(qual, shares)
  {
    var acc: Scalar := 0;
    ReduceSmall(0);
    for k := 0 to |qual|
      invariant acc == Reduce(ValueSum(qual[..k], shares))
    {
      assert qual[..k + 1][..k] == qual[..k];
      ReduceOps(ValueSum(qual[..k], shares), shares[qual[k]]);
      var ok;
      acc, ok := AddChecked(acc, shares[qual[k]]);
      if !ok {
        return None;
      }
    }
    assert qual[..|qual|] == qual;
    r := Some(acc);
  }

  lemma RestoreFields(c: Config, st: Session)
    requires st.result.None?
    ensures var r := Restore(c, st);
            && r.epoch == st.epoch && r.coeffs == st.coeffs && r.selfCommitments == st.selfCommitments
            && r.commitments == OwnCommitments(c, st) + st.commitments
            && r.shares == (if st.coeffs == [] || c.index in st.shares then st.shares
                            else st.shares[c.index := Reduce(PolyAt(st.coeffs, c.index))])
            && r.acks == st.acks && r.complaints == st.complaints && r.bad == Positive(st.disqualified)
            && r.pendingShare == map[] && r.pendingOpen == map[] && r.fin == NOT_DONE
  {
  }

  lemma BumpIdle(c: Config, s: Node, epoch: nat, draw: Draw)
    ensures epoch <= s.epoch ==> Spec.BumpEpoch(c, s, epoch, draw) == (s, {})
  {
  }

  lemma SameNode(a: Node, b: Node)
    requires a.epoch == b.epoch && a.coeffs == b.coeffs && a.selfCommitments == b.selfCommitments
    requires a.commitments == b.commitments && a.shares == b.shares
    requires a.pendingShare == b.pendingShare && a.pendingOpen == b.pendingOpen
    requires a.acks == b.acks && a.complaints == b.complaints && a.bad == b.bad && a.fin == b.fin
    ensures a == b
  {
  }

  /** The library evaluates the share a message carries. */
  ghost predicate Sendable(coeffs: seq<Scalar>, m: Msg) {
    (m.body.EncShare? || m.body.ShareOpen?) ==> NoZeroStep(coeffs, m.body.to)
  }

  /** Everything the step sends that can be evaluated is broadcast. */
  ghost predicate AllSent(coeffs: seq<Scalar>, out: set<Msg>, sent: set<Msg>) {
    forall m :: m in out && Sendable(coeffs, m) ==> m in sent
  }

  class Runner {
    const c: Config
    var epoch: nat
    var coeffs: seq<Scalar>
    var selfCommitments: seq<Compressed>
    var commitments: map<int, seq<Compressed>>
    var shares: map<int, Scalar>
    var pendingShare: map<int, Msg>
    var pendingOpen: map<int, Msg>
    var acks: map<int, set<int>>
    var complaints: map<int, set<int>>
    var badDealers: set<int>
    var done: bool
    var finalizing: bool
    var result: Option<Ticket>
    /** Results being written to the key store, outside the lock. */
    var inflight: seq<Ticket>
    /** What the key store holds. */
    var store: Option<Ticket>
    /** A key share was found at start: no handler is installed. */
    var idle: bool
    /** What the transport was asked to broadcast. */
    var sent: set<Msg>

    function State(): Node
      reads this
    {
      Node(epoch, coeffs, selfCommitments, commitments, shares, pendingShare, pendingOpen, acks, complaints,
           badDealers, Finish(done, finalizing, result, inflight, store, idle))
    }

    ghost predicate Valid()
      reads this
    {
      ValidConfig(c) && NodeInv(c, State())
    }

    constructor (c: Config, epoch: nat)
      requires ValidConfig(c)
      ensures this.c == c && State() == Fresh(Configured(epoch)) && sent == {}
      ensures Valid()
    {
      this.c := c;
      this.epoch := if epoch == 0 then 1 else epoch;
      coeffs, selfCommitments, commitments, shares := [], [], map[], map[];
      pendingShare, pendingOpen, acks, complaints, badDealers := map[], map[], map[], map[], {};
      done, finalizing, result, inflight, store, idle, sent := false, false, None, [], None, false, {};
    }

    /** A new process over what the old one left: a key share in the key store settles
        everything, otherwise the saved session is taken up. */
    constructor Reopen(c: Config, cfgEpoch: nat, keyShare: Option<Ticket>, st: Session)
      ensures this.c == c && State() == Spec.Reopen(c, cfgEpoch, keyShare, st) && sent == {}
    {
      this.c := c;
      epoch := if cfgEpoch == 0 then 1 else cfgEpoch;
      coeffs, selfCommitments, commitments, shares := [], [], map[], map[];
      pendingShare, pendingOpen, acks, complaints, badDealers := map[], map[], map[], map[], {};
      done, finalizing, result, inflight, store, idle, sent := false, false, None, [], None, false, {};
      new;
      if keyShare.Some? {
        done, result, store, idle := true, keyShare, keyShare, true;
      } else if st.epoch != 0 {
        TakeUp(st);
      }
    }

    method TakeUp(st: Session)
      requires State() == Fresh(epoch)
      modifies this
      ensures State() == Restore(c, st) && sent == old(sent)
    {
      epoch := st.epoch;
      if st.result.Some? {
        done, result := true, st.result;
      } else {
        TakeUpEvidence(st);
      }
    }

    method TakeUpEvidence(st: Session)
      requires st.result.None? && epoch == st.epoch && pendingShare == map[] && pendingOpen == map[] && State().fin == NOT_DONE
      modifies this`coeffs, this`selfCommitments, this`commitments, this`shares, this`acks, this`complaints, this`badDealers
      ensures State() == Restore(c, st)
    {
      hide Restore;
      hide PolyAt;
      acks, complaints, badDealers := st.acks, st.complaints, Positive(st.disqualified);
      TakeUpDealing(st);
      RestoreFields(c, st);
      SameNode(State(), Restore(c, st));
    }

    method TakeUpDealing(st: Session)
      modifies this`coeffs, this`selfCommitments, this`commitments, this`shares
      ensures coeffs == st.coeffs && selfCommitments == st.selfCommitments
      ensures commitments == OwnCommitments(c, st) + st.commitments
      ensures shares == if st.coeffs == [] || c.index in st.shares then st.shares
                        else st.shares[c.index := Reduce(PolyAt(st.coeffs, c.index))]
    {
      coeffs, selfCommitments := st.coeffs, st.selfCommitments;
      commitments := OwnCommitments(c, st) + st.commitments;
      shares := st.shares;
      if coeffs != [] && c.index !in shares {
        shares := shares[c.index := Reduce(PolyAt(coeffs, c.index))];
      }
    }

    /** What is saved resumes to a node in order. */
    method SaveSession() returns (st: Session)
      ensures st == Persist(State())
      ensures Valid() ==> forall cfgEpoch :: NodeInv(c, Spec.Reopen(c, cfgEpoch, store, st))
    {
      st := Session(epoch, coeffs, selfCommitments, commitments, shares,
                    map d | d in acks && acks[d] != {} :: acks[d],
                    map d | d in complaints && complaints[d] != {} :: complaints[d], badDealers,
                    if done then result else None);
      if Valid() {
        forall cfgEpoch: nat
          ensures NodeInv(c, Spec.Reopen(c, cfgEpoch, store, st))
        {
          ReopenKeeps(c, State(), cfgEpoch);
        }
      }
    }

    method ResetForEpoch(e: nat)
      modifies this
      ensures State() == Reset(old(State()), e) && sent == old(sent)
    {
      ClearEvidence();
      ClearFinish();
      epoch, coeffs, selfCommitments := e, [], [];
      SameNode(State(), Reset(old(State()), e));
    }

    method ClearFinish()
      modifies this`done, this`finalizing, this`result
      ensures State().fin == old(State()).fin.(done := false, finalizing := false, result := None)
    {
      done, finalizing, result := false, false, None;
    }

    method ClearEvidence()
      modifies this`commitments, this`shares, this`pendingShare, this`pendingOpen, this`acks, this`complaints, this`badDealers
      ensures commitments == map[] && shares == map[] && pendingShare == map[] && pendingOpen == map[]
      ensures acks == map[] && complaints == map[] && badDealers == {}
    {
      commitments, shares := map[], map[];
      pendingShare, pendingOpen, acks, complaints, badDealers := map[], map[], map[], map[], {};
    }

    /** The polynomial that is adopted is the one drawn, unless the library refuses it. */
    method EnsureLocalPoly(rand: Draw) returns (ghost draw: Draw)
      requires ValidConfig(c) && ValidDraw(c, rand)
      modifies this
      ensures State() == Spec.EnsureLocalPoly(c, old(State()), draw) && sent == old(sent)
      ensures draw == rand || draw == None
      ensures rand.Some? && NoZeroStep(rand.value, c.index) ==> draw == rand
    {
      hide NoZeroStep;
      hide PolyAt;
      draw := rand;
      if (coeffs != [] && selfCommitments != []) || rand.None? {
        return;
      }
      var com := CommitmentsFromPoly(rand.value);
      var selfShare := EvalPolyAt(rand.value, c.index);
      if com.Err? || selfShare.Err? {
        draw := None;
        return;
      }
      coeffs := rand.value;
      selfCommitments := com.value;
      commitments := commitments[c.index := com.value];
      shares := shares[c.index := selfShare.value];
    }

    method BroadcastCommitments()
      modifies this`sent
      ensures sent == old(sent) + {CommitmentsMsg(c, State())}
    {
      sent := sent + {Msg(c.index, epoch, Commitments(selfCommitments))};
    }

    method BumpEpoch(e: nat, rand: Draw) returns (ghost draw: Draw)
      requires ValidConfig(c) && ValidDraw(c, rand)
      modifies this
      ensures State() == Spec.BumpEpoch(c, old(State()), e, draw).0
      ensures sent == old(sent) + Spec.BumpEpoch(c, old(State()), e, draw).1
      ensures draw == rand || draw == None
      ensures rand.Some? && NoZeroStep(rand.value, c.index) ==> draw == rand
    {
      draw := rand;
      if e == 0 || done || e <= epoch {
        return;
      }
      ResetForEpoch(e);
      draw := EnsureLocalPoly(rand);
      BroadcastCommitments();
    }

    /** Every share that can be evaluated and is not acknowledged yet is sent. */
    method BroadcastMissingShares()
      requires ValidConfig(c)
      modifies this`sent
      ensures old(sent) <= sent <= old(sent) + MissingShares(c, State())
      ensures forall m :: m in MissingShares(c, State()) && Sendable(coeffs, m) ==> m in sent
      ensures forall i :: coeffs != [] && 0 < i <= c.n && i != c.index && !AckedBy(c, State(), i) && NoZeroStep(coeffs, i) ==>
        Msg(c.index, epoch, EncShare(i, Plain(Reduce(PolyAt(coeffs, i))))) in sent
    {
      var mine := Bucket(acks, c.index);
      ghost var before := sent;
      for i := 1 to c.n + 1
        invariant before <= sent <= before + MissingShares(c, State())
        invariant forall m :: m in MissingShares(c, State()) && m.body.to < i && Sendable(coeffs, m) ==> m in sent
        invariant forall j :: coeffs != [] && 0 < j < i && j != c.index && !AckedBy(c, State(), j) && NoZeroStep(coeffs, j) ==>
          Msg(c.index, epoch, EncShare(j, Plain(Reduce(PolyAt(coeffs, j))))) in sent
      {
        if i == c.index || i in mine || coeffs == [] {
          continue;
        }
        var share := EvalPolyAt(coeffs, i);
        if share.Ok? {
          var m := Msg(c.index, epoch, EncShare(i, Plain(share.value)));
          assert m in MissingShares(c, State());
          sent := sent + {m};
        }
      }
    }

    method BroadcastShareOpen(to: int)
      requires ValidConfig(c)
      modifies this`sent
      ensures old(sent) <= sent <= old(sent) + OpenShare(c, State(), to)
      ensures NoZeroStep(coeffs, to) ==> sent == old(sent) + OpenShare(c, State(), to)
    {
      if to <= 0 || to > c.n || to == c.index || coeffs == [] {
        return;
      }
      var share := EvalPolyAt(coeffs, to);
      if share.Ok? {
        sent := sent + {Msg(c.index, epoch, ShareOpen(to, Opened(share.value)))};
      }
    }

    method Disqualify(d: int)
      modifies this`badDealers, this`complaints
      ensures State() == Spec.Disqualify(old(State()), d)
    {
      if d <= 0 || d in badDealers {
        return;
      }
      badDealers := badDealers + {d};
      complaints := complaints - {d};
    }

    method ClearComplaint(d: int, who: int)
      modifies this`complaints
      ensures complaints == WithoutComplaint(old(complaints), d, who)
    {
      if d in complaints {
        complaints := complaints[d := complaints[d] - {who}];
        if complaints[d] == {} {
          complaints := complaints - {d};
        }
      }
    }

    method RecordAck(d: int, who: int)
      modifies this`acks, this`complaints
      ensures State() == Spec.RecordAck(old(State()), d, who)
    {
      if d !in acks {
        acks := acks[d := {}];
      }
      acks := acks[d := acks[d] + {who}];
      ClearComplaint(d, who);
    }

    method RecordComplaint(d: int, who: int)
      modifies this`complaints
      ensures State() == Spec.RecordComplaint(old(State()), d, who)
    {
      if d !in complaints {
        complaints := complaints[d := {}];
      }
      complaints := complaints[d := complaints[d] + {who}];
    }

    method BroadcastAck(d: int)
      modifies this`acks, this`complaints, this`sent
      ensures State() == Acknowledge(c, old(State()), d).0 && sent == old(sent) + Acknowledge(c, old(State()), d).1
    {
      RecordAck(d, c.index);
      sent := sent + {Msg(c.index, epoch, Ack(d))};
    }

    method BroadcastComplaint(d: int)
      modifies this`complaints, this`sent
      ensures State() == Complain(c, old(State()), d).0 && sent == old(sent) + Complain(c, old(State()), d).1
    {
      RecordComplaint(d, c.index);
      sent := sent + {Msg(c.index, epoch, Complaint(d))};
    }

    method OnCommitments(from: int, points: seq<Compressed>)
      modifies this`badDealers, this`complaints, this`commitments
      ensures State() == Spec.OnCommitments(c, old(State()), from, points)
    {
      if points == [] {
        return;
      }
      if |points| != c.threshold {
        Disqualify(from);
        return;
      }
      for k := 0 to |points|
        invariant State() == old(State())
        invariant AllPoints(points[..k])
      {
        if !points[k].Point? {
          assert !AllPoints(points);
          Disqualify(from);
          return;
        }
      }
      assert points[..|points|] == points;
      if from in badDealers || from in commitments {
        return;
      }
      commitments := commitments[from := points];
    }

    method OnShare(m: Msg)
      requires ValidConfig(c) && m.body.EncShare?
      modifies this
      ensures State() == Spec.OnShare(c, old(State()), m).0 && sent == old(sent) + Spec.OnShare(c, old(State()), m).1
    {
      var d := m.from;
      if d in badDealers {
        return;
      }
      if d !in commitments || commitments[d] == [] {
        pendingShare := pendingShare[d := m];
        return;
      }
      if d in shares {
        return;
      }
      if m.body.plain.NoKey? {
        return;
      }
      if m.body.plain.Garbled? {
        BroadcastComplaint(d);
        return;
      }
      var verdict := VerifyFeldmanShare(m.body.plain.value, c.index, commitments[d]);
      hide FeldmanCheck;
      if verdict != Ok(true) {
        BroadcastComplaint(d);
        return;
      }
      pendingShare := pendingShare - {d};
      shares := shares[d := m.body.plain.value];
      BroadcastAck(d);
    }

    method OnShareOpen(m: Msg)
      requires ValidConfig(c) && m.body.ShareOpen?
      modifies this
      ensures State() == Spec.OnShareOpen(c, old(State()), m).0
      ensures sent == old(sent) + Spec.OnShareOpen(c, old(State()), m).1
    {
      hide FeldmanCheck;
      var d, to, content := m.from, m.body.to, m.body.content;
      if to <= 0 || to > c.n {
        return;
      }
      if content.WrongSize? {
        Disqualify(d);
        return;
      }
      if d in badDealers {
        return;
      }
      if d !in commitments || commitments[d] == [] {
        pendingOpen := pendingOpen[d := m];
        return;
      }
      if content.NotScalar? {
        Disqualify(d);
        return;
      }
      var verdict := VerifyFeldmanShare(content.value, to, commitments[d]);
      if verdict != Ok(true) {
        Disqualify(d);
        return;
      }
      pendingOpen := pendingOpen - {d};
      ClearComplaint(d, to);
      if to == c.index {
        if d !in shares {
          shares := shares[d := content.value];
        }
        BroadcastAck(d);
      }
    }

    method OnAck(from: int, d: int)
      modifies this`acks, this`complaints
      ensures State() == Spec.OnAck(c, old(State()), from, d)
    {
      if d <= 0 || d > c.n || d in badDealers {
        return;
      }
      RecordAck(d, from);
    }

    method OnComplaint(from: int, d: int)
      requires ValidConfig(c)
      modifies this`complaints, this`sent
      ensures State() == Spec.OnComplaint(c, old(State()), from, d).0
      ensures old(sent) <= sent <= old(sent) + Spec.OnComplaint(c, old(State()), from, d).1
      ensures AllSent(coeffs, Spec.OnComplaint(c, old(State()), from, d).1, sent)
    {
      if d <= 0 || d > c.n {
        return;
      }
      if d == c.index {
        BroadcastShareOpen(from);
        return;
      }
      if d in badDealers {
        return;
      }
      RecordComplaint(d, from);
    }

    method TryProcessPending(d: int)
      requires ValidConfig(c) && PendingKinds(c, State())
      modifies this
      ensures State() == Spec.TryProcessPending(c, old(State()), d).0
      ensures sent == old(sent) + Spec.TryProcessPending(c, old(State()), d).1
    {
      hide Spec.OnShareOpen;
      hide Spec.OnShare;
      ghost var s0 := State();
      ghost var s1 := if d in pendingShare then Spec.OnShare(c, s0, s0.pendingShare[d]).0 else s0;
      assert d in s1.pendingOpen ==> s1.pendingOpen[d].body.ShareOpen? by {
        if d in pendingShare {
          OnShareCases(c, s0, pendingShare[d]);
        }
      }
      if d in pendingShare {
        OnShare(pendingShare[d]);
      }
      if d in pendingOpen {
        OnShareOpen(pendingOpen[d]);
      }
    }

    /** The loop over dealers: either all qualified dealers are ready, and they are
        listed, or some is not. */
    method Qualify() returns (qual: Option<seq<int>>)
      requires ValidConfig(c)
      ensures qual.Some? <==> AllReady(c, State())
      ensures qual.Some? <==> AllEvident(c, State())
      ensures qual.Some? ==> qual.value == QualList(c.n, badDealers)
    {
      ReadyIsEvident(c, State());
      var q: seq<int> := [];
      for dealer := 1 to c.n + 1
        invariant q == QualList(dealer - 1, badDealers)
        invariant forall d :: 0 < d < dealer && Qualified(c.n, badDealers, d) ==> DealerReady(c, State(), d)
      {
        if dealer in badDealers {
          continue;
        }
        assert Qualified(c.n, badDealers, dealer);
        if (dealer !in commitments || commitments[dealer] == []) || (dealer in complaints && complaints[dealer] != {}) ||
           |Bucket(acks, dealer)| < c.n - 1 || dealer !in shares
        {
          return None;
        }
        q := q + [dealer];
      }
      qual := Some(q);
    }

    /** The first locked region of finalisation. It gives up on adding the shares only
        when a partial sum is zero. */
    method MaybeFinalize(rand: Draw) returns (ghost draw: Draw, ghost sumOk: bool)
      requires ValidConfig(c) && ValidDraw(c, rand)
      modifies this
      ensures State() == Spec.MaybeFinalize(c, old(State()), draw, sumOk).0
      ensures sent == old(sent) + Spec.MaybeFinalize(c, old(State()), draw, sumOk).1
      ensures draw == rand || draw == None
      ensures rand.Some? && NoZeroStep(rand.value, c.index) ==> draw == rand
      ensures !sumOk ==> SumVanishes(QualList(c.n, old(badDealers)), old(shares))
    {
      hide Spec.Finalize;
      hide Spec.BumpEpoch;
      draw, sumOk := rand, true;
      if done || finalizing {
        return;
      }
      if c.n - |badDealers| < c.threshold {
        draw := BumpEpoch(NextEpoch(epoch), rand);
        return;
      }
      sumOk := Finalize();
    }

    method Finalize() returns (ghost sumOk: bool)
      requires ValidConfig(c)
      modifies this`finalizing, this`inflight
      ensures State() == Spec.Finalize(c, old(State()), sumOk)
      ensures !sumOk ==> SumVanishes(QualList(c.n, badDealers), shares)
    {
      hide AllReady;
      hide KeysReadable;
      hide QualSize;
      hide QualList;
      hide SumVanishes;
      var t;
      t, sumOk := ComputeResult();
      hide NewTicket;
      if t.Some? {
        finalizing := true;
        inflight := inflight + [t.value];
      }
    }

    /** The group key and the key share, or nothing: exactly when some qualified dealer is
        not ready, there are too few, a key does not decompress or the sum is refused. */
    method ComputeResult() returns (t: Option<Ticket>, ghost sumOk: bool)
      requires ValidConfig(c)
      ensures t.Some? <==> AllReady(c, State()) && QualSize(c.n, badDealers) >= c.threshold
                           && KeysReadable(c.n, badDealers, commitments) && sumOk
      ensures t.Some? ==> t.value == NewTicket(c, State())
      ensures !sumOk ==> SumVanishes(QualList(c.n, badDealers), shares)
    {
      sumOk := true;
      var qual := Qualify();
      if qual.None? || |qual.value| < c.threshold {
        return None, true;
      }
      ReadyParts(c, State());
      var gpk := SumKeys(qual.value, commitments);
      if gpk.None? {
        return None, true;
      }
      var sum := SumShares(qual.value, shares);
      if sum.None? {
        return None, false;
      }
      t := Some(Ticket(epoch, badDealers, commitments, gpk.value, sum.value));
    }

    /** Between the regions the key share of inflight[k] is saved. */
    method SaveKeyShare(k: nat)
      requires k < |inflight|
      modifies this`store
      ensures State() == old(State()).(fin := Save(old(State()).fin, k))
    {
      store := Some(inflight[k]);
    }

    /** The second locked region. */
    method Publish(k: nat)
      requires k < |inflight|
      modifies this`inflight, this`finalizing, this`done, this`result
      ensures State() == old(State()).(fin := Spec.Publish(old(State()).fin, epoch, k))
    {
      var t := inflight[k];
      inflight := Without(inflight, k);
      if done || epoch != t.epoch {
        finalizing := false;
        return;
      }
      done := true;
      result := Some(t);
    }

    method Handle(m: Msg)
      requires Valid() && m.epoch == epoch
      modifies this
      ensures State() == Spec.Handle(c, old(State()), m).0
      ensures old(sent) <= sent <= old(sent) + Spec.Handle(c, old(State()), m).1
      ensures AllSent(coeffs, Spec.Handle(c, old(State()), m).1, sent)
    {
      match m.body
      case Commitments(points) =>
        OnCommitments(m.from, points);
        TryProcessPending(m.from);
        BroadcastMissingShares();
      case EncShare(to, _) =>
        if to == c.index {
          OnShare(m);
        }
      case ShareOpen(_, _) => OnShareOpen(m);
      case Ack(d) => OnAck(m.from, d);
      case Complaint(d) => OnComplaint(m.from, d);
      case Unknown =>
    }

    method Dispatch(m: Msg, rand: Draw) returns (ghost draw: Draw, ghost sumOk: bool)
      requires Valid() && ValidDraw(c, rand) && m.epoch == epoch && 0 < m.from <= c.n && m.from != c.index
      modifies this
      ensures State() == Spec.Dispatch(c, old(State()), m, draw, sumOk).0
      ensures old(sent) <= sent <= old(sent) + Spec.Dispatch(c, old(State()), m, draw, sumOk).1
      ensures AllSent(old(coeffs), Spec.Dispatch(c, old(State()), m, draw, sumOk).1, sent)
      ensures draw == rand || draw == None
      ensures rand.Some? && NoZeroStep(rand.value, c.index) ==> draw == rand
    {
      hide Spec.Handle;
      hide Spec.MaybeFinalize;
      hide Sound;
      hide Results;
      draw, sumOk := rand, true;
      if !Ignored(c, m) {
        HandleKeeps(c, State(), m);
        Handle(m);
        draw, sumOk := MaybeFinalize(rand);
      }
    }

    /** A delivered message takes the node exactly one step of the state machine and keeps
        its invariant; what is broadcast is what that step sends, except for shares that
        the curve library refuses to evaluate. */
    method OnMessage(m: Msg, rand1: Draw, rand2: Draw) returns (ghost e: Event)
      requires Valid() && !idle && ValidDraw(c, rand1) && ValidDraw(c, rand2)
      modifies this
      ensures Valid() && Progress(old(State()), State())
      ensures e.Deliver? && e.msg == m && (e.draw1 == rand1 || e.draw1 == None) && (e.draw2 == rand2 || e.draw2 == None)
      ensures rand1.Some? && NoZeroStep(rand1.value, c.index) ==> e.draw1 == rand1
      ensures rand2.Some? && NoZeroStep(rand2.value, c.index) ==> e.draw2 == rand2
      ensures State() == Step(c, old(State()), e).0
      ensures old(sent) <= sent <= old(sent) + Step(c, old(State()), e).1
      ensures AllSent(Spec.BumpEpoch(c, old(State()), m.epoch, e.draw1).0.coeffs, Step(c, old(State()), e).1, sent)
    {
      hide Spec.Dispatch;
      hide Spec.BumpEpoch;
      hide Sound;
      hide Results;
      ghost var draw1, draw2, sumOk := rand1, rand2, true;
      if m.epoch == 0 || m.from <= 0 || m.from > c.n || m.from == c.index || done || m.epoch < epoch {
      } else {
        BumpIdle(c, State(), m.epoch, rand1);
        if m.epoch > epoch {
          draw1 := BumpEpoch(m.epoch, rand1);
          BumpEpochKeeps(c, old(State()), m.epoch, draw1);
        }
        if m.epoch == epoch {
          draw2, sumOk := Dispatch(m, rand2);
        }
      }
      e := Deliver(m, draw1, draw2, sumOk);
      StepKeeps(c, old(State()), e);
    }

    /** The retry loop's tick when the epoch has timed out. */
    method OnTimeout(rand: Draw) returns (ghost draw: Draw)
      requires Valid() && !idle && ValidDraw(c, rand)
      modifies this
      ensures Valid() && Progress(old(State()), State())
      ensures draw == rand || draw == None
      ensures rand.Some? && NoZeroStep(rand.value, c.index) ==> draw == rand
      ensures State() == Step(c, old(State()), Timeout(draw)).0
      ensures sent == old(sent) + Step(c, old(State()), Timeout(draw)).1
    {
      draw := rand;
      if !done {
        draw := BumpEpoch(NextEpoch(epoch), rand);
      }
      BumpEpochKeeps(c, old(State()), NextEpoch(old(epoch)), draw);
    }

    /** The retry loop's tick otherwise. */
    method OnRetry()
      requires Valid() && !idle
      modifies this`sent
      ensures old(sent) <= sent <= old(sent) + Step(c, old(State()), Retry).1
      ensures AllSent(coeffs, Step(c, old(State()), Retry).1, sent)
    {
      if !done {
        BroadcastCommitments();
        BroadcastMissingShares();
      }
    }
  }
}
