/** One node of the distributed key generation: the state and handlers of
    internal/tss/dkg/beast_runner_blst.go, as functions from a state and an event to a
    state and the messages broadcast. Randomness is a parameter. */
module DkgNode {
  import opened PrimeField
  import opened Interpolation
  import opened Curve
  import opened Outcomes
  import opened Feldman

  datatype Config = Config(n: int, threshold: int, index: int)

  predicate ValidConfig(c: Config) {
    0 < c.threshold <= c.n < ORDER && 0 < c.index <= c.n
  }

  /** The content of an opened share. */
  datatype Opened = WrongSize | NotScalar | Opened(value: Scalar)

  /** What an encrypted share yields at its addressee: the decryption key may be
      underivable, decryption may fail or give no scalar. */
  datatype Decrypted = NoKey | Garbled | Plain(value: Scalar)

  datatype Body =
    | Commitments(points: seq<Compressed>)
    | EncShare(to: int, plain: Decrypted)
    | ShareOpen(to: int, content: Opened)
    | Ack(dealer: int)
    | Complaint(dealer: int)
    | Unknown

  /** A signed message of the session. */
  datatype Msg = Msg(from: int, epoch: nat, body: Body)

  /** A computed result: the epoch, the dealers left out and the commitments it was
      computed from, the group key and the node's key share. */
  datatype Ticket = Ticket(
    epoch: nat, excluded: set<int>, coms: map<int, seq<Compressed>>, gpk: Scalar, share: Scalar)

  /** Everything about finishing. Results in flight are being written to the key store,
      outside the lock; an idle process found a key share at its start and takes no part. */
  datatype Finish = Finish(
    done: bool, finalizing: bool, result: Option<Ticket>, inflight: seq<Ticket>, store: Option<Ticket>, idle: bool)

  const NOT_DONE := Finish(false, false, None, [], None, false)

  datatype Node = Node(
    epoch: nat,
    coeffs: seq<Scalar>,
    selfCommitments: seq<Compressed>,
    commitments: map<int, seq<Compressed>>,
    shares: map<int, Scalar>,
    pendingShare: map<int, Msg>,
    pendingOpen: map<int, Msg>,
    acks: map<int, set<int>>,
    complaints: map<int, set<int>>,
    bad: set<int>,
    fin: Finish)

  type Draw = Option<seq<Scalar>>

  function Fresh(epoch: nat): Node {
    Node(epoch, [], [], map[], map[], map[], map[], map[], map[], {}, NOT_DONE)
  }

  // ----- epochs

  /** Epochs are 64-bit counters; the successor of the last one is 0, which no node enters. */
  const LAST_EPOCH: nat := 0xFFFF_FFFF_FFFF_FFFF

  function NextEpoch(epoch: nat): nat {
    if epoch >= LAST_EPOCH then 0 else epoch + 1
  }

  /** Everything is forgotten except the key store and what is being written to it. */
  function Reset(s: Node, epoch: nat): Node {
    Fresh(epoch).(fin := s.fin.(done := false, finalizing := false, result := None))
  }

  /** A polynomial is drawn once per epoch; drawing may fail. */
  function EnsureLocalPoly(c: Config, s: Node, draw: Draw): Node {
    if (s.coeffs != [] && s.selfCommitments != []) || draw.None? then s
    else
      var com := Commit(draw.value);
      s.(coeffs := draw.value, selfCommitments := com,
         commitments := s.commitments[c.index := com],
         shares := s.shares[c.index := Reduce(PolyAt(draw.value, c.index))])
  }

  function CommitmentsMsg(c: Config, s: Node): Msg {
    Msg(c.index, s.epoch, Commitments(s.selfCommitments))
  }

  function BumpEpoch(c: Config, s: Node, epoch: nat, draw: Draw): (Node, set<Msg>) {
    if epoch == 0 || s.fin.done || epoch <= s.epoch then (s, {})
    else
      var s' := EnsureLocalPoly(c, Reset(s, epoch), draw);
      (s', {CommitmentsMsg(c, s')})
  }

  // ----- sending

  function Bucket(m: map<int, set<int>>, d: int): set<int> {
    if d in m then m[d] else {}
  }

  /** The dealer's own share for participant i. */
  function ShareFor(s: Node, i: int): Scalar {
    Reduce(PolyAt(s.coeffs, i))
  }

  function MissingShares(c: Config, s: Node): set<Msg> {
    set i | 1 <= i <= c.n && i != c.index && i !in Bucket(s.acks, c.index) && s.coeffs != [] ::
      Msg(c.index, s.epoch, EncShare(i, Plain(ShareFor(s, i))))
  }

  function OpenShare(c: Config, s: Node, to: int): set<Msg> {
    if to <= 0 || to > c.n || to == c.index || s.coeffs == [] then {}
    else {Msg(c.index, s.epoch, ShareOpen(to, Opened(ShareFor(s, to))))}
  }

  // ----- receiving

  function WithoutComplaint(complaints: map<int, set<int>>, d: int, who: int): map<int, set<int>> {
    if d !in complaints then complaints
    else if complaints[d] - {who} == {} then complaints - {d}
    else complaints[d := complaints[d] - {who}]
  }

  function Disqualify(s: Node, d: int): Node {
    if d <= 0 || d in s.bad then s
    else s.(bad := s.bad + {d}, complaints := s.complaints - {d})
  }

  function RecordAck(s: Node, d: int, who: int): Node {
    s.(acks := s.acks[d := Bucket(s.acks, d) + {who}], complaints := WithoutComplaint(s.complaints, d, who))
  }

  function RecordComplaint(s: Node, d: int, who: int): Node {
    s.(complaints := s.complaints[d := Bucket(s.complaints, d) + {who}])
  }

  function Acknowledge(c: Config, s: Node, d: int): (Node, set<Msg>) {
    (RecordAck(s, d, c.index), {Msg(c.index, s.epoch, Ack(d))})
  }

  function Complain(c: Config, s: Node, d: int): (Node, set<Msg>) {
    (RecordComplaint(s, d, c.index), {Msg(c.index, s.epoch, Complaint(d))})
  }

  function OnCommitments(c: Config, s: Node, from: int, points: seq<Compressed>): (r: Node)
    ensures r.epoch == s.epoch && r.pendingShare == s.pendingShare && r.pendingOpen == s.pendingOpen
  {
    if points == [] then s
    else if |points| != c.threshold || !AllPoints(points) then Disqualify(s, from)
    else if from in s.bad || from in s.commitments then s
    else s.(commitments := s.commitments[from := points])
  }

  function OnShare(c: Config, s: Node, m: Msg): (Node, set<Msg>)
    requires m.body.EncShare?
  {
    var d := m.from;
    if d in s.bad then (s, {})
    else if d !in s.commitments || s.commitments[d] == [] then (s.(pendingShare := s.pendingShare[d := m]), {})
    else if d in s.shares then (s, {})
    else if m.body.plain.NoKey? then (s, {})
    else if m.body.plain.Garbled? || FeldmanCheck(m.body.plain.value, c.index, s.commitments[d]) != Ok(true) then
      Complain(c, s, d)
    else
      Acknowledge(c, s.(pendingShare := s.pendingShare - {d}, shares := s.shares[d := m.body.plain.value]), d)
  }

  function OnShareOpen(c: Config, s: Node, m: Msg): (Node, set<Msg>)
    requires m.body.ShareOpen?
  {
    var d, to, content := m.from, m.body.to, m.body.content;
    if to <= 0 || to > c.n then (s, {})
    else if content.WrongSize? then (Disqualify(s, d), {})
    else if d in s.bad then (s, {})
    else if d !in s.commitments || s.commitments[d] == [] then (s.(pendingOpen := s.pendingOpen[d := m]), {})
    else if content.NotScalar? || FeldmanCheck(content.value, to, s.commitments[d]) != Ok(true) then
      (Disqualify(s, d), {})
    else
      var s1 := s.(pendingOpen := s.pendingOpen - {d}, complaints := WithoutComplaint(s.complaints, d, to));
      if to != c.index then (s1, {})
      else
        Acknowledge(c, if d in s1.shares then s1 else s1.(shares := s1.shares[d := content.value]), d)
  }

  function OnAck(c: Config, s: Node, from: int, d: int): Node {
    if d <= 0 || d > c.n || d in s.bad then s else RecordAck(s, d, from)
  }

  function OnComplaint(c: Config, s: Node, from: int, d: int): (Node, set<Msg>) {
    if d <= 0 || d > c.n then (s, {})
    else if d == c.index then (s, OpenShare(c, s, from))
    else if d in s.bad then (s, {})
    else (RecordComplaint(s, d, from), {})
  }

  /** Shares that arrived before the dealer's commitments are handled once those are in. */
  function TryProcessPending(c: Config, s: Node, d: int): (Node, set<Msg>)
    requires d in s.pendingShare ==> s.pendingShare[d].body.EncShare?
    requires forall e :: e in s.pendingOpen ==> s.pendingOpen[e].body.ShareOpen?
  {
    var (s1, out1) := if d in s.pendingShare then OnShare(c, s, s.pendingShare[d]) else (s, {});
    var (s2, out2) := if d in s1.pendingOpen then OnShareOpen(c, s1, s1.pendingOpen[d]) else (s1, {});
    (s2, out1 + out2)
  }

  // ----- finalisation

  predicate DealerReady(c: Config, s: Node, d: int) {
    && d in s.commitments && s.commitments[d] != []
    && Bucket(s.complaints, d) == {}
    && |Bucket(s.acks, d)| >= c.n - 1
    && d in s.shares
  }

  /** The qualified dealers are 1..n without the excluded ones. */
  predicate Qualified(n: int, excluded: set<int>, d: int) {
    0 < d <= n && d !in excluded
  }

  predicate AllReady(c: Config, s: Node) {
    forall d :: 0 < d <= c.n && Qualified(c.n, s.bad, d) ==> DealerReady(c, s, d)
  }

  function QualSize(n: int, excluded: set<int>): nat {
    if n <= 0 then 0 else QualSize(n - 1, excluded) + if n in excluded then 0 else 1
  }

  /** The first committed point of every qualified dealer decompresses. */
  predicate KeysReadable(n: int, excluded: set<int>, coms: map<int, seq<Compressed>>) {
    forall d :: 0 < d <= n && Qualified(n, excluded, d) ==> d in coms && coms[d] != [] && coms[d][0].Point?
  }

  predicate SharesPresent(n: int, excluded: set<int>, shares: map<int, Scalar>) {
    forall d :: 0 < d <= n && Qualified(n, excluded, d) ==> d in shares
  }

  /** The sum over the qualified dealers of the committed constant terms. */
  function KeySum(n: int, excluded: set<int>, coms: map<int, seq<Compressed>>): int
    requires KeysReadable(n, excluded, coms)
  {
    if n <= 0 then 0
    else
      assert forall d :: Qualified(n - 1, excluded, d) ==> Qualified(n, excluded, d);
      KeySum(n - 1, excluded, coms) + if Qualified(n, excluded, n) then coms[n][0].dlog else 0
  }

  /** The sum over the qualified dealers of the shares received. */
  function ShareSum(n: int, excluded: set<int>, shares: map<int, Scalar>): int
    requires SharesPresent(n, excluded, shares)
  {
    if n <= 0 then 0
    else
      assert forall d :: Qualified(n - 1, excluded, d) ==> Qualified(n, excluded, d);
      ShareSum(n - 1, excluded, shares) + if Qualified(n, excluded, n) then shares[n] else 0
  }

  /** The first locked region of maybeFinalize; sumOk is false when the curve library
      refuses to add up the shares. */
  function MaybeFinalize(c: Config, s: Node, draw: Draw, sumOk: bool): (Node, set<Msg>) {
    if s.fin.done || s.fin.finalizing then (s, {})
    else if c.n - |s.bad| < c.threshold then BumpEpoch(c, s, NextEpoch(s.epoch), draw)
    else (Finalize(c, s, sumOk), {})
  }

  /** Computing a result, when everything is there. */
  function Finalize(c: Config, s: Node, sumOk: bool): Node {
    if !AllReady(c, s) || QualSize(c.n, s.bad) < c.threshold || !KeysReadable(c.n, s.bad, s.commitments) || !sumOk then s
    else s.(fin := s.fin.(finalizing := true, inflight := s.fin.inflight + [NewTicket(c, s)]))
  }

  function NewTicket(c: Config, s: Node): Ticket
    requires AllReady(c, s) && KeysReadable(c.n, s.bad, s.commitments)
  {
    Ticket(s.epoch, s.bad, s.commitments, Reduce(KeySum(c.n, s.bad, s.commitments)), Reduce(ShareSum(c.n, s.bad, s.shares)))
  }

  /** Between the two locked regions: the key share of inflight[k] reaches the key store. */
  function Save(f: Finish, k: nat): Finish
    requires k < |f.inflight|
  {
    f.(store := Some(f.inflight[k]))
  }

  function Without(ts: seq<Ticket>, k: nat): (r: seq<Ticket>)
    requires k < |ts|
    ensures forall t :: t in r ==> t in ts
  {
    ts[..k] + ts[k + 1..]
  }

  /** The second locked region, whether or not saving succeeded. */
  function Publish(f: Finish, epoch: nat, k: nat): Finish
    requires k < |f.inflight|
  {
    var t, rest := f.inflight[k], Without(f.inflight, k);
    if f.done || epoch != t.epoch then f.(inflight := rest, finalizing := false)
    else f.(inflight := rest, done := true, result := Some(t))
  }

  // ----- restarting

  /** What the session file keeps of a node; of a finished one only the result counts. */
  datatype Session = Session(
    epoch: nat,
    coeffs: seq<Scalar>,
    selfCommitments: seq<Compressed>,
    commitments: map<int, seq<Compressed>>,
    shares: map<int, Scalar>,
    acks: map<int, set<int>>,
    complaints: map<int, set<int>>,
    disqualified: set<int>,
    result: Option<Ticket>)

  /** Empty sets are not written out. */
  function NonEmpty(m: map<int, set<int>>): map<int, set<int>> {
    map d | d in m && m[d] != {} :: m[d]
  }

  function Persist(s: Node): Session {
    Session(s.epoch, s.coeffs, s.selfCommitments, s.commitments, s.shares, NonEmpty(s.acks), NonEmpty(s.complaints), s.bad,
            if s.fin.done then s.fin.result else None)
  }

  function Positive(ds: set<int>): set<int> {
    set d | d in ds && d > 0
  }

  function Finished(result: Option<Ticket>): Finish {
    NOT_DONE.(done := true, result := result)
  }

  function OwnCommitments(c: Config, st: Session): map<int, seq<Compressed>> {
    if st.selfCommitments == [] then map[] else map[c.index := st.selfCommitments]
  }

  /** Taking up a saved session. */
  function Restore(c: Config, st: Session): Node {
    if st.result.Some? then Fresh(st.epoch).(fin := Finished(st.result))
    else
      var shares :=
        if st.coeffs == [] || c.index in st.shares then st.shares
        else st.shares[c.index := Reduce(PolyAt(st.coeffs, c.index))];
      Fresh(st.epoch).(coeffs := st.coeffs, selfCommitments := st.selfCommitments, commitments := OwnCommitments(c, st) + st.commitments,
                       shares := shares, acks := st.acks, complaints := st.complaints, bad := Positive(st.disqualified))
  }

  /** The epoch a new process starts in; an epoch of 0 in its configuration means 1. */
  function Configured(epoch: nat): nat {
    if epoch == 0 then 1 else epoch
  }

  /** A new process: a key share in the key store settles everything before the session is
      even looked at. */
  function Reopen(c: Config, epoch: nat, store: Option<Ticket>, st: Session): Node {
    if store.Some? then Fresh(Configured(epoch)).(fin := Finished(store).(store := store, idle := true))
    else if st.epoch == 0 then Fresh(Configured(epoch))
    else Restore(c, st)
  }

  // ----- events

  /** Pending messages are filed under their sender with the right kind. */
  ghost predicate PendingKinds(c: Config, s: Node) {
    && (forall d :: d in s.pendingShare ==>
          s.pendingShare[d].from == d && s.pendingShare[d].epoch == s.epoch && s.pendingShare[d].body.EncShare?)
    && (forall d :: d in s.pendingOpen ==>
          s.pendingOpen[d].from == d && s.pendingOpen[d].epoch == s.epoch && s.pendingOpen[d].body.ShareOpen?)
  }

  /** Handling a message of the current epoch, up to the attempt to finalise. */
  function Handle(c: Config, s: Node, m: Msg): (Node, set<Msg>)
    requires PendingKinds(c, s) && s.epoch == m.epoch
  {
    match m.body
    case Commitments(points) =>
      var (s', out) := TryProcessPending(c, OnCommitments(c, s, m.from, points), m.from);
      (s', out + MissingShares(c, s'))
    case EncShare(to, _) => if to != c.index then (s, {}) else OnShare(c, s, m)
    case ShareOpen(_, _) => OnShareOpen(c, s, m)
    case Ack(d) => (OnAck(c, s, m.from, d), {})
    case Complaint(d) => OnComplaint(c, s, m.from, d)
    case Unknown => (s, {})
  }

  predicate Ignored(c: Config, m: Msg) {
    m.body.Unknown? || (m.body.EncShare? && m.body.to != c.index)
  }

  function Dispatch(c: Config, s: Node, m: Msg, draw: Draw, sumOk: bool): (Node, set<Msg>)
    requires PendingKinds(c, s) && s.epoch == m.epoch
  {
    if Ignored(c, m) then (s, {})
    else
      var (s1, out1) := Handle(c, s, m);
      var (s2, out2) := MaybeFinalize(c, s1, draw, sumOk);
      (s2, out1 + out2)
  }

  /** A message with a valid signature arrives. */
  function OnMessage(c: Config, s: Node, m: Msg, draw1: Draw, draw2: Draw, sumOk: bool): (Node, set<Msg>)
    requires PendingKinds(c, s)
  {
    if m.epoch == 0 || m.from <= 0 || m.from > c.n || m.from == c.index || s.fin.done || m.epoch < s.epoch then (s, {})
    else
      var (s1, out1) := if m.epoch > s.epoch then BumpEpoch(c, s, m.epoch, draw1) else (s, {});
      if m.epoch != s1.epoch then (s1, out1)
      else
        var (s2, out2) := Dispatch(c, s1, m, draw2, sumOk);
        (s2, out1 + out2)
  }

  datatype Event =
    | Start(draw: Draw)
    | Deliver(msg: Msg, draw1: Draw, draw2: Draw, sumOk: bool)
    | Timeout(draw: Draw)
    | Retry
    | Saved(k: nat)
    | Published(k: nat)
    | Restart(epoch: nat)

  /** Drawn polynomials have one coefficient per threshold participant. */
  predicate ValidDraw(c: Config, draw: Draw) {
    draw.Some? ==> |draw.value| == c.threshold
  }

  predicate ValidEvent(c: Config, s: Node, e: Event) {
    match e
    case Start(draw) => ValidDraw(c, draw)
    case Deliver(_, draw1, draw2, _) => ValidDraw(c, draw1) && ValidDraw(c, draw2)
    case Timeout(draw) => ValidDraw(c, draw)
    case Retry => true
    case Saved(k) => k < |s.fin.inflight|
    case Published(k) => k < |s.fin.inflight|
    case Restart(_) => true
  }

  function Step(c: Config, s: Node, e: Event): (Node, set<Msg>)
    requires PendingKinds(c, s) && ValidEvent(c, s, e)
  {
    if s.fin.idle && !e.Restart? then (s, {})
    else
      match e
      case Start(draw) =>
        var s' := EnsureLocalPoly(c, s, draw);
        (s', {CommitmentsMsg(c, s')})
      case Deliver(m, draw1, draw2, sumOk) => OnMessage(c, s, m, draw1, draw2, sumOk)
      case Timeout(draw) => if s.fin.done then (s, {}) else BumpEpoch(c, s, NextEpoch(s.epoch), draw)
      case Retry => if s.fin.done then (s, {}) else (s, {CommitmentsMsg(c, s)} + MissingShares(c, s))
      case Saved(k) => (s.(fin := Save(s.fin, k)), {})
      case Published(k) => (s.(fin := Publish(s.fin, s.epoch, k)), {})
      case Restart(epoch) => (Reopen(c, epoch, s.fin.store, Persist(s)), {})
  }
}
