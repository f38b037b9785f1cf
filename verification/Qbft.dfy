/** The voting state machine of internal/consensus/qbft/state.go. */
module QbftState {
  import opened Outcomes

  datatype Kind = Preprepare | Prepare | Commit | ViewChange | NewView | Unknown

  datatype Message = Message(from: string, height: nat, round: nat, kind: Kind, id: string, sig: seq<int>)

  datatype Phase = Idle | Preprepared | Prepared | Committed

  datatype ProcessError = UnauthorizedLeader | NotPreprepared | NotPrepared | ProposalMismatch

  /** A vote map that was never made is None: adding to it would panic. */
  datatype Snapshot = Snapshot(
    height: nat,
    round: nat,
    phase: Phase,
    leader: string,
    proposalID: string,
    prepareVotes: Option<set<string>>,
    commitVotes: Option<set<string>>,
    viewVotes: map<nat, set<string>>)

  function Start(leader: string): Snapshot {
    Snapshot(0, 0, Idle, leader, "", None, None, map[])
  }

  /** Whenever a vote may be counted there is a map to count it in. */
  predicate VotesMade(s: Snapshot) {
    s.phase != Idle ==> s.prepareVotes.Some? && s.commitVotes.Some?
  }

  function ViewBucket(s: Snapshot, round: nat): set<string> {
    if round in s.viewVotes then s.viewVotes[round] else {}
  }

  function NewRound(s: Snapshot, round: nat): Snapshot {
    s.(round := round, phase := Idle, proposalID := "", prepareVotes := None, commitVotes := None)
  }

  /** Coordinates follow every message; only view changes wait for their threshold. */
  function Moved(s: Snapshot, m: Message): Snapshot {
    s.(height := m.height, round := if m.kind.ViewChange? || m.kind.NewView? then s.round else m.round)
  }

  function OnPrepare(s: Snapshot, m: Message): (Snapshot, Result<bool, ProcessError>)
    requires VotesMade(s)
  {
    if s.proposalID == "" || (s.phase != Preprepared && s.phase != Prepared) then (s, Err(NotPreprepared))
    else if m.id != s.proposalID then (s, Err(ProposalMismatch))
    else if m.from in s.prepareVotes.value then (s, Ok(false))
    else
      var s' := s.(prepareVotes := Some(s.prepareVotes.value + {m.from}));
      if s.phase == Preprepared && |s'.prepareVotes.value| >= 2 then (s'.(phase := Prepared), Ok(true)) else (s', Ok(false))
  }

  function OnCommit(s: Snapshot, m: Message): (Snapshot, Result<bool, ProcessError>)
    requires VotesMade(s)
  {
    if s.phase != Prepared && s.phase != Committed then (s, Err(NotPrepared))
    else if m.id != s.proposalID then (s, Err(ProposalMismatch))
    else if m.from in s.commitVotes.value then (s, Ok(false))
    else
      var s' := s.(commitVotes := Some(s.commitVotes.value + {m.from}));
      if s.phase != Committed && |s'.commitVotes.value| >= 1 then (s'.(phase := Committed), Ok(true)) else (s', Ok(false))
  }

  function OnViewChange(s: Snapshot, m: Message): (Snapshot, Result<bool, ProcessError>) {
    var bucket := ViewBucket(s, m.round);
    if m.from in bucket then (s, Ok(false))
    else
      var s' := s.(viewVotes := s.viewVotes[m.round := bucket + {m.from}]);
      if |bucket + {m.from}| >= 2 && m.round > s.round then (NewRound(s', m.round), Ok(true)) else (s', Ok(false))
  }

  /** May this message set a new proposal? */
  predicate Proposes(leader: string, m: Message) {
    m.kind.Preprepare? && (leader == "" || m.from == leader)
  }

  function Apply(s: Snapshot, m: Message): (r: (Snapshot, Result<bool, ProcessError>))
    requires VotesMade(s)
    ensures VotesMade(r.0) && r.0.leader == s.leader && r.0.height == m.height
  {
    var s0 := Moved(s, m);
    match m.kind
    case Preprepare =>
      if !Proposes(s.leader, m) then (s0, Err(UnauthorizedLeader))
      else
        (s0.(phase := Preprepared, proposalID := m.id, prepareVotes := Some({}), commitVotes := Some({})), Ok(true))
    case Prepare => OnPrepare(s0, m)
    case Commit => OnCommit(s0, m)
    case ViewChange => OnViewChange(s0, m)
    case NewView => if m.round > s0.round then (NewRound(s0, m.round), Ok(true)) else (s0, Ok(false))
    case Unknown => (s0, Ok(false))
  }

  /** The state after a sequence of messages; errors leave the machine running. */
  function After(leader: string, trace: seq<Message>): (s: Snapshot)
    ensures VotesMade(s) && s.leader == leader
  {
    if trace == [] then Start(leader)
    else Apply(After(leader, trace[..|trace| - 1]), trace[|trace| - 1]).0
  }

  // ----- what a phase means

  ghost function Voters(trace: seq<Message>, p: int, kind: Kind, id: string): set<string> {
    set i | 0 <= i < |trace| && i > p && trace[i].kind == kind && trace[i].id == id :: trace[i].from
  }

  /** trace[p] is the latest accepted proposal, and every counted vote is a later vote for it. */
  ghost predicate BackedBy(trace: seq<Message>, s: Snapshot, p: int) {
    && 0 <= p < |trace| && Proposes(s.leader, trace[p]) && trace[p].id == s.proposalID
    && (forall q :: p < q < |trace| ==> !Proposes(s.leader, trace[q]))
    && s.prepareVotes.Some? && s.prepareVotes.value <= Voters(trace, p, Prepare, s.proposalID)
    && s.commitVotes.Some? && s.commitVotes.value <= Voters(trace, p, Commit, s.proposalID)
  }

  ghost predicate Quorate(s: Snapshot) {
    && (s.phase == Prepared || s.phase == Committed ==> s.prepareVotes.Some? && |s.prepareVotes.value| >= 2 && s.proposalID != "")
    && (s.phase == Committed ==> s.commitVotes.Some? && |s.commitVotes.value| >= 1)
    && (s.phase == Idle ==> s.proposalID == "")
  }

  ghost predicate Backed(trace: seq<Message>, s: Snapshot) {
    Quorate(s) && (s.phase != Idle ==> exists p :: BackedBy(trace, s, p))
  }

  lemma CardAdd(a: set<string>, x: string)
    ensures |a + {x}| >= |a|
  {
    if x in a {
      assert a + {x} == a;
    }
  }

  lemma PrepareQuorate(s: Snapshot, m: Message)
    requires VotesMade(s) && Quorate(s)
    ensures Quorate(OnPrepare(s, m).0)
  {
    if s.prepareVotes.Some? {
      CardAdd(s.prepareVotes.value, m.from);
    }
  }

  lemma CommitQuorate(s: Snapshot, m: Message)
    requires VotesMade(s) && Quorate(s)
    ensures Quorate(OnCommit(s, m).0)
  {
    if s.commitVotes.Some? {
      CardAdd(s.commitVotes.value, m.from);
    }
  }

  lemma ViewChangeQuorate(s: Snapshot, m: Message)
    requires Quorate(s)
    ensures Quorate(OnViewChange(s, m).0)
  {
  }

  lemma ApplyQuorate(s: Snapshot, m: Message)
    requires VotesMade(s) && Quorate(s)
    ensures Quorate(Apply(s, m).0)
  {
    var s0 := Moved(s, m);
    hide OnPrepare;
    hide OnCommit;
    hide OnViewChange;
    PrepareQuorate(s0, m);
    CommitQuorate(s0, m);
    ViewChangeQuorate(s0, m);
  }

  /** From s to s' the proposal stays, and votes grow at most by m's. */
  ghost predicate VotesFollow(s: Snapshot, s': Snapshot, m: Message)
    requires s.prepareVotes.Some? && s.commitVotes.Some?
  {
    && s'.proposalID == s.proposalID && s'.prepareVotes.Some? && s'.commitVotes.Some?
    && s'.prepareVotes.value <= s.prepareVotes.value + (if m.kind == Prepare && m.id == s.proposalID then {m.from} else {})
    && s'.commitVotes.value <= s.commitVotes.value + (if m.kind == Commit && m.id == s.proposalID then {m.from} else {})
  }

  lemma PrepareFollows(s: Snapshot, m: Message)
    requires VotesMade(s) && s.phase != Idle && m.kind == Prepare
    ensures VotesFollow(s, OnPrepare(s, m).0, m)
  {
  }

  lemma CommitFollows(s: Snapshot, m: Message)
    requires VotesMade(s) && s.phase != Idle && m.kind == Commit
    ensures VotesFollow(s, OnCommit(s, m).0, m)
  {
  }

  lemma ViewChangeFollows(s: Snapshot, m: Message)
    requires VotesMade(s) && s.phase != Idle && OnViewChange(s, m).0.phase != Idle
    ensures VotesFollow(s, OnViewChange(s, m).0, m)
  {
  }

  /** How a message changes the votes of a machine that stays with its proposal. */
  lemma ApplyVotes(s: Snapshot, m: Message)
    requires VotesMade(s) && s.phase != Idle && !Proposes(s.leader, m) && Apply(s, m).0.phase != Idle
    ensures VotesFollow(s, Apply(s, m).0, m)
  {
    hide OnPrepare;
    hide OnCommit;
    hide OnViewChange;
    var s0 := Moved(s, m);
    match m.kind
    case Preprepare =>
    case Prepare => PrepareFollows(s0, m);
    case Commit => CommitFollows(s0, m);
    case ViewChange => ViewChangeFollows(s0, m);
    case NewView =>
    case Unknown =>
  }

  lemma IdleStays(s: Snapshot, m: Message)
    requires VotesMade(s) && s.phase == Idle && !Proposes(s.leader, m)
    ensures Apply(s, m).0.phase == Idle
  {
  }

  lemma VotersGrow(trace: seq<Message>, m: Message, p: int, kind: Kind, id: string)
    requires -1 <= p < |trace|
    ensures Voters(trace, p, kind, id) + (if m.kind == kind && m.id == id then {m.from} else {})
         <= Voters(trace + [m], p, kind, id)
  {
    var all := trace + [m];
    forall x | x in Voters(trace, p, kind, id)
      ensures x in Voters(all, p, kind, id)
    {
      var i :| 0 <= i < |trace| && i > p && trace[i].kind == kind && trace[i].id == id && trace[i].from == x;
      assert all[i] == trace[i];
    }
    assert all[|trace|] == m;
  }

  lemma BackedByStep(trace: seq<Message>, s: Snapshot, m: Message, p: int)
    requires VotesMade(s) && s.phase != Idle && BackedBy(trace, s, p) && !Proposes(s.leader, m)
    requires Apply(s, m).0.phase != Idle
    ensures BackedBy(trace + [m], Apply(s, m).0, p)
  {
    ApplyVotes(s, m);
    hide Apply;
    hide Voters;
    VotersGrow(trace, m, p, Prepare, s.proposalID);
    VotersGrow(trace, m, p, Commit, s.proposalID);
  }

  lemma BackedNew(trace: seq<Message>, s: Snapshot, m: Message)
    requires VotesMade(s) && Proposes(s.leader, m)
    ensures BackedBy(trace + [m], Apply(s, m).0, |trace|)
  {
  }

  lemma BackedStep(trace: seq<Message>, s: Snapshot, m: Message)
    requires VotesMade(s) && Backed(trace, s)
    ensures Backed(trace + [m], Apply(s, m).0)
  {
    hide Apply;
    hide Quorate;
    hide BackedBy;
    ApplyQuorate(s, m);
    var s' := Apply(s, m).0;
    if s'.phase != Idle {
      if Proposes(s.leader, m) {
        BackedNew(trace, s, m);
      } else if s.phase == Idle {
        IdleStays(s, m);
        assert false;
      } else {
        var p :| BackedBy(trace, s, p);
        BackedByStep(trace, s, m, p);
      }
    }
  }

  /** The quorum invariant of every run: a prepared machine has counted prepares of at
      least two distinct senders for its proposal, all since that proposal was last made
      and by the leader if there is one; a committed machine also a commit for it. */
  lemma {:induction false} QuorumInvariant(leader: string, trace: seq<Message>)
    ensures Backed(trace, After(leader, trace))
  {
    if trace != [] {
      var n := |trace| - 1;
      QuorumInvariant(leader, trace[..n]);
      BackedStep(trace[..n], After(leader, trace[..n]), trace[n]);
      assert trace == trace[..n] + [trace[n]];
    }
  }

  lemma TwoVoters(votes: set<string>) returns (a: string, b: string)
    requires |votes| >= 2
    ensures a in votes && b in votes && a != b
  {
    a :| a in votes;
    assert |votes - {a}| == |votes| - 1;
    b :| b in votes - {a};
  }

  /** What "prepared" and "commit" guarantee, message by message. */
  lemma PreparedMeans(leader: string, trace: seq<Message>) returns (p: nat, i: nat, j: nat)
    requires After(leader, trace).phase == Prepared || After(leader, trace).phase == Committed
    ensures p < |trace| && Proposes(leader, trace[p]) && trace[p].id == After(leader, trace).proposalID
    ensures p < i < |trace| && p < j < |trace| && trace[i].from != trace[j].from
    ensures trace[i].kind == trace[j].kind == Prepare && trace[i].id == trace[j].id == trace[p].id
    ensures After(leader, trace).phase == Committed ==>
      exists c :: p < c < |trace| && trace[c].kind == Commit && trace[c].id == trace[p].id
  {
    QuorumInvariant(leader, trace);
    var s := After(leader, trace);
    hide After;
    p :| BackedBy(trace, s, p);
    var a, b := TwoVoters(s.prepareVotes.value);
    assert a in Voters(trace, p, Prepare, s.proposalID) && b in Voters(trace, p, Prepare, s.proposalID);
    i :| 0 <= i < |trace| && i > p && trace[i].kind == Prepare && trace[i].id == s.proposalID && trace[i].from == a;
    j :| 0 <= j < |trace| && j > p && trace[j].kind == Prepare && trace[j].id == s.proposalID && trace[j].from == b;
    if s.phase == Committed {
      var x :| x in s.commitVotes.value;
      assert x in Voters(trace, p, Commit, s.proposalID);
    }
  }

  // ----- the machine's state, read off the messages alone

  /** Who asked for the round. */
  ghost function Askers(trace: seq<Message>, round: nat): set<string> {
    set i | 0 <= i < |trace| && trace[i].kind == ViewChange && trace[i].round == round :: trace[i].from
  }

  /** After trace, m starts a new round: its round is higher, and it is a new view or the
      first request of its sender for a round that someone else has asked for. */
  ghost predicate StartsRound(trace: seq<Message>, m: Message)
    decreases |trace|, 1
  {
    && m.round > RoundOf(trace)
    && (m.kind == NewView || (m.kind == ViewChange && m.from !in Askers(trace, m.round) && Askers(trace, m.round) != {}))
  }

  /** The round: that of the last message that is no view change, or starts a round. */
  ghost function RoundOf(trace: seq<Message>): nat
    decreases |trace|, 0
  {
    if trace == [] then 0
    else
      var n := |trace| - 1;
      var m := trace[n];
      if StartsRound(trace[..n], m) || (m.kind != ViewChange && m.kind != NewView) then m.round else RoundOf(trace[..n])
  }

  lemma AskersSnoc(trace: seq<Message>, m: Message, round: nat)
    ensures Askers(trace + [m], round) == Askers(trace, round) + if m.kind == ViewChange && m.round == round then {m.from} else {}
  {
    var all := trace + [m];
    forall x | x in Askers(trace, round)
      ensures x in Askers(all, round)
    {
      var i :| 0 <= i < |trace| && trace[i].kind == ViewChange && trace[i].round == round && trace[i].from == x;
      assert all[i] == trace[i];
    }
    assert all[|trace|] == m;
  }

  lemma RoundSnoc(trace: seq<Message>, m: Message)
    ensures RoundOf(trace + [m]) ==
      if StartsRound(trace, m) || (m.kind != ViewChange && m.kind != NewView) then m.round else RoundOf(trace)
  {
    assert (trace + [m])[..|trace|] == trace && (trace + [m])[|trace|] == m;
  }

  ghost predicate Follows(trace: seq<Message>, s: Snapshot) {
    && VotesMade(s)
    && s.round == RoundOf(trace)
    && forall r :: ViewBucket(s, r) == Askers(trace, r)
  }

  lemma SecondVote(bucket: set<string>, from: string)
    requires from !in bucket
    ensures |bucket + {from}| >= 2 <==> bucket != {}
  {
  }

  /** Who asked for which round is recorded, and nothing else moves a proposal or its votes. */
  lemma ViewChangeExact(trace: seq<Message>, s: Snapshot, m: Message)
    requires Follows(trace, s) && m.kind == ViewChange
    ensures var s' := Apply(s, m).0;
            && s'.round == (if StartsRound(trace, m) then m.round else RoundOf(trace))
            && (forall r :: ViewBucket(s', r) == Askers(trace, r) + if r == m.round then {m.from} else {})
            && if StartsRound(trace, m) then Cleared(s') else KeepsVotes(s, s')
  {
    hide Askers;
    hide RoundOf;
    forall r
      ensures ViewBucket(Apply(s, m).0, r) == Askers(trace, r) + if r == m.round then {m.from} else {}
    {
      RequestRecorded(s, m, r);
    }
    var bucket := ViewBucket(s, m.round);
    assert bucket == Askers(trace, m.round);
    hide ViewBucket;
    RequestMoves(s, m);
  }

  lemma RequestRecorded(s: Snapshot, m: Message, r: nat)
    requires VotesMade(s) && m.kind == ViewChange
    ensures ViewBucket(Apply(s, m).0, r) == ViewBucket(s, r) + if r == m.round then {m.from} else {}
  {
  }

  lemma RequestMoves(s: Snapshot, m: Message)
    requires VotesMade(s) && m.kind == ViewChange
    ensures var s', bucket := Apply(s, m).0, ViewBucket(s, m.round);
            if m.from !in bucket && bucket != {} && m.round > s.round then s'.round == m.round && Cleared(s')
            else s'.round == s.round && KeepsVotes(s, s')
  {
    var bucket := ViewBucket(s, m.round);
    if m.from !in bucket {
      SecondVote(bucket, m.from);
    }
  }

  /** No proposal and no votes. */
  ghost predicate Cleared(s: Snapshot) {
    s.phase == Idle && s.proposalID == "" && s.prepareVotes == None && s.commitVotes == None
  }

  ghost predicate KeepsVotes(s: Snapshot, s': Snapshot) {
    s'.phase == s.phase && s'.proposalID == s.proposalID && s'.prepareVotes == s.prepareVotes && s'.commitVotes == s.commitVotes
  }

  /** One more message: the round and the requests follow, a new round clears the proposal
      and its votes, and other view changes leave them alone. */
  lemma FollowsStep(trace: seq<Message>, s: Snapshot, m: Message)
    requires Follows(trace, s)
    ensures Follows(trace + [m], Apply(s, m).0)
    ensures StartsRound(trace, m) ==> Cleared(Apply(s, m).0)
    ensures !StartsRound(trace, m) && (m.kind == ViewChange || m.kind == NewView) ==> KeepsVotes(s, Apply(s, m).0)
  {
    hide Askers;
    hide RoundOf;
    hide OnViewChange;
    RoundSnoc(trace, m);
    forall r
      ensures Askers(trace + [m], r) == Askers(trace, r) + if m.kind == ViewChange && m.round == r then {m.from} else {}
    {
      AskersSnoc(trace, m, r);
    }
    if m.kind == ViewChange {
      ViewChangeExact(trace, s, m);
    }
  }

  /** Over every run the machine's round and its record of requests are those of the trace. */
  lemma {:induction false} RunFollows(leader: string, trace: seq<Message>)
    ensures Follows(trace, After(leader, trace))
  {
    hide Follows;
    if trace == [] {
      FollowsNone(leader);
    } else {
      var n := |trace| - 1;
      RunFollows(leader, trace[..n]);
      FollowsStep(trace[..n], After(leader, trace[..n]), trace[n]);
      assert trace == trace[..n] + [trace[n]];
    }
  }

  lemma FollowsNone(leader: string)
    ensures Follows([], Start(leader))
  {
  }

  /** trace[p] is the proposal in force: accepted, not replaced, and in no finished round. */
  ghost predicate InForce(leader: string, trace: seq<Message>, p: int) {
    && 0 <= p < |trace| && Proposes(leader, trace[p])
    && forall q :: p < q < |trace| ==> !Proposes(leader, trace[q]) && !StartsRound(trace[..q], trace[q])
  }

  lemma InForceSnoc(leader: string, trace: seq<Message>, m: Message, p: int)
    ensures InForce(leader, trace + [m], p) <==>
      if p == |trace| then Proposes(leader, m)
      else InForce(leader, trace, p) && !Proposes(leader, m) && !StartsRound(trace, m)
  {
    hide StartsRound;
    var all := trace + [m];
    assert all[..|trace|] == trace && all[|trace|] == m;
    assert forall q :: 0 <= q < |trace| ==> all[..q] == trace[..q] && all[q] == trace[q];
  }

  /** Two senders have prepared the proposal trace[p]. */
  ghost predicate QuorumAt(trace: seq<Message>, p: int)
    requires 0 <= p < |trace|
  {
    trace[p].id != "" && |Voters(trace, p, Prepare, trace[p].id)| >= 2
  }

  /** After that, somebody has committed to it. */
  ghost predicate CommitAt(trace: seq<Message>, p: int)
    requires 0 <= p < |trace|
  {
    exists c :: p < c < |trace| && QuorumAt(trace[..c], p) && trace[c].kind == Commit && trace[c].id == trace[p].id
  }

  ghost function PhaseAt(trace: seq<Message>, p: int): Phase
    requires 0 <= p < |trace|
  {
    if CommitAt(trace, p) then Committed else if QuorumAt(trace, p) then Prepared else Preprepared
  }

  /** The phase and the proposal are those of the proposal in force at p; while it is not
      prepared, its votes are exactly the prepares for it. */
  ghost predicate Pursues(trace: seq<Message>, s: Snapshot, p: int)
    requires 0 <= p < |trace|
  {
    && VotesMade(s)
    && s.phase == PhaseAt(trace, p) && s.proposalID == trace[p].id
    && (s.phase == Preprepared ==>
          s.prepareVotes == Some(if trace[p].id == "" then {} else Voters(trace, p, Prepare, trace[p].id)))
    && (s.phase == Preprepared || s.phase == Prepared ==> s.commitVotes == Some({}))
  }

  lemma VotersSnoc(trace: seq<Message>, m: Message, p: int, kind: Kind, id: string)
    requires 0 <= p < |trace|
    ensures Voters(trace + [m], p, kind, id) == Voters(trace, p, kind, id) + if m.kind == kind && m.id == id then {m.from} else {}
  {
    VotersGrow(trace, m, p, kind, id);
  }

  lemma QuorumSnoc(trace: seq<Message>, m: Message, p: int)
    requires 0 <= p < |trace|
    ensures QuorumAt(trace + [m], p) <==>
      trace[p].id != "" &&
      |Voters(trace, p, Prepare, trace[p].id) + if m.kind == Prepare && m.id == trace[p].id then {m.from} else {}| >= 2
    ensures QuorumAt(trace, p) ==> QuorumAt(trace + [m], p)
  {
    hide Voters;
    VotersSnoc(trace, m, p, Prepare, trace[p].id);
    CardAdd(Voters(trace, p, Prepare, trace[p].id), m.from);
  }

  lemma CommitSnoc(trace: seq<Message>, m: Message, p: int)
    requires 0 <= p < |trace|
    ensures CommitAt(trace + [m], p) <==>
      CommitAt(trace, p) || (QuorumAt(trace, p) && m.kind == Commit && m.id == trace[p].id)
  {
    hide QuorumAt;
    var all := trace + [m];
    assert all[..|trace|] == trace && all[|trace|] == m;
    assert forall c :: 0 <= c < |trace| ==> all[..c] == trace[..c] && all[c] == trace[c];
  }

  /** A committed proposal was prepared. */
  lemma {:induction false} CommitPrepared(trace: seq<Message>, p: int)
    requires 0 <= p < |trace| && CommitAt(trace, p)
    ensures QuorumAt(trace, p)
    decreases |trace|
  {
    var n := |trace| - 1;
    assert trace == trace[..n] + [trace[n]];
    hide QuorumAt;
    hide CommitAt;
    if p < n {
      CommitSnoc(trace[..n], trace[n], p);
      QuorumSnoc(trace[..n], trace[n], p);
      if CommitAt(trace[..n], p) {
        CommitPrepared(trace[..n], p);
      }
    } else {
      CommitLater(trace, p);
    }
  }

  lemma CommitLater(trace: seq<Message>, p: int)
    requires 0 <= p < |trace| && CommitAt(trace, p)
    ensures p < |trace| - 1
  {
  }

  lemma PursuesPrepare(trace: seq<Message>, s: Snapshot, m: Message, p: int)
    requires 0 <= p < |trace| && Pursues(trace, s, p) && m.kind == Prepare
    ensures Pursues(trace + [m], OnPrepare(s, m).0, p)
  {
    hide QuorumAt;
    hide CommitAt;
    hide Voters;
    var id := trace[p].id;
    assert (trace + [m])[p] == trace[p];
    CommitSnoc(trace, m, p);
    QuorumSnoc(trace, m, p);
    VotersSnoc(trace, m, p, Prepare, id);
    QuorumMeans(trace, p);
    if m.from in Voters(trace, p, Prepare, id) {
      assert Voters(trace, p, Prepare, id) + {m.from} == Voters(trace, p, Prepare, id);
    }
    if CommitAt(trace, p) {
      CommitPrepared(trace, p);
    }
  }

  lemma QuorumMeans(trace: seq<Message>, p: int)
    requires 0 <= p < |trace|
    ensures QuorumAt(trace, p) <==> trace[p].id != "" && |Voters(trace, p, Prepare, trace[p].id)| >= 2
  {
  }

  lemma PursuesCommit(trace: seq<Message>, s: Snapshot, m: Message, p: int)
    requires 0 <= p < |trace| && Pursues(trace, s, p) && m.kind == Commit
    ensures Pursues(trace + [m], OnCommit(s, m).0, p)
  {
    hide QuorumAt;
    hide CommitAt;
    hide Voters;
    var id := trace[p].id;
    assert (trace + [m])[p] == trace[p];
    CommitSnoc(trace, m, p);
    QuorumSnoc(trace, m, p);
    QuorumMeans(trace, p);
    VotersSnoc(trace, m, p, Prepare, id);
    assert Voters(trace, p, Prepare, id) + {} == Voters(trace, p, Prepare, id);
    if CommitAt(trace, p) {
      CommitPrepared(trace, p);
    }
    assert m.from !in {} && |{} + {m.from}| == 1;
  }

  lemma PursuesOther(trace: seq<Message>, s: Snapshot, s': Snapshot, m: Message, p: int)
    requires 0 <= p < |trace| && Pursues(trace, s, p) && m.kind != Prepare && m.kind != Commit && KeepsVotes(s, s')
    ensures Pursues(trace + [m], s', p)
  {
    hide QuorumAt;
    hide CommitAt;
    hide Voters;
    var id := trace[p].id;
    assert (trace + [m])[p] == trace[p];
    CommitSnoc(trace, m, p);
    QuorumSnoc(trace, m, p);
    QuorumMeans(trace, p);
    VotersSnoc(trace, m, p, Prepare, id);
    assert Voters(trace, p, Prepare, id) + {} == Voters(trace, p, Prepare, id);
  }

  lemma PursuesNew(trace: seq<Message>, s: Snapshot, m: Message)
    requires VotesMade(s) && Proposes(s.leader, m)
    ensures Pursues(trace + [m], Apply(s, m).0, |trace|)
  {
    var all := trace + [m];
    assert Voters(all, |trace|, Prepare, m.id) == {};
    assert all[|trace|] == m;
  }

  lemma PursuesStep(trace: seq<Message>, s: Snapshot, m: Message, p: int)
    requires Follows(trace, s) && 0 <= p < |trace| && Pursues(trace, s, p)
    requires !Proposes(s.leader, m) && !StartsRound(trace, m)
    ensures Pursues(trace + [m], Apply(s, m).0, p)
  {
    FollowsStep(trace, s, m);
    hide Follows;
    hide StartsRound;
    hide OnPrepare;
    hide OnCommit;
    hide OnViewChange;
    var s0 := Moved(s, m);
    PursuesMoved(trace, s, s0, p);
    hide Pursues;
    match m.kind
    case Prepare => PursuesPrepare(trace, s0, m, p);
    case Commit => PursuesCommit(trace, s0, m, p);
    case _ => PursuesOther(trace, s, Apply(s, m).0, m, p);
  }

  lemma PursuesMoved(trace: seq<Message>, s: Snapshot, s0: Snapshot, p: int)
    requires 0 <= p < |trace| && Pursues(trace, s, p) && KeepsVotes(s, s0)
    ensures Pursues(trace, s0, p)
  {
    hide PhaseAt;
    hide Voters;
  }

  /** Idle exactly when no proposal is in force, and otherwise in that proposal's phase. */
  ghost predicate Explained(leader: string, trace: seq<Message>, s: Snapshot) {
    && (s.phase == Idle <==> forall p :: !InForce(leader, trace, p))
    && (forall p :: InForce(leader, trace, p) ==> Pursues(trace, s, p))
  }

  lemma ExplainedStep(leader: string, trace: seq<Message>, s: Snapshot, m: Message)
    requires s.leader == leader && Follows(trace, s) && Explained(leader, trace, s)
    ensures Explained(leader, trace + [m], Apply(s, m).0)
  {
    FollowsStep(trace, s, m);
    hide StartsRound;
    hide Pursues;
    hide InForce;
    hide Apply;
    var s' := Apply(s, m).0;
    var all := trace + [m];
    forall p
      ensures InForce(leader, all, p) <==>
        if p == |trace| then Proposes(leader, m)
        else InForce(leader, trace, p) && !Proposes(leader, m) && !StartsRound(trace, m)
    {
      InForceSnoc(leader, trace, m, p);
    }
    if Proposes(leader, m) {
      PursuesNew(trace, s, m);
      PursuesBusy(all, s', |trace|);
      assert InForce(leader, all, |trace|);
    } else if StartsRound(trace, m) {
    } else if s.phase == Idle {
      IdleStays(s, m);
    } else {
      var p0 :| InForce(leader, trace, p0);
      assert InForce(leader, all, p0);
      forall p | InForce(leader, all, p)
        ensures Pursues(all, s', p)
      {
        InForceAt(leader, trace, p);
        PursuesStep(trace, s, m, p);
      }
      InForceAt(leader, all, p0);
      PursuesBusy(all, s', p0);
    }
  }

  lemma InForceAt(leader: string, trace: seq<Message>, p: int)
    requires InForce(leader, trace, p)
    ensures 0 <= p < |trace|
  {
  }

  lemma PursuesBusy(trace: seq<Message>, s: Snapshot, p: int)
    requires 0 <= p < |trace| && Pursues(trace, s, p)
    ensures s.phase != Idle
  {
  }

  /** The machine, exactly: over every run it is idle if and only if no proposal is in
      force; otherwise it pursues that proposal, is prepared if and only if two senders have
      prepared it since, and committed if and only if a commit for it came after that. */
  lemma {:induction false} PhaseExact(leader: string, trace: seq<Message>)
    ensures Explained(leader, trace, After(leader, trace))
  {
    hide Explained;
    if trace == [] {
      ExplainedNone(leader);
    } else {
      var n := |trace| - 1;
      PhaseExact(leader, trace[..n]);
      RunFollows(leader, trace[..n]);
      ExplainedStep(leader, trace[..n], After(leader, trace[..n]), trace[n]);
      assert trace == trace[..n] + [trace[n]];
    }
  }

  lemma ExplainedNone(leader: string)
    ensures Explained(leader, [], Start(leader))
  {
  }

  /** What one more message does to the round and the phase. A view change or a new view
      moves the round if and only if it starts one, and then the machine is idle; every other
      message sets the round to its own; and no other message makes a busy machine idle. */
  lemma RoundMoves(leader: string, trace: seq<Message>, m: Message)
    ensures var s, s' := After(leader, trace), After(leader, trace + [m]);
            && s'.round == (if m.kind == ViewChange || m.kind == NewView then (if StartsRound(trace, m) then m.round else s.round) else m.round)
            && (StartsRound(trace, m) ==> Cleared(s'))
            && (s.phase != Idle ==> (s'.phase == Idle <==> StartsRound(trace, m)))
  {
    assert (trace + [m])[..|trace|] == trace && (trace + [m])[|trace|] == m;
    RunFollows(leader, trace);
    var s := After(leader, trace);
    FollowsStep(trace, s, m);
    RoundSnoc(trace, m);
    hide RoundOf;
    hide Askers;
    assert StartsRound(trace, m) ==> m.kind == ViewChange || m.kind == NewView;
    hide StartsRound;
    if s.phase != Idle && !StartsRound(trace, m) {
      BusyStays(s, m);
    }
  }

  lemma BusyStays(s: Snapshot, m: Message)
    requires VotesMade(s) && s.phase != Idle
    requires m.kind == ViewChange || m.kind == NewView ==> KeepsVotes(s, Apply(s, m).0)
    ensures Apply(s, m).0.phase != Idle
  {
  }

  /** The proposal in force has the id and still waits for prepares or a commit. */
  ghost predicate OpenToPrepare(leader: string, trace: seq<Message>, id: string) {
    id != "" && exists p :: InForce(leader, trace, p) && !CommitAt(trace, p) && trace[p].id == id
  }

  /** The proposal in force has the id and two senders have prepared it. */
  ghost predicate OpenToCommit(leader: string, trace: seq<Message>, id: string) {
    exists p :: InForce(leader, trace, p) && QuorumAt(trace, p) && trace[p].id == id
  }

  lemma PhaseIn(leader: string, trace: seq<Message>, s: Snapshot, id: string)
    requires Explained(leader, trace, s)
    ensures OpenToPrepare(leader, trace, id) <==> id != "" && (s.phase == Preprepared || s.phase == Prepared) && s.proposalID == id
    ensures OpenToCommit(leader, trace, id) <==> (s.phase == Prepared || s.phase == Committed) && s.proposalID == id
  {
    hide InForce;
    hide QuorumAt;
    hide CommitAt;
    if s.phase != Idle {
      var p :| InForce(leader, trace, p);
      InForceAt(leader, trace, p);
      assert Pursues(trace, s, p);
      if CommitAt(trace, p) {
        CommitPrepared(trace, p);
      }
    }
    forall p | 0 <= p < |trace| && CommitAt(trace, p)
      ensures QuorumAt(trace, p)
    {
      CommitPrepared(trace, p);
    }
  }

  /** Which messages are refused after a run, and which count as a transition. */
  lemma ReplyExact(leader: string, trace: seq<Message>, m: Message)
    ensures var s := After(leader, trace);
            var (s', r) := Apply(s, m);
            && (r.Err? <==>
                  || (m.kind == Preprepare && leader != "" && m.from != leader)
                  || (m.kind == Prepare && !OpenToPrepare(leader, trace, m.id))
                  || (m.kind == Commit && !OpenToCommit(leader, trace, m.id)))
            && (r == Ok(true) <==> Proposes(leader, m) || StartsRound(trace, m) || s'.phase != s.phase)
  {
    hide After;
    hide Follows;
    hide Explained;
    hide OpenToPrepare;
    hide OpenToCommit;
    hide OnPrepare;
    hide OnCommit;
    hide OnViewChange;
    RunFollows(leader, trace);
    PhaseExact(leader, trace);
    var s := After(leader, trace);
    PhaseIn(leader, trace, s, m.id);
    VoteReply(Moved(s, m), m);
    ViewReply(trace, s, m);
  }

  lemma VoteReply(s: Snapshot, m: Message)
    requires VotesMade(s)
    ensures var (s', r) := OnPrepare(s, m);
            && (r.Ok? <==> m.id != "" && (s.phase == Preprepared || s.phase == Prepared) && s.proposalID == m.id)
            && (r == Ok(true) <==> s'.phase != s.phase)
    ensures var (s', r) := OnCommit(s, m);
            && (r.Ok? <==> (s.phase == Prepared || s.phase == Committed) && s.proposalID == m.id)
            && (r == Ok(true) <==> s'.phase != s.phase)
  {
    if s.commitVotes.Some? {
      assert m.from in s.commitVotes.value + {m.from};
    }
  }

  lemma ViewReply(trace: seq<Message>, s: Snapshot, m: Message)
    requires Follows(trace, s)
    ensures StartsRound(trace, m) ==> m.kind == ViewChange || m.kind == NewView
    ensures m.kind == NewView ==> (StartsRound(trace, m) <==> m.round > s.round)
    ensures m.kind == ViewChange ==>
      var (s', r) := OnViewChange(Moved(s, m), m);
      r.Ok? && (r == Ok(true) <==> StartsRound(trace, m)) && (s'.phase != s.phase ==> StartsRound(trace, m))
  {
    hide RoundOf;
    hide Askers;
    if m.kind == ViewChange && m.from !in Askers(trace, m.round) {
      SecondVote(Askers(trace, m.round), m.from);
    }
  }

  // ----- the object

  class State {
    var height: nat
    var round: nat
    var phase: Phase
    var leader: string
    var proposalID: string
    var prepareVotes: Option<set<string>>
    var commitVotes: Option<set<string>>
    var viewVotes: map<nat, set<string>>

    function View(): Snapshot
      reads this
    {
      Snapshot(height, round, phase, leader, proposalID, prepareVotes, commitVotes, viewVotes)
    }

    constructor (leader: string)
      ensures View() == Start(leader)
    {
      height, round, phase, this.leader, proposalID := 0, 0, Idle, leader, "";
      prepareVotes, commitVotes, viewVotes := None, None, map[];
    }

    method Process(m: Message) returns (r: Result<bool, ProcessError>)
      requires VotesMade(View())
      modifies this
      ensures VotesMade(View())
      ensures (View(), r) == Apply(old(View()), m)
    {
      height := m.height;
      if m.kind != ViewChange && m.kind != NewView {
        round := m.round;
      }
      match m.kind
      case Preprepare =>
        if leader != "" && m.from != leader {
          return Err(UnauthorizedLeader);
        }
        phase, proposalID := Preprepared, m.id;
        prepareVotes, commitVotes := Some({}), Some({});
        r := Ok(true);
      case Prepare =>
        r := CountPrepare(m);
      case Commit =>
        r := CountCommit(m);
      case ViewChange =>
        r := CountViewChange(m);
      case NewView =>
        r := Ok(false);
        if m.round > round {
          EnterRound(m.round);
          r := Ok(true);
        }
      case Unknown =>
        r := Ok(false);
    }

    method EnterRound(target: nat)
      modifies this`round, this`phase, this`proposalID, this`prepareVotes, this`commitVotes
      ensures View() == NewRound(old(View()), target)
    {
      round, phase, proposalID := target, Idle, "";
      prepareVotes, commitVotes := None, None;
    }

    method CountPrepare(m: Message) returns (r: Result<bool, ProcessError>)
      requires VotesMade(View())
      modifies this`prepareVotes, this`phase
      ensures (View(), r) == OnPrepare(old(View()), m)
    {
      if proposalID == "" || (phase != Preprepared && phase != Prepared) {
        return Err(NotPreprepared);
      }
      if m.id != proposalID {
        return Err(ProposalMismatch);
      }
      if m.from in prepareVotes.value {
        return Ok(false);
      }
      prepareVotes := Some(prepareVotes.value + {m.from});
      if phase == Preprepared && |prepareVotes.value| >= 2 {
        phase := Prepared;
        return Ok(true);
      }
      r := Ok(false);
    }

    method CountCommit(m: Message) returns (r: Result<bool, ProcessError>)
      requires VotesMade(View())
      modifies this`commitVotes, this`phase
      ensures (View(), r) == OnCommit(old(View()), m)
    {
      if phase != Prepared && phase != Committed {
        return Err(NotPrepared);
      }
      if m.id != proposalID {
        return Err(ProposalMismatch);
      }
      if m.from in commitVotes.value {
        return Ok(false);
      }
      commitVotes := Some(commitVotes.value + {m.from});
      r := Ok(false);
      if phase != Committed && |commitVotes.value| >= 1 {
        phase := Committed;
        r := Ok(true);
      }
    }

    method CountViewChange(m: Message) returns (r: Result<bool, ProcessError>)
      modifies this
      ensures (View(), r) == OnViewChange(old(View()), m)
    {
      var bucket := if m.round in viewVotes then viewVotes[m.round] else {};
      if m.from in bucket {
        return Ok(false);
      }
      bucket := bucket + {m.from};
      viewVotes := viewVotes[m.round := bucket];
      r := Ok(false);
      if |bucket| >= 2 && m.round > round {
        EnterRound(m.round);
        r := Ok(true);
      }
    }

    /** A timeout asks for the next round and changes nothing. */
    method OnTimeout() returns (m: Message)
      ensures m == Message("self", height, round + 1, ViewChange, "vc", [])
    {
      m := Message("self", height, round + 1, ViewChange, "vc", []);
    }
  }
}

/** The message verifier of internal/consensus/qbft/verifier.go. */
module QbftVerifier {
  import opened Outcomes
  import opened QbftState

  datatype Policy = Policy(
    minHeight: nat,
    roundWindow: nat,
    replayWindow: nat,
    typeMinHeight: map<Kind, nat>,
    typeRoundMax: map<Kind, nat>,
    allowed: set<string>)

  const DEFAULT_POLICY := Policy(0, 0, 0, map[], map[], {})

  datatype Replay = Replay(seen: set<string>, hSeen: map<string, nat>)

  const NOTHING_SEEN := Replay({}, map[])

  datatype VerifyError = Malformed | Unauthorized | SigInvalid | RoundSemantic | OldHeight | RoundOutOfBound | Replayed

  function Seen(r: Replay, id: string): (Replay, bool) {
    if id == "" then (r, false)
    else if id in r.seen then (r, true)
    else (r.(seen := r.seen + {id}), false)
  }

  function SeenWithin(r: Replay, id: string, h: nat, window: nat): (Replay, bool) {
    if id == "" || window == 0 then (r, false)
    else if id in r.hSeen && h >= r.hSeen[id] && h - r.hSeen[id] <= window then (r, true)
    else (r.(hSeen := r.hSeen[id := h]), false)
  }

  /** The checks made before the replay filter. */
  function EarlyCheck(p: Policy, m: Message): Option<VerifyError> {
    if m.id == "" || m.from == "" || m.kind.Unknown? then Some(Malformed)
    else if p.allowed != {} && m.from !in p.allowed then Some(Unauthorized)
    else if 0 < |m.sig| < 32 then Some(SigInvalid)
    else if m.kind.Preprepare? && m.round != 0 then Some(RoundSemantic)
    else if p.minHeight > 0 && m.height < p.minHeight then Some(OldHeight)
    else if p.roundWindow > 0 && m.round > p.roundWindow then Some(RoundOutOfBound)
    else None
  }

  /** The checks made after it. */
  function LateCheck(p: Policy, m: Message): Option<VerifyError> {
    if (m.kind.Prepare? || m.kind.Commit?) && m.round < 1 then Some(RoundSemantic)
    else if m.kind in p.typeMinHeight && p.typeMinHeight[m.kind] > 0 && m.height < p.typeMinHeight[m.kind] then Some(OldHeight)
    else if m.kind in p.typeRoundMax && p.typeRoundMax[m.kind] > 0 && m.round > p.typeRoundMax[m.kind] then Some(RoundOutOfBound)
    else None
  }

  function Filter(p: Policy, r: Replay, m: Message): (Replay, bool) {
    if p.replayWindow > 0 then SeenWithin(r, m.id, m.height, p.replayWindow) else Seen(r, m.id)
  }

  function Verify(p: Policy, r: Replay, m: Message): (Replay, Option<VerifyError>) {
    if EarlyCheck(p, m).Some? then (r, EarlyCheck(p, m))
    else
      var (r', replayed) := Filter(p, r, m);
      (r', if replayed then Some(Replayed) else LateCheck(p, m))
  }

  class BasicVerifier {
    const policy: Policy
    var seen: set<string>
    var hSeen: map<string, nat>

    function View(): Replay
      reads this
    {
      Replay(seen, hSeen)
    }

    constructor (policy: Policy)
      ensures this.policy == policy && View() == NOTHING_SEEN
    {
      this.policy := policy;
      seen, hSeen := {}, map[];
    }

    method SeenId(id: string) returns (dup: bool)
      modifies this`seen
      ensures (View(), dup) == Seen(old(View()), id)
    {
      if id == "" {
        return false;
      }
      if id in seen {
        return true;
      }
      seen := seen + {id};
      dup := false;
    }

    method SeenWithinWindow(id: string, h: nat, window: nat) returns (dup: bool)
      modifies this`hSeen
      ensures (View(), dup) == SeenWithin(old(View()), id, h, window)
    {
      if id == "" || window == 0 {
        return false;
      }
      if id in hSeen {
        var last := hSeen[id];
        if h >= last && h - last <= window {
          return true;
        }
      }
      hSeen := hSeen[id := h];
      dup := false;
    }

    method Check(m: Message) returns (r: Option<VerifyError>)
      modifies this
      ensures (View(), r) == Verify(policy, old(View()), m)
    {
      if m.id == "" || m.from == "" || m.kind == Unknown {
        return Some(Malformed);
      }
      if policy.allowed != {} && m.from !in policy.allowed {
        return Some(Unauthorized);
      }
      if 0 < |m.sig| < 32 {
        return Some(SigInvalid);
      }
      if m.kind == Preprepare && m.round != 0 {
        return Some(RoundSemantic);
      }
      if policy.minHeight > 0 && m.height < policy.minHeight {
        return Some(OldHeight);
      }
      if policy.roundWindow > 0 && m.round > policy.roundWindow {
        return Some(RoundOutOfBound);
      }
      var dup;
      if policy.replayWindow > 0 {
        dup := SeenWithinWindow(m.id, m.height, policy.replayWindow);
      } else {
        dup := SeenId(m.id);
      }
      if dup {
        return Some(Replayed);
      }
      r := LateCheck(policy, m);
    }
  }
}

/** Verifying, then processing: the event loop of internal/consensus/service.go. */
module QbftService {
  import opened Outcomes
  import opened QbftState
  import opened QbftVerifier

  /** The last vote found in the write-ahead log at start, if any. */
  datatype Guard = NoVote | LastVote(height: nat, round: nat)

  datatype Service = Service(policy: Policy, guard: Guard, replay: Replay, machine: Snapshot, processed: seq<Message>)

  function Init(policy: Policy, guard: Guard, leader: string): Service {
    Service(policy, guard, NOTHING_SEEN, QbftState.Start(leader), [])
  }

  /** Votes older than the write-ahead log are dropped. */
  predicate Dropped(guard: Guard, m: Message) {
    && guard.LastVote? && (m.kind.Prepare? || m.kind.Commit?)
    && (m.height < guard.height || (m.height == guard.height && m.round < guard.round))
  }

  function Receive(s: Service, m: Message): (r: Service)
    requires VotesMade(s.machine)
    ensures VotesMade(r.machine)
  {
    var (replay, err) := Verify(s.policy, s.replay, m);
    if err.Some? || Dropped(s.guard, m) then s.(replay := replay)
    else s.(replay := replay, machine := Apply(s.machine, m).0, processed := s.processed + [m])
  }

  function ReceiveAll(s: Service, ms: seq<Message>): (r: Service)
    requires VotesMade(s.machine)
    ensures VotesMade(r.machine) && r.policy == s.policy && r.guard == s.guard
  {
    if ms == [] then s else Receive(ReceiveAll(s, ms[..|ms| - 1]), ms[|ms| - 1])
  }

  /** The machine has run on exactly the processed messages. */
  lemma {:induction false} MachineRuns(policy: Policy, guard: Guard, leader: string, ms: seq<Message>)
    ensures var s := ReceiveAll(Init(policy, guard, leader), ms);
            s.machine == After(leader, s.processed)
  {
    if ms != [] {
      var n := |ms| - 1;
      MachineRuns(policy, guard, leader, ms[..n]);
      var s := ReceiveAll(Init(policy, guard, leader), ms[..n]);
      assert (s.processed + [ms[n]])[..|s.processed|] == s.processed;
    }
  }

  // ----- identifiers are filtered, and votes carry their proposal's identifier

  /** A message id passes the filter at most once: either ids are filtered outright, or
      all messages with one id carry one height. */
  ghost predicate OncePerId(policy: Policy, heights: map<string, nat>, m: Message) {
    policy.replayWindow == 0 || (m.id in heights && m.height == heights[m.id])
  }

  ghost predicate Filtered(policy: Policy, heights: map<string, nat>, r: Replay, id: string) {
    if policy.replayWindow == 0 then id in r.seen
    else id in r.hSeen && id in heights && r.hSeen[id] == heights[id]
  }

  /** The machine is stuck before its first vote, and what it processed is filtered. */
  ghost predicate Stuck(s: Service, heights: map<string, nat>) {
    && (s.machine.phase == Idle || s.machine.phase == Preprepared)
    && (s.machine.phase == Idle ==> s.machine.proposalID == "")
    && (s.machine.phase == Preprepared ==> s.machine.prepareVotes == Some({}) && s.machine.commitVotes == Some({}))
    && (s.machine.proposalID != "" ==> Filtered(s.policy, heights, s.replay, s.machine.proposalID))
    && (forall i :: 0 <= i < |s.processed| ==> Filtered(s.policy, heights, s.replay, s.processed[i].id))
    && (forall i, j :: 0 <= i < j < |s.processed| ==> s.processed[i].id != s.processed[j].id)
  }

  /** What verification does to the filter. */
  lemma VerifyFilters(policy: Policy, heights: map<string, nat>, r: Replay, m: Message)
    requires OncePerId(policy, heights, m)
    ensures var (r', err) := Verify(policy, r, m);
            && (forall id :: Filtered(policy, heights, r, id) ==> Filtered(policy, heights, r', id))
            && (err.None? ==> !Filtered(policy, heights, r, m.id) && Filtered(policy, heights, r', m.id) && m.id != "")
  {
  }

  /** A fresh id cannot vote for the current proposal. */
  lemma FreshIdStays(s: Snapshot, m: Message)
    requires VotesMade(s) && (s.phase == Idle || s.phase == Preprepared) && m.id != s.proposalID
    requires s.phase == Idle ==> s.proposalID == ""
    requires s.phase == Preprepared ==> s.prepareVotes == Some({}) && s.commitVotes == Some({})
    ensures var s' := Apply(s, m).0;
            && (s'.phase == Idle || s'.phase == Preprepared)
            && (s'.phase == Idle ==> s'.proposalID == "")
            && (s'.phase == Preprepared ==> s'.prepareVotes == Some({}) && s'.commitVotes == Some({}))
            && (s'.proposalID == s.proposalID || s'.proposalID == m.id || s'.proposalID == "")
  {
  }

  lemma StuckStep(s: Service, heights: map<string, nat>, m: Message)
    requires VotesMade(s.machine) && Stuck(s, heights) && OncePerId(s.policy, heights, m)
    ensures Stuck(Receive(s, m), heights)
  {
    VerifyFilters(s.policy, heights, s.replay, m);
    var (replay, err) := Verify(s.policy, s.replay, m);
    if err.None? && !Dropped(s.guard, m) {
      assert m.id != s.machine.proposalID;
      FreshIdStays(s.machine, m);
    }
    hide Verify;
    hide Apply;
    hide Filtered;
  }

  /** When every id passes the filter at most once, the machine never counts a vote: it
      never gets past its first phase, and each id is processed at most once. */
  lemma {:induction false} NeverPrepared(
      policy: Policy, guard: Guard, leader: string, heights: map<string, nat>, ms: seq<Message>)
    requires forall i :: 0 <= i < |ms| ==> OncePerId(policy, heights, ms[i])
    ensures Stuck(ReceiveAll(Init(policy, guard, leader), ms), heights)
  {
    if ms != [] {
      var n := |ms| - 1;
      NeverPrepared(policy, guard, leader, heights, ms[..n]);
      StuckStep(ReceiveAll(Init(policy, guard, leader), ms[..n]), heights, ms[n]);
    }
  }

  // ----- exactly which messages are processed

  /** The id is new, or a window is set and the height lies below the last height at which
      the id got through, or further above it than the window. */
  predicate Fresh(policy: Policy, ms: seq<Message>, m: Message)
    decreases |ms|, 1
  {
    var k, w := LastThrough(policy, ms, m.id), policy.replayWindow;
    k < 0 || (w > 0 && (m.height < ms[k].height || m.height > ms[k].height + w))
  }

  /** The last message of the id that got through the early checks and the filter, or -1. */
  function LastThrough(policy: Policy, ms: seq<Message>, id: string): (k: int)
    ensures -1 <= k < |ms|
    ensures k >= 0 ==> ms[k].id == id
    decreases |ms|, 0
  {
    if ms == [] then -1
    else
      var n := |ms| - 1;
      if ms[n].id == id && Through(policy, ms[..n], ms[n]) then n else LastThrough(policy, ms[..n], id)
  }

  /** After the messages ms, m gets through the early checks and the filter. */
  predicate Through(policy: Policy, ms: seq<Message>, m: Message)
    decreases |ms|, 2
  {
    EarlyCheck(policy, m).None? && Fresh(policy, ms, m)
  }

  /** After the messages ms, m is processed. */
  predicate Processes(policy: Policy, guard: Guard, ms: seq<Message>, m: Message) {
    Through(policy, ms, m) && LateCheck(policy, m).None? && !Dropped(guard, m)
  }

  /** The filter remembers exactly the last heights at which ids got through. */
  ghost predicate Remembers(policy: Policy, ms: seq<Message>, r: Replay, id: string) {
    var k := LastThrough(policy, ms, id);
    if policy.replayWindow == 0 then id in r.seen <==> k >= 0
    else (id in r.hSeen <==> k >= 0) && (k >= 0 ==> r.hSeen[id] == ms[k].height)
  }

  /** With the filter remembering a run's messages, verification decides exactly as said. */
  lemma VerifyExact(policy: Policy, ms: seq<Message>, r: Replay, m: Message)
    requires Remembers(policy, ms, r, m.id)
    ensures EarlyCheck(policy, m).None? ==> (Filter(policy, r, m).1 <==> !Fresh(policy, ms, m))
    ensures Verify(policy, r, m).1.None? <==> Through(policy, ms, m) && LateCheck(policy, m).None?
  {
  }

  /** Verification records an id exactly when its message gets through. */
  lemma FilterRecords(policy: Policy, ms: seq<Message>, r: Replay, m: Message)
    requires Remembers(policy, ms, r, m.id)
    ensures Verify(policy, r, m).0 ==
      if !Through(policy, ms, m) then r
      else if policy.replayWindow == 0 then r.(seen := r.seen + {m.id})
      else r.(hSeen := r.hSeen[m.id := m.height])
  {
    VerifyExact(policy, ms, r, m);
    hide Fresh;
    hide LastThrough;
    hide LateCheck;
  }

  lemma LastThroughSnoc(policy: Policy, ms: seq<Message>, m: Message, id: string)
    ensures LastThrough(policy, ms + [m], id) ==
      if m.id == id && Through(policy, ms, m) then |ms| else LastThrough(policy, ms, id)
  {
    assert (ms + [m])[..|ms|] == ms && (ms + [m])[|ms|] == m;
  }

  lemma RemembersStep(policy: Policy, ms: seq<Message>, r: Replay, m: Message, id: string)
    requires Remembers(policy, ms, r, id) && Remembers(policy, ms, r, m.id)
    ensures Remembers(policy, ms + [m], Verify(policy, r, m).0, id)
  {
    hide Verify;
    hide Through;
    hide LastThrough;
    FilterRecords(policy, ms, r, m);
    LastThroughSnoc(policy, ms, m, id);
    var k := LastThrough(policy, ms, id);
    assert k >= 0 ==> (ms + [m])[k] == ms[k];
  }

  /** The run-level rule: after any messages, under any policy and guard, a message that
      passes the early checks gets through the filter if and only if it is fresh. */
  lemma {:induction false} FilterExact(policy: Policy, guard: Guard, leader: string, ms: seq<Message>, id: string)
    ensures Remembers(policy, ms, ReceiveAll(Init(policy, guard, leader), ms).replay, id)
  {
    if ms != [] {
      var n := |ms| - 1;
      hide Remembers;
      hide Verify;
      FilterExact(policy, guard, leader, ms[..n], id);
      FilterExact(policy, guard, leader, ms[..n], ms[n].id);
      RemembersStep(policy, ms[..n], ReceiveAll(Init(policy, guard, leader), ms[..n]).replay, ms[n], id);
      assert ms == ms[..n] + [ms[n]];
    }
  }

  /** The positions of the messages that are processed. */
  ghost function Kept(policy: Policy, guard: Guard, ms: seq<Message>): (ks: seq<int>)
    ensures forall a :: 0 <= a < |ks| ==> 0 <= ks[a] < |ms|
    ensures forall a, b :: 0 <= a < b < |ks| ==> ks[a] < ks[b]
    ensures forall a :: 0 <= a < |ks| ==> Processes(policy, guard, ms[..ks[a]], ms[ks[a]])
  {
    if ms == [] then []
    else
      var n := |ms| - 1;
      var rest := Kept(policy, guard, ms[..n]);
      assert forall a :: 0 <= a < |rest| ==> ms[..n][..rest[a]] == ms[..rest[a]];
      if Processes(policy, guard, ms[..n], ms[n]) then rest + [n] else rest
  }

  ghost function Pick(ms: seq<Message>, ks: seq<int>): (r: seq<Message>)
    requires forall a :: 0 <= a < |ks| ==> 0 <= ks[a] < |ms|
    ensures |r| == |ks|
  {
    seq(|ks|, a requires 0 <= a < |ks| => ms[ks[a]])
  }

  lemma KeptSnoc(policy: Policy, guard: Guard, ms: seq<Message>, m: Message)
    ensures var rest := Kept(policy, guard, ms);
            Pick(ms + [m], Kept(policy, guard, ms + [m]))
              == Pick(ms, rest) + if Processes(policy, guard, ms, m) then [m] else []
  {
    hide Processes;
    var all := ms + [m];
    assert all[..|ms|] == ms && all[|ms|] == m;
    var rest := Kept(policy, guard, ms);
    assert Kept(policy, guard, all) == if Processes(policy, guard, ms, m) then rest + [|ms|] else rest;
    assert forall a :: 0 <= a < |rest| ==> all[rest[a]] == ms[rest[a]];
  }

  lemma ReceiveProcesses(s: Service, ms: seq<Message>, m: Message)
    requires VotesMade(s.machine) && Remembers(s.policy, ms, s.replay, m.id)
    ensures Receive(s, m).processed == s.processed + if Processes(s.policy, s.guard, ms, m) then [m] else []
  {
    hide Verify;
    hide Through;
    hide Apply;
    VerifyExact(s.policy, ms, s.replay, m);
  }

  // ----- the checks, spelled out

  /** Complete, from a permitted sender, with no short signature, and inside the policy's
      general limits; a proposal is for round 0. */
  ghost predicate Admitted(p: Policy, m: Message) {
    && m.id != "" && m.from != "" && m.kind != Unknown
    && (p.allowed != {} ==> m.from in p.allowed)
    && (|m.sig| == 0 || |m.sig| >= 32)
    && (m.kind == Preprepare ==> m.round == 0)
    && p.minHeight <= m.height
    && (p.roundWindow != 0 ==> m.round <= p.roundWindow)
  }

  /** Inside the limits for its kind; a vote is for round 1 or later. */
  ghost predicate WithinKind(p: Policy, m: Message) {
    && (m.kind == Prepare || m.kind == Commit ==> 1 <= m.round)
    && (m.kind in p.typeMinHeight ==> p.typeMinHeight[m.kind] <= m.height)
    && (m.kind in p.typeRoundMax && p.typeRoundMax[m.kind] != 0 ==> m.round <= p.typeRoundMax[m.kind])
  }

  /** No older vote than the last one logged, by height and then round. */
  ghost predicate NotOlder(guard: Guard, m: Message) {
    guard.LastVote? && (m.kind == Prepare || m.kind == Commit) ==>
      guard.height < m.height || (guard.height == m.height && guard.round <= m.round)
  }

  lemma ChecksExact(p: Policy, guard: Guard, m: Message)
    ensures EarlyCheck(p, m).None? <==> Admitted(p, m)
    ensures LateCheck(p, m).None? <==> WithinKind(p, m)
    ensures Dropped(guard, m) <==> !NotOlder(guard, m)
  {
  }

  /** One more message is processed if and only if it is admitted, fresh, within the limits
      for its kind and not older than the guard. */
  lemma ProcessedIff(policy: Policy, guard: Guard, leader: string, ms: seq<Message>, m: Message)
    ensures ReceiveAll(Init(policy, guard, leader), ms + [m]).processed
         == ReceiveAll(Init(policy, guard, leader), ms).processed
            + if Admitted(policy, m) && Fresh(policy, ms, m) && WithinKind(policy, m) && NotOlder(guard, m) then [m] else []
  {
    var all := ms + [m];
    assert all[..|ms|] == ms && all[|ms|] == m;
    FilterExact(policy, guard, leader, ms, m.id);
    ChecksExact(policy, guard, m);
    hide Remembers;
    hide Receive;
    hide Fresh;
    hide EarlyCheck;
    hide LateCheck;
    hide Dropped;
    hide Admitted;
    hide WithinKind;
    hide NotOlder;
    ReceiveProcesses(ReceiveAll(Init(policy, guard, leader), ms), ms, m);
  }

  /** Whatever is received, the machine runs on messages inside the limits only. */
  lemma {:induction false} ProcessedWithin(policy: Policy, guard: Guard, leader: string, ms: seq<Message>)
    ensures var done := ReceiveAll(Init(policy, guard, leader), ms).processed;
            forall i :: 0 <= i < |done| ==> Admitted(policy, done[i]) && WithinKind(policy, done[i]) && NotOlder(guard, done[i])
  {
    hide Admitted;
    hide WithinKind;
    hide NotOlder;
    hide Receive;
    hide Fresh;
    if ms != [] {
      var n := |ms| - 1;
      ProcessedWithin(policy, guard, leader, ms[..n]);
      ProcessedIff(policy, guard, leader, ms[..n], ms[n]);
      assert ms == ms[..n] + [ms[n]];
    }
  }

  /** Verify-then-process, exactly: the messages processed are those that are fresh when
      they come and pass the other checks, and the machine has run on just these. */
  lemma {:induction false} ServiceExact(policy: Policy, guard: Guard, leader: string, ms: seq<Message>)
    ensures var s := ReceiveAll(Init(policy, guard, leader), ms);
            s.processed == Pick(ms, Kept(policy, guard, ms)) && s.machine == After(leader, s.processed)
  {
    hide Remembers;
    hide Receive;
    hide Processes;
    hide After;
    MachineRuns(policy, guard, leader, ms);
    if ms != [] {
      var n := |ms| - 1;
      ServiceExact(policy, guard, leader, ms[..n]);
      FilterExact(policy, guard, leader, ms[..n], ms[n].id);
      ReceiveProcesses(ReceiveAll(Init(policy, guard, leader), ms[..n]), ms[..n], ms[n]);
      KeptSnoc(policy, guard, ms[..n], ms[n]);
      assert ms == ms[..n] + [ms[n]];
    }
  }

  // ----- what getting past the first phase takes

  lemma {:induction false} ThroughAfter(policy: Policy, ms: seq<Message>, p: nat)
    requires p < |ms| && Through(policy, ms[..p], ms[p])
    ensures LastThrough(policy, ms, ms[p].id) >= p
  {
    var n := |ms| - 1;
    if p < n {
      assert ms[..n][..p] == ms[..p];
      ThroughAfter(policy, ms[..n], p);
    }
  }

  /** m comes at a height below message q's, or further above it than the window. */
  predicate Jumps(policy: Policy, q: Message, m: Message) {
    policy.replayWindow > 0 && (m.height < q.height || m.height > q.height + policy.replayWindow)
  }

  /** A second message of an id that is processed jumps away from the last one let through. */
  lemma RepeatJumps(policy: Policy, ms: seq<Message>, p: nat, i: nat) returns (q: nat)
    requires p < i < |ms| && ms[p].id == ms[i].id && Through(policy, ms[..p], ms[p]) && Through(policy, ms[..i], ms[i])
    ensures p <= q < i && ms[q].id == ms[i].id && q == LastThrough(policy, ms[..i], ms[i].id) && Jumps(policy, ms[q], ms[i])
  {
    assert ms[..i][..p] == ms[..p] && ms[..i][p] == ms[p];
    ThroughAfter(policy, ms[..i], p);
    q := LastThrough(policy, ms[..i], ms[i].id);
  }

  /** What every run that gets past the first phase contains, under any policy and guard: a
      proposal and prepares of two distinct permitted senders for it, all processed, and
      each of the two prepares jumps, by the replay window, away from the last message of
      that id let through before it. */
  lemma PreparedNeedsJumps(policy: Policy, guard: Guard, leader: string, ms: seq<Message>)
      returns (p: nat, i: nat, j: nat, qi: nat, qj: nat)
    requires var s := ReceiveAll(Init(policy, guard, leader), ms).machine; s.phase == Prepared || s.phase == Committed
    ensures p < |ms| && p < i < |ms| && p < j < |ms| && Proposes(leader, ms[p]) && ms[i].kind == ms[j].kind == Prepare
    ensures ms[p].id == ms[i].id == ms[j].id && ms[i].from != ms[j].from
    ensures Permitted(policy, ms[p].from) && Permitted(policy, ms[i].from) && Permitted(policy, ms[j].from)
    ensures p <= qi < i && qi == LastThrough(policy, ms[..i], ms[p].id) && Jumps(policy, ms[qi], ms[i])
    ensures p <= qj < j && qj == LastThrough(policy, ms[..j], ms[p].id) && Jumps(policy, ms[qj], ms[j])
  {
    hide After;
    ServiceExact(policy, guard, leader, ms);
    var ks := Kept(policy, guard, ms);
    var trace := Pick(ms, ks);
    var a, b, c := PreparedMeans(leader, trace);
    p, i, j := ks[a], ks[b], ks[c];
    assert trace[a] == ms[p] && trace[b] == ms[i] && trace[c] == ms[j];
    hide Kept;
    assert Processes(policy, guard, ms[..p], ms[p]) && Processes(policy, guard, ms[..i], ms[i])
        && Processes(policy, guard, ms[..j], ms[j]);
    qi := RepeatJumps(policy, ms, p, i);
    qj := RepeatJumps(policy, ms, p, j);
  }

  // ----- exactly when can the machine make progress?

  predicate Permitted(policy: Policy, from: string) {
    from != "" && (policy.allowed == {} || from in policy.allowed)
  }

  /** Two distinct permitted senders, and the leader, if set, is permitted. */
  ghost predicate PermitsQuorum(policy: Policy, leader: string) {
    && (exists a, b :: a != b && Permitted(policy, a) && Permitted(policy, b))
    && (leader == "" || Permitted(policy, leader))
  }

  ghost predicate Acceptable(policy: Policy, guard: Guard, m: Message) {
    EarlyCheck(policy, m).None? && LateCheck(policy, m).None? && !Dropped(guard, m)
  }

  lemma AcceptablePasses(s: Service, m: Message)
    requires VotesMade(s.machine) && s.policy.replayWindow > 0 && Acceptable(s.policy, s.guard, m)
    requires m.id in s.replay.hSeen ==>
      m.height < s.replay.hSeen[m.id] || m.height > s.replay.hSeen[m.id] + s.policy.replayWindow
    ensures Receive(s, m) == s.(replay := s.replay.(hSeen := s.replay.hSeen[m.id := m.height]),
                                machine := Apply(s.machine, m).0, processed := s.processed + [m])
  {
  }

  /** With a window, acceptable messages of one id at falling heights are all processed. */
  lemma {:induction false} FallingHeightsPass(policy: Policy, guard: Guard, leader: string, ms: seq<Message>, id: string)
    requires policy.replayWindow > 0
    requires forall i :: 0 <= i < |ms| ==> Acceptable(policy, guard, ms[i]) && ms[i].id == id
    requires forall i, j :: 0 <= i < j < |ms| ==> ms[i].height > ms[j].height
    ensures var s := ReceiveAll(Init(policy, guard, leader), ms);
            && s.processed == ms
            && (id in s.replay.hSeen <==> ms != []) && (ms != [] ==> s.replay.hSeen[id] == ms[|ms| - 1].height)
  {
    if ms != [] {
      var n := |ms| - 1;
      hide Receive;
      hide Acceptable;
      FallingHeightsPass(policy, guard, leader, ms[..n], id);
      AcceptablePasses(ReceiveAll(Init(policy, guard, leader), ms[..n]), ms[n]);
      assert ms == ms[..n] + [ms[n]];
    }
  }

  function MinHeightOf(policy: Policy, kind: Kind): nat {
    if kind in policy.typeMinHeight then policy.typeMinHeight[kind] else 0
  }

  /** A height that no check of the policy or the guard objects to, nor to any above it. */
  function HighEnough(policy: Policy, guard: Guard): nat {
    policy.minHeight + MinHeightOf(policy, Preprepare) + MinHeightOf(policy, Prepare) + MinHeightOf(policy, Commit)
    + (if guard.NoVote? then 0 else guard.height) + 1
  }

  lemma HighVotesAcceptable(policy: Policy, guard: Guard, from: string, h: nat, kind: Kind)
    requires Permitted(policy, from) && h >= HighEnough(policy, guard) && (kind == Preprepare || kind == Prepare || kind == Commit)
    ensures Acceptable(policy, guard, Message(from, h, if kind == Preprepare then 0 else 1, kind, "x", []))
  {
  }

  /** Four messages for one proposal, each at a lower height than the one before. */
  function Descending(proposer: string, a: string, b: string, h: nat): seq<Message> {
    [Message(proposer, h + 3, 0, Preprepare, "x", []), Message(a, h + 2, 1, Prepare, "x", []),
     Message(b, h + 1, 1, Prepare, "x", []), Message(a, h, 1, Commit, "x", [])]
  }

  lemma AfterSnoc(leader: string, ms: seq<Message>, m: Message)
    ensures After(leader, ms + [m]) == Apply(After(leader, ms), m).0
  {
    assert (ms + [m])[..|ms|] == ms;
  }

  /** A prepare of a new sender for the current proposal is counted. */
  lemma PrepareCounts(s: Snapshot, m: Message, votes: set<string>)
    requires s.phase == Preprepared && s.proposalID == m.id != "" && s.prepareVotes == Some(votes) && s.commitVotes.Some?
    requires m.kind == Prepare && m.from !in votes
    ensures var s' := Apply(s, m).0;
            && s'.prepareVotes == Some(votes + {m.from}) && s'.proposalID == s.proposalID && s'.commitVotes == s.commitVotes
            && s'.phase == if |votes| >= 1 then Prepared else Preprepared
  {
    assert |votes + {m.from}| == |votes| + 1;
  }

  lemma ProposalCounts(s: Snapshot, m: Message)
    requires VotesMade(s) && Proposes(s.leader, m)
    ensures var s' := Apply(s, m).0;
            s'.phase == Preprepared && s'.proposalID == m.id && s'.prepareVotes == Some({}) && s'.commitVotes == Some({})
  {
  }

  /** A proposal and the prepares of two senders prepare it. */
  lemma ThreeVotes(leader: string, m1: Message, m2: Message, m3: Message)
    requires Proposes(leader, m1) && m2.kind == m3.kind == Prepare && m1.id == m2.id == m3.id != "" && m2.from != m3.from
    ensures var s := After(leader, [m1, m2, m3]);
            s.phase == Prepared && s.proposalID == m1.id && s.commitVotes == Some({})
  {
    hide Apply;
    hide Proposes;
    var s0 := QbftState.Start(leader);
    ProposalCounts(s0, m1);
    var s1 := Apply(s0, m1).0;
    PrepareCounts(s1, m2, {});
    var s2 := Apply(s1, m2).0;
    PrepareCounts(s2, m3, {} + {m2.from});
    ThreeSteps(leader, m1, m2, m3);
  }

  lemma ThreeSteps(leader: string, m1: Message, m2: Message, m3: Message)
    ensures After(leader, [m1, m2, m3]) == Apply(Apply(Apply(QbftState.Start(leader), m1).0, m2).0, m3).0
  {
    hide Apply;
    AfterSnoc(leader, [], m1);
    AfterSnoc(leader, [m1], m2);
    AfterSnoc(leader, [m1, m2], m3);
    assert [] + [m1] == [m1] && [m1] + [m2] == [m1, m2] && [m1, m2] + [m3] == [m1, m2, m3];
  }

  lemma FourVotes(leader: string, m1: Message, m2: Message, m3: Message, m4: Message)
    requires Proposes(leader, m1) && m2.kind == m3.kind == Prepare && m1.id == m2.id == m3.id != "" && m2.from != m3.from
    requires m4.kind == Commit && m4.id == m1.id
    ensures After(leader, [m1, m2, m3, m4]).phase == Committed
  {
    ThreeVotes(leader, m1, m2, m3);
    AfterSnoc(leader, [m1, m2, m3], m4);
    assert [m1, m2, m3] + [m4] == [m1, m2, m3, m4];
    hide After;
    assert |{} + {m4.from}| == 1;
  }

  lemma DescendingCommits(policy: Policy, guard: Guard, leader: string, a: string, b: string)
    requires policy.replayWindow > 0 && a != b && Permitted(policy, a) && Permitted(policy, b)
    requires leader == "" || Permitted(policy, leader)
    ensures var ms := Descending(if leader == "" then a else leader, a, b, HighEnough(policy, guard));
            ReceiveAll(Init(policy, guard, leader), ms).machine.phase == Committed
  {
    var h := HighEnough(policy, guard);
    var proposer := if leader == "" then a else leader;
    var ms := Descending(proposer, a, b, h);
    HighVotesAcceptable(policy, guard, proposer, h + 3, Preprepare);
    HighVotesAcceptable(policy, guard, a, h + 2, Prepare);
    HighVotesAcceptable(policy, guard, b, h + 1, Prepare);
    HighVotesAcceptable(policy, guard, a, h, Commit);
    hide HighEnough;
    hide Acceptable;
    hide Permitted;
    hide ReceiveAll;
    FallingHeightsPass(policy, guard, leader, ms, "x");
    MachineRuns(policy, guard, leader, ms);
    FourVotes(leader, ms[0], ms[1], ms[2], ms[3]);
    assert ms == [ms[0], ms[1], ms[2], ms[3]];
  }

  /** The documented flow (prepares after a proposal, then a commit), under any policy,
      guard and leader: some run gets past the first phase if and only if a replay window
      is set, two senders are permitted and so is the leader; and then some run commits. */
  lemma ProgressNeedsWindow(policy: Policy, guard: Guard, leader: string)
    ensures policy.replayWindow > 0 && PermitsQuorum(policy, leader) <==>
      exists ms :: (var s := ReceiveAll(Init(policy, guard, leader), ms);
                    s.machine.phase == Prepared || s.machine.phase == Committed)
    ensures policy.replayWindow > 0 && PermitsQuorum(policy, leader) ==>
      exists ms :: ReceiveAll(Init(policy, guard, leader), ms).machine.phase == Committed
  {
    hide ReceiveAll;
    if policy.replayWindow > 0 && PermitsQuorum(policy, leader) {
      var a, b :| a != b && Permitted(policy, a) && Permitted(policy, b);
      DescendingCommits(policy, guard, leader, a, b);
    }
    forall ms | (var s := ReceiveAll(Init(policy, guard, leader), ms).machine; s.phase == Prepared || s.phase == Committed)
      ensures policy.replayWindow > 0 && PermitsQuorum(policy, leader)
    {
      var p, i, j, qi, qj := PreparedNeedsJumps(policy, guard, leader, ms);
    }
  }

  // ----- rejected messages move the filter

  function WindowOnly(window: nat): Policy {
    DEFAULT_POLICY.(replayWindow := window)
  }

  /** A proposal and two prepares at one height, each prepare preceded by a malformed one
      at height 0. */
  function Interleaved(window: nat): seq<Message> {
    var h := window + 1;
    [Message("a", h, 0, Preprepare, "x", []), Message("b", 0, 0, Prepare, "x", []), Message("a", h, 1, Prepare, "x", []),
     Message("b", 0, 0, Prepare, "x", []), Message("b", h, 1, Prepare, "x", [])]
  }

  lemma RejectedMovesFilter(s: Service, m: Message)
    requires VotesMade(s.machine) && s.policy.replayWindow > 0 && EarlyCheck(s.policy, m).None? && LateCheck(s.policy, m).Some?
    requires m.id in s.replay.hSeen && m.height < s.replay.hSeen[m.id]
    ensures Receive(s, m) == s.(replay := s.replay.(hSeen := s.replay.hSeen[m.id := m.height]))
  {
  }

  lemma ReceivePrefix(s: Service, ms: seq<Message>, k: nat)
    requires VotesMade(s.machine) && k < |ms|
    ensures ReceiveAll(s, ms[..k + 1]) == Receive(ReceiveAll(s, ms[..k]), ms[k])
  {
    assert ms[..k + 1][..k] == ms[..k];
  }

  ghost predicate Refused(policy: Policy, m: Message) {
    EarlyCheck(policy, m).None? && LateCheck(policy, m).Some?
  }

  /** A refused message at a low height, then an acceptable one beyond the window. */
  lemma BouncePasses(s: Service, ms: seq<Message>, k: nat, low: Message, m: Message) returns (s2: Service)
    requires VotesMade(s.machine) && k + 1 < |ms| && ms[k] == low && ms[k + 1] == m
    requires s.policy.replayWindow > 0 && Refused(s.policy, low) && Acceptable(s.policy, s.guard, m) && low.id == m.id
    requires var t := ReceiveAll(s, ms[..k]);
             low.id in t.replay.hSeen && low.height < t.replay.hSeen[low.id] && m.height > low.height + s.policy.replayWindow
    ensures s2 == ReceiveAll(s, ms[..k + 2])
    ensures s2.processed == ReceiveAll(s, ms[..k]).processed + [m] && m.id in s2.replay.hSeen && s2.replay.hSeen[m.id] == m.height
  {
    hide Receive;
    hide Acceptable;
    hide ReceiveAll;
    ReceivePrefix(s, ms, k);
    ReceivePrefix(s, ms, k + 1);
    var t := ReceiveAll(s, ms[..k]);
    RejectedMovesFilter(t, low);
    AcceptablePasses(Receive(t, low), m);
    s2 := Receive(Receive(t, low), m);
  }

  lemma InterleavedChecks(window: nat)
    requires window > 0
    ensures var ms, policy := Interleaved(window), WindowOnly(window);
            && Acceptable(policy, NoVote, ms[0]) && Acceptable(policy, NoVote, ms[2]) && Acceptable(policy, NoVote, ms[4])
            && Refused(policy, ms[1]) && ms[3] == ms[1]
  {
  }

  lemma FirstPasses(s: Service, ms: seq<Message>)
    requires VotesMade(s.machine) && ms != [] && s.policy.replayWindow > 0 && Acceptable(s.policy, s.guard, ms[0])
    requires s.replay == NOTHING_SEEN && s.processed == []
    ensures var t := ReceiveAll(s, ms[..1]);
            t.processed == [ms[0]] && ms[0].id in t.replay.hSeen && t.replay.hSeen[ms[0].id] == ms[0].height
  {
    hide Acceptable;
    hide Receive;
    assert ReceiveAll(s, ms[..0]) == s;
    ReceivePrefix(s, ms, 0);
    AcceptablePasses(s, ms[0]);
  }

  /** One height for all processed messages is no obstacle: a message rejected after the
      filter has already moved it. For every window the interleaved run ends prepared,
      although every message it processed has the same height. */
  lemma RejectedMessagesHelp(window: nat)
    requires window > 0
    ensures var s := ReceiveAll(Init(WindowOnly(window), NoVote, ""), Interleaved(window));
            s.machine.phase == Prepared && forall i :: 0 <= i < |s.processed| ==> s.processed[i].height == window + 1
  {
    hide ReceiveAll;
    hide Acceptable;
    hide Refused;
    hide After;
    InterleavedChecks(window);
    var ms, s0 := Interleaved(window), Init(WindowOnly(window), NoVote, "");
    TwoBounces(s0, ms);
    MachineRuns(WindowOnly(window), NoVote, "", ms);
    ThreeVotes("", ms[0], ms[2], ms[4]);
  }

  lemma TwoBounces(s: Service, ms: seq<Message>)
    requires VotesMade(s.machine) && |ms| == 5 && s.policy.replayWindow > 0 && s.replay == NOTHING_SEEN && s.processed == []
    requires Acceptable(s.policy, s.guard, ms[0]) && Acceptable(s.policy, s.guard, ms[2]) && Acceptable(s.policy, s.guard, ms[4])
    requires Refused(s.policy, ms[1]) && ms[3] == ms[1]
    requires forall i :: 0 <= i < 5 ==> ms[i].id == ms[0].id
    requires ms[0].height == ms[2].height == ms[4].height > ms[1].height + s.policy.replayWindow
    ensures ReceiveAll(s, ms).processed == [ms[0], ms[2], ms[4]]
  {
    hide ReceiveAll;
    hide Acceptable;
    hide Refused;
    FirstPasses(s, ms);
    var s3 := BouncePasses(s, ms, 1, ms[1], ms[2]);
    var s5 := BouncePasses(s, ms, 3, ms[3], ms[4]);
    assert ms[..5] == ms;
  }
}
