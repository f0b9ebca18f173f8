/**
 Failover elections over whole runs: a master votes once per epoch, and no epoch is won by two
 nodes, as long as no vote is counted between the scheduling of an election and its start.
 */
module ClusterElection {
  import opened Options
  import opened ClusterNode
  import opened ClusterMachine
  import opened ClusterTraces
  import opened Sets

  // A vote was counted after the tally was cleared and before votes were asked for.
  predicate LateStart(s: State, step: Step) {
    step.Start? && step.j < |s.nodes| && s.nodes[step.j].authCount > 0
  }

  ghost predicate VotesRemembered(s: State) {
    && (forall i | 0 <= i < |s.nodes| :: s.nodes[i].lastVoteEpoch <= s.nodes[i].currentEpoch)
    && (forall b | b in s.votes :: b.voter < |s.nodes| && 0 < b.epoch <= s.nodes[b.voter].lastVoteEpoch)
  }

  ghost predicate VotesUnique(s: State) {
    forall b, c | b in s.votes && c in s.votes && b.voter == c.voter && b.epoch == c.epoch :: b == c
  }

  ghost predicate Requested(s: State) {
    && (forall i | 0 <= i < |s.nodes| :: s.nodes[i].authEpoch <= s.nodes[i].currentEpoch)
    && (forall p | p in s.net && p.body.AuthRequest? ::
          p.from < |s.nodes| && p.currentEpoch <= s.nodes[p.from].authEpoch)
    && (forall b | b in s.votes :: b.candidate < |s.nodes| && b.epoch <= s.nodes[b.candidate].authEpoch)
  }

  function BallotOf(a: Ack): Ballot { Ballot(a.voter, a.epoch, a.to) }

  ghost predicate AcksGenuine(s: State)
    requires |s.counted| == |s.nodes|
  {
    && (forall a | a in s.acks :: BallotOf(a) in s.votes && a.to < |s.nodes|)
    && (forall a | a in s.acks && a.epoch == s.nodes[a.to].authEpoch :: a.voter !in s.counted[a.to])
    && (forall a, b | a in s.acks && b in s.acks && BallotOf(a) == BallotOf(b) :: a == b)
  }

  ghost predicate TallyHonest(masters: set<Id>, s: State)
    requires |s.counted| == |s.nodes|
  {
    forall j: Id | 0 <= j < |s.nodes| ::
      && s.nodes[j].authCount == |s.counted[j]|
      && s.counted[j] <= masters
      && forall v | v in s.counted[j] :: Ballot(v, s.nodes[j].authEpoch, j) in s.votes
  }

  ghost predicate Backing(masters: set<Id>, votes: set<Ballot>, w: Victory, quorum: set<Id>) {
    && quorum <= masters && |quorum| >= |masters| / 2 + 1
    && forall v | v in quorum :: Ballot(v, w.epoch, w.winner) in votes
  }

  ghost predicate WinsBacked(masters: set<Id>, s: State) {
    forall w | w in s.wins :: exists quorum :: Backing(masters, s.votes, w, quorum)
  }

  ghost predicate Inv(masters: set<Id>, s: State) {
    && Shaped(s) && VotesRemembered(s) && VotesUnique(s) && Requested(s)
    && AcksGenuine(s) && TallyHonest(masters, s) && WinsBacked(masters, s)
  }

  // A hard reset of a node that has voted.
  ghost predicate ResetsVoter(s: State, step: Step) { step.Reset? && exists b :: b in s.votes && b.voter == step.j }

  /** One vote per epoch is remembered by every step but the hard reset of a node that has voted. */
  lemma VotesStayRemembered(s: State, step: Step)
    requires Shaped(s) && Enabled(s, step) && VotesRemembered(s)
    ensures VotesRemembered(Next(s, step)) <==> !ResetsVoter(s, step)
  {
    var s', j := Next(s, step), step.j;
    assert forall i | 0 <= i < |s.nodes| && i != j :: s'.nodes[i] == s.nodes[i];
    if step.Reset? {
      assert s'.nodes[j].lastVoteEpoch == 0;
    }
  }

  lemma VotesStayUnique(s: State, step: Step)
    requires Shaped(s) && Enabled(s, step) && VotesRemembered(s) && VotesUnique(s)
    ensures VotesUnique(Next(s, step))
  {
    if step.ReceiveRequest? {
      assert forall b | b in s.votes && b.voter == step.j :: b.epoch <= s.nodes[step.j].lastVoteEpoch;
    } else {
      assert Next(s, step).votes == s.votes;
    }
  }

  ghost predicate Grows(a: Node, b: Node) { a.authEpoch <= b.authEpoch <= b.currentEpoch }

  lemma NodeGrows(s: State, step: Step)
    requires Shaped(s) && Enabled(s, step) && !step.Reset? && s.nodes[step.j].authEpoch <= s.nodes[step.j].currentEpoch
    ensures Grows(s.nodes[step.j], Next(s, step).nodes[step.j])
  {
  }

  lemma VotesStayRequested(s: State, step: Step)
    requires Shaped(s) && Enabled(s, step) && Requested(s) && !step.Reset?
    ensures Requested(Next(s, step))
  {
    var s' := Next(s, step);
    NodeGrows(s, step);
    assert forall i | 0 <= i < |s.nodes| && i != step.j :: s'.nodes[i] == s.nodes[i];
    assert forall i | 0 <= i < |s.nodes| :: Grows(s.nodes[i], s'.nodes[i]);
  }

  predicate ElectionStep(step: Step) { step.ReceiveRequest? || step.ReceiveAck? || step.Schedule? || step.Start? }

  // What the other steps leave alone.
  lemma OtherSteps(s: State, step: Step)
    requires Shaped(s) && Enabled(s, step) && !ElectionStep(step)
    ensures Next(s, step).acks == s.acks && Next(s, step).votes == s.votes && Next(s, step).counted == s.counted
    ensures forall i | 0 <= i < |s.nodes| ::
      && Next(s, step).nodes[i].authEpoch == s.nodes[i].authEpoch
      && Next(s, step).nodes[i].authCount == s.nodes[i].authCount
  {
  }

  lemma VoteKeepsAcks(s: State, j: Id, p: Packet, voter: bool, willing: bool)
    requires Shaped(s) && j < |s.nodes| && p.from < |s.nodes| && AcksGenuine(s) && VotesRemembered(s)
    requires forall i, v | 0 <= i < |s.nodes| && v in s.counted[i] :: Ballot(v, s.nodes[i].authEpoch, i) in s.votes
    ensures AcksGenuine(AnswerRequest(s, j, p, voter, willing))
  {
    assert forall b | b in s.votes && b.voter == j :: b.epoch <= s.nodes[j].lastVoteEpoch;
    assert forall a | a in s.acks :: BallotOf(a) in s.votes;
  }

  lemma CountKeepsAcks(s: State, j: Id, a: Ack, voter: bool)
    requires Shaped(s) && j < |s.nodes| && a in s.acks && a.to == j && AcksGenuine(s) && Requested(s)
    ensures AcksGenuine(TakeAck(s, j, a, voter))
  {
    var s' := TakeAck(s, j, a, voter);
    assert forall b | b in s'.acks :: b in s.acks && b != a;
    assert BallotOf(a) in s.votes;
    assert forall i | 0 <= i < |s.nodes| :: s'.nodes[i].authEpoch == s.nodes[i].authEpoch;
  }

  lemma StartKeepsAcks(s: State, step: Step)
    requires Shaped(s) && Enabled(s, step) && (step.Schedule? || step.Start?) && AcksGenuine(s) && Requested(s)
    ensures AcksGenuine(Next(s, step))
  {
    assert forall a | a in s.acks :: BallotOf(a) in s.votes;
  }

  lemma AcksStayGenuine(masters: set<Id>, s: State, step: Step)
    requires Inv(masters, s) && Enabled(s, step) && !step.Reset?
    ensures AcksGenuine(Next(s, step))
  {
    match step {
      case ReceiveRequest(j, p, voter, willing) => VoteKeepsAcks(s, j, p, voter, willing);
      case ReceiveAck(j, a, voter) => CountKeepsAcks(s, j, a, voter);
      case Schedule(_) => StartKeepsAcks(s, step);
      case Start(_, _) => StartKeepsAcks(s, step);
      case _ => OtherSteps(s, step);
    }
  }

  lemma CountKeepsTally(masters: set<Id>, s: State, j: Id, a: Ack, voter: bool)
    requires Shaped(s) && j < |s.nodes| && a in s.acks && a.to == j && (voter ==> a.voter in masters)
    requires AcksGenuine(s) && Requested(s) && TallyHonest(masters, s)
    ensures TallyHonest(masters, TakeAck(s, j, a, voter))
  {
    assert BallotOf(a) in s.votes;
    assert a.epoch <= s.nodes[j].authEpoch;
  }

  lemma StartKeepsTally(masters: set<Id>, s: State, j: Id, of: Id)
    requires Shaped(s) && Enabled(s, Start(j, of)) && Requested(s) && TallyHonest(masters, s)
    ensures TallyHonest(masters, Next(s, Start(j, of))) <==> s.nodes[j].authCount == 0
  {
    var s' := Next(s, Start(j, of));
    assert s.nodes[j].authCount == |s.counted[j]|;
    if s.nodes[j].authCount > 0 {
      var v :| v in s.counted[j];
      assert Ballot(v, s'.nodes[j].authEpoch, j) !in s'.votes;
    } else {
      assert s.counted[j] == {};
    }
  }

  lemma VoteKeepsTally(masters: set<Id>, s: State, j: Id, p: Packet, voter: bool, willing: bool)
    requires Shaped(s) && j < |s.nodes| && p.from < |s.nodes| && TallyHonest(masters, s)
    ensures TallyHonest(masters, AnswerRequest(s, j, p, voter, willing))
  {
  }

  lemma ScheduleKeepsTally(masters: set<Id>, s: State, j: Id)
    requires Shaped(s) && Enabled(s, Schedule(j)) && TallyHonest(masters, s)
    ensures TallyHonest(masters, Next(s, Schedule(j)))
  {
  }

  lemma TallyStaysHonest(masters: set<Id>, s: State, step: Step)
    requires Inv(masters, s) && Enabled(s, step) && Agreed(masters, step)
    ensures TallyHonest(masters, Next(s, step)) <==> !LateStart(s, step)
  {
    match step {
      case ReceiveRequest(j, p, voter, willing) => VoteKeepsTally(masters, s, j, p, voter, willing);
      case ReceiveAck(j, a, voter) => CountKeepsTally(masters, s, j, a, voter);
      case Schedule(j) => ScheduleKeepsTally(masters, s, j);
      case Start(j, of) => StartKeepsTally(masters, s, j, of);
      case _ => OtherKeepTally(masters, s, step);
    }
  }

  // Tallies of nodes whose elections are the same.
  ghost predicate SameElections(s: State, s': State) {
    && |s.nodes| == |s'.nodes| == |s.counted| && s'.counted == s.counted && s'.votes == s.votes
    && forall i | 0 <= i < |s.nodes| ::
         s'.nodes[i].authEpoch == s.nodes[i].authEpoch && s'.nodes[i].authCount == s.nodes[i].authCount
  }

  lemma SameTally(masters: set<Id>, s: State, s': State)
    requires SameElections(s, s') && TallyHonest(masters, s)
    ensures TallyHonest(masters, s')
  {
  }

  lemma OtherKeepTally(masters: set<Id>, s: State, step: Step)
    requires Shaped(s) && Enabled(s, step) && !ElectionStep(step) && TallyHonest(masters, s)
    ensures TallyHonest(masters, Next(s, step))
  {
    OtherSteps(s, step);
    SameTally(masters, s, Next(s, step));
  }

  lemma WinsStayBacked(masters: set<Id>, s: State, step: Step)
    requires Inv(masters, s) && Enabled(s, step) && Agreed(masters, step)
    ensures WinsBacked(masters, Next(s, step))
  {
    var s', j := Next(s, step), step.j;
    assert s.votes <= s'.votes;
    forall w | w in s'.wins
      ensures exists quorum :: Backing(masters, s'.votes, w, quorum)
    {
      if w in s.wins {
        var quorum :| Backing(masters, s.votes, w, quorum);
        assert Backing(masters, s'.votes, w, quorum);
      } else {
        assert w == Victory(s.nodes[j].authEpoch, j);
        assert Backing(masters, s'.votes, w, s.counted[j]);
      }
    }
  }

  /** Without hard resets a step keeps the invariant exactly when it is not a late start. */
  lemma StepKeepsInv(masters: set<Id>, s: State, step: Step)
    requires Inv(masters, s) && Enabled(s, step) && Agreed(masters, step)
    ensures Inv(masters, Next(s, step)) <==> !LateStart(s, step)
  {
    VotesStayRemembered(s, step);
    VotesStayUnique(s, step);
    VotesStayRequested(s, step);
    AcksStayGenuine(masters, s, step);
    TallyStaysHonest(masters, s, step);
    WinsStayBacked(masters, s, step);
  }

  // What a run must avoid in its first k steps.
  ghost predicate Orderly(masters: set<Id>, t: Trace, k: nat)
    requires IsRun(t) && k < |t.states|
  {
    forall i | 0 <= i < k :: Agreed(masters, t.steps[i]) && !LateStart(t.states[i], t.steps[i])
  }

  lemma {:induction false} RunKeepsInv(masters: set<Id>, t: Trace, k: nat)
    requires IsRun(t) && k < |t.states| && Inv(masters, t.states[0]) && Orderly(masters, t, k)
    ensures Inv(masters, t.states[k])
  {
    if k > 0 {
      RunKeepsInv(masters, t, k - 1);
      StepKeepsInv(masters, t.states[k - 1], t.steps[k - 1]);
    }
  }

  lemma FreshInv(masters: set<Id>, size: nat)
    ensures Inv(masters, Fresh(size))
  {
  }

  /** Two majorities of the same masters share a member. */
  lemma MajoritiesMeet(masters: set<Id>, a: set<Id>, b: set<Id>) returns (v: Id)
    requires a <= masters && b <= masters
    requires |a| >= |masters| / 2 + 1 && |b| >= |masters| / 2 + 1
    ensures v in a && v in b
  {
    SubsetSize(a + b, masters);
    assert |a + b| + |a * b| == |a| + |b|;
    v :| v in a * b;
  }

  /** Election safety: in every state of an orderly run from a new cluster, no epoch has two winners. */
  lemma OneWinnerPerEpoch(masters: set<Id>, size: nat, t: Trace, k: nat, v: Victory, w: Victory)
    requires IsRun(t) && k < |t.states| && t.states[0] == Fresh(size) && Orderly(masters, t, k)
    requires v in t.states[k].wins && w in t.states[k].wins && v.epoch == w.epoch
    ensures v == w
  {
    FreshInv(masters, size);
    RunKeepsInv(masters, t, k);
    var s := t.states[k];
    var a :| Backing(masters, s.votes, v, a);
    var b :| Backing(masters, s.votes, w, b);
    var voter := MajoritiesMeet(masters, a, b);
    assert Ballot(voter, v.epoch, v.winner) in s.votes && Ballot(voter, w.epoch, w.winner) in s.votes;
  }

  /** In every run in which no node is hard reset that has voted, a node votes at most once per epoch. */
  lemma {:induction false} OneVotePerEpoch(t: Trace, k: nat)
    requires IsRun(t) && k < |t.states| && t.states[0].votes == {} && VotesRemembered(t.states[0])
    requires forall i | 0 <= i < k :: !ResetsVoter(t.states[i], t.steps[i])
    ensures VotesRemembered(t.states[k]) && VotesUnique(t.states[k])
  {
    if k > 0 {
      OneVotePerEpoch(t, k - 1);
      VotesStayRemembered(t.states[k - 1], t.steps[k - 1]);
      VotesStayUnique(t.states[k - 1], t.steps[k - 1]);
    }
  }

  // A run in which masters 0, 1 and 2 are agreed to serve the slots.
  ghost predicate Fair(t: Trace) { IsRun(t) && AllAgreed({0, 1, 2}, t.steps) }

  function Idle(): Node { Node(0, 0, [0, 0, 0, 0, 0], 0, 0, false, None) }

  // Nodes 3 and 4 replicate masters 2 and 1.
  function Third(): Node { Idle().(follows := Some(2)) }

  function Fourth(): Node { Idle().(follows := Some(1)) }

  // Node 3 counts master 0's vote of epoch 1 after scheduling its second election and starts
  // that with the tally at one; then a single vote of epoch 2 makes a majority of three.
  lemma LateVoteElects() returns (t: Trace)
    ensures Fair(t) && t.states[0] == Fresh(5) && |End(t).nodes| == 5 && Victory(2, 3) in End(t).wins
    ensures End(t).nodes[0] == Idle().(currentEpoch := 1, lastVoteEpoch := 1)
    ensures End(t).nodes[2] == Idle() && End(t).nodes[4] == Fourth()
  {
    t := NewCluster();
    t := FirstElection(t);
    t := ScheduleMove({0, 1, 2}, t, 3);
    t := AckMove({0, 1, 2}, t, 3, Ack(0, 3, 1, 0));
    t := SecondElection(t);
  }

  lemma NewCluster() returns (t: Trace)
    ensures Fair(t) && t.states[0] == Fresh(5) && |End(t).nodes| == 5
    ensures forall i: Id | i < 3 :: End(t).nodes[i] == Idle()
    ensures End(t).nodes[3] == Third() && End(t).nodes[4] == Fourth()
  {
    t := Begin(Fresh(5));
    t := ReplicateMove({0, 1, 2}, t, 3, 2);
    t := ReplicateMove({0, 1, 2}, t, 4, 1);
  }

  lemma FirstElection(t: Trace) returns (r: Trace)
    requires Fair(t) && |End(t).nodes| == 5 && End(t).nodes[0] == Idle() && End(t).nodes[3] == Third()
    ensures Fair(r) && r.states[0] == t.states[0] && |End(r).nodes| == 5 && Ack(0, 3, 1, 0) in End(r).acks
    ensures End(r).nodes[0] == Idle().(currentEpoch := 1, lastVoteEpoch := 1)
    ensures End(r).nodes[3] == Third().(currentEpoch := 1, authEpoch := 1, authSent := true)
    ensures forall i | i in [1, 2, 4] :: End(r).nodes[i] == End(t).nodes[i]
  {
    r := StartMove({0, 1, 2}, t, 3, 2);
    r := VoteMove({0, 1, 2}, r, 0, Packet(3, 1, 0, AuthRequest), Idle().(currentEpoch := 1));
  }

  lemma SecondElection(t: Trace) returns (r: Trace)
    requires Fair(t) && |End(t).nodes| == 5
    requires End(t).nodes[3] == Third().(currentEpoch := 1, authEpoch := 1, authCount := 1)
    requires End(t).nodes[1] == Idle()
    ensures Fair(r) && r.states[0] == t.states[0] && |End(r).nodes| == 5 && Victory(2, 3) in End(r).wins
    ensures forall i | i in [0, 2, 4] :: End(r).nodes[i] == End(t).nodes[i]
  {
    r := StartMove({0, 1, 2}, t, 3, 2);
    r := VoteMove({0, 1, 2}, r, 1, Packet(3, 2, 0, AuthRequest), Idle().(currentEpoch := 2));
    r := AckMove({0, 1, 2}, r, 3, Ack(1, 3, 2, 0));
    r := WinMove({0, 1, 2}, r, 3, 3);
  }

  lemma RivalElection(t: Trace) returns (r: Trace)
    requires Fair(t) && |End(t).nodes| == 5
    requires End(t).nodes[0] == Idle().(currentEpoch := 1, lastVoteEpoch := 1)
    requires End(t).nodes[2] == Idle()
    requires End(t).nodes[4] == Fourth().(currentEpoch := 2, authEpoch := 2, authSent := true)
    requires Packet(4, 2, 0, AuthRequest) in End(t).net
    ensures Fair(r) && r.states[0] == t.states[0]
    ensures End(t).wins <= End(r).wins && Victory(2, 4) in End(r).wins
  {
    r := VoteMove({0, 1, 2}, t, 0, Packet(4, 2, 0, AuthRequest), Idle().(currentEpoch := 2, lastVoteEpoch := 1));
    r := VoteMove({0, 1, 2}, r, 2, Packet(4, 2, 0, AuthRequest), Idle().(currentEpoch := 2));
    r := AckMove({0, 1, 2}, r, 4, Ack(0, 4, 2, 0));
    r := AckMove({0, 1, 2}, r, 4, Ack(2, 4, 2, 0));
    r := WinMove({0, 1, 2}, r, 4, 3);
  }

  /** The exception is real: one late vote, and nodes 3 and 4 both win epoch 2. */
  lemma LateVoteElectsTwo() returns (t: Trace)
    ensures Fair(t) && t.states[0] == Fresh(5)
    ensures Victory(2, 3) in End(t).wins && Victory(2, 4) in End(t).wins
  {
    t := LateVoteElects();
    t := StartMove({0, 1, 2}, t, 4, 1);
    t := ScheduleMove({0, 1, 2}, t, 4);
    t := StartMove({0, 1, 2}, t, 4, 1);
    t := RivalElection(t);
  }
}
