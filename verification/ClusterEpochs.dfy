/**
 Epoch domination over whole runs of the cluster: no node and no packet ever mentions a
 configuration epoch above the current epoch that goes with it.
 */
module ClusterEpochs {
  import opened Options
  import opened ClusterNode
  import opened ClusterMachine
  import opened ClusterTraces

  ghost predicate NodeDominated(n: Node) {
    n.lastVoteEpoch <= n.currentEpoch && forall i | 0 <= i < |n.config| :: n.config[i] <= n.currentEpoch
  }

  ghost predicate NodesDominated(s: State) {
    forall i | 0 <= i < |s.nodes| :: NodeDominated(s.nodes[i])
  }

  ghost predicate PacketsDominated(s: State) {
    && (forall p | p in s.net ::
          p.configEpoch <= p.currentEpoch && (p.body.Update? ==> p.body.reported <= p.currentEpoch))
    && (forall a | a in s.acks :: a.configEpoch <= a.epoch)
  }

  ghost predicate Dominated(s: State) { NodesDominated(s) && PacketsDominated(s) }

  // The election is older than a hard reset of the node that wins it.
  predicate OutlivedReset(s: State, step: Step) {
    step.WinElection? && step.j < |s.nodes| && s.nodes[step.j].authEpoch > s.nodes[step.j].currentEpoch
  }

  lemma PacketsStayDominated(s: State, step: Step)
    requires Shaped(s) && Enabled(s, step) && Dominated(s)
    ensures PacketsDominated(Next(s, step))
  {
    assert NodeDominated(s.nodes[step.j]);
  }

  lemma ReceiveKeepsDominated(n: Node, j: Id, p: Packet, masters: bool)
    requires j < |n.config| && p.from < |n.config| && (p.body.Update? ==> p.body.about < |n.config|)
    requires NodeDominated(n)
    requires p.configEpoch <= p.currentEpoch && (p.body.Update? ==> p.body.reported <= p.currentEpoch)
    ensures NodeDominated(ReceivePacket(n, j, p, masters))
  {
  }

  lemma NodesStayDominated(s: State, step: Step)
    requires Shaped(s) && Enabled(s, step) && Dominated(s) && !step.WinElection?
    ensures NodesDominated(Next(s, step))
  {
    var s', j := Next(s, step), step.j;
    assert forall i | 0 <= i < |s.nodes| && i != j :: s'.nodes[i] == s.nodes[i];
    assert NodeDominated(s.nodes[j]);
    if step.Receive? {
      ReceiveKeepsDominated(s.nodes[j], j, step.p, step.masters);
    } else {
      assert NodeDominated(s'.nodes[j]);
    }
  }

  /** A step keeps domination exactly when it is not the win of an election older than a hard reset. */
  lemma StepKeepsDomination(s: State, step: Step)
    requires Shaped(s) && Enabled(s, step) && Dominated(s)
    ensures Dominated(Next(s, step)) <==> !OutlivedReset(s, step)
  {
    PacketsStayDominated(s, step);
    if step.WinElection? {
      var s', j := Next(s, step), step.j;
      assert NodeDominated(s.nodes[j]);
      if OutlivedReset(s, step) {
        assert s'.nodes[j].config[j] == s.nodes[j].authEpoch > s'.nodes[j].currentEpoch;
        assert !NodeDominated(s'.nodes[j]);
      } else {
        assert forall i | 0 <= i < |s.nodes| && i != j :: s'.nodes[i] == s.nodes[i];
        assert NodeDominated(s'.nodes[j]);
      }
    } else {
      NodesStayDominated(s, step);
    }
  }

  /** In every state reached before a win that outlives a hard reset, epochs are dominated. */
  lemma {:induction false} EpochsDominated(t: Trace, k: nat)
    requires IsRun(t) && Dominated(t.states[0]) && k < |t.states|
    requires forall i | 0 <= i < k :: !OutlivedReset(t.states[i], t.steps[i])
    ensures Dominated(t.states[k])
  {
    if k > 0 {
      EpochsDominated(t, k - 1);
      StepKeepsDomination(t.states[k - 1], t.steps[k - 1]);
    }
  }

  // Only a hard reset leaves an election ahead of the current epoch.
  ghost predicate ElectionsCurrent(s: State) {
    forall i | 0 <= i < |s.nodes| :: s.nodes[i].authEpoch <= s.nodes[i].currentEpoch
  }

  // A hard reset of a node that has started an election.
  predicate ResetsElection(s: State, step: Step) {
    step.Reset? && step.j < |s.nodes| && s.nodes[step.j].authEpoch > 0
  }

  lemma StepKeepsElectionsCurrent(s: State, step: Step)
    requires Shaped(s) && Enabled(s, step) && ElectionsCurrent(s)
    ensures ElectionsCurrent(Next(s, step)) <==> !ResetsElection(s, step)
  {
    var s', j := Next(s, step), step.j;
    assert forall i | 0 <= i < |s.nodes| && i != j :: s'.nodes[i] == s.nodes[i];
    assert s.nodes[j].authEpoch <= s.nodes[j].currentEpoch;
    if !step.Reset? {
      assert s'.nodes[j].authEpoch <= s'.nodes[j].currentEpoch;
    } else {
      assert s'.nodes[j].authEpoch == s.nodes[j].authEpoch && s'.nodes[j].currentEpoch == 0;
    }
  }

  /** Runs in which no node is hard reset that has started an election keep domination throughout. */
  lemma {:induction false} DominatedWithoutElectionReset(t: Trace, k: nat)
    requires IsRun(t) && Dominated(t.states[0]) && ElectionsCurrent(t.states[0]) && k < |t.states|
    requires forall i | 0 <= i < k :: !ResetsElection(t.states[i], t.steps[i])
    ensures Dominated(t.states[k]) && ElectionsCurrent(t.states[k])
  {
    if k > 0 {
      DominatedWithoutElectionReset(t, k - 1);
      StepKeepsElectionsCurrent(t.states[k - 1], t.steps[k - 1]);
      StepKeepsDomination(t.states[k - 1], t.steps[k - 1]);
    }
  }

  // Node 0 has asked for votes.
  lemma Asked() returns (t: Trace)
    ensures IsRun(t) && t.states[0] == Fresh(3) && |End(t).nodes| == 3
    ensures End(t).nodes[0] == Node(1, 0, [0, 0, 0], 1, 0, true, Some(1))
    ensures End(t).nodes[1] == Node(0, 0, [0, 0, 0], 0, 0, false, None)
    ensures Packet(0, 1, 0, AuthRequest) in End(t).net
  {
    t := Begin(Fresh(3));
    t := ReplicateMove({1}, t, 0, 1);
    t := StartMove({1}, t, 0, 1);
  }

  // It has its one vote, and has not yet taken over.
  lemma VotedFor() returns (t: Trace)
    ensures IsRun(t) && t.states[0] == Fresh(3) && |End(t).nodes| == 3
    ensures End(t).nodes[0] == Node(1, 0, [0, 0, 0], 1, 1, true, Some(1))
  {
    t := Asked();
    t := VoteMove({1}, t, 1, Packet(0, 1, 0, AuthRequest), Node(1, 0, [0, 0, 0], 0, 0, false, None));
    t := AckMove({1}, t, 0, Ack(1, 0, 1, 0));
  }

  /**
   The exception is real: node 0 has the vote of its master 1, is hard reset, becomes a replica of node 2, which
   has never heard of the election, and takes over from it with the votes and the epoch of before the reset.
   */
  lemma ResetLeavesElectionAhead() returns (t: Trace)
    ensures IsRun(t) && t.states[0] == Fresh(3) && Dominated(t.states[0])
    ensures !Dominated(End(t))
  {
    t := VotedFor();
    t := ResetMove({1}, t, 0);
    t := ReplicateMove({1}, t, 0, 2);
    t := WinMove({1}, t, 0, 1);
    assert !NodeDominated(End(t).nodes[0]) by {
      assert End(t).nodes[0].config[0] == 1;
    }
  }
}
