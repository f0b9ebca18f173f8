/**
 What lasts in a run of the cluster: a node that has taken over stays a master until it is told to replicate
 another, and what a node has learned about epochs it never forgets short of a hard reset.
 */
module ClusterRoles {
  import opened Options
  import opened ClusterNode
  import opened ClusterMachine
  import opened ClusterEpochs

  /******* Roles *******/

  // The node whose step it is; every other node stays as it is.
  lemma OnlyOneMoves(s: State, step: Step, i: Id)
    requires Shaped(s) && Enabled(s, step) && i < |s.nodes| && i != step.j
    ensures Next(s, step).nodes[i] == s.nodes[i]
  {
  }

  /** A node told to replicate another follows it; one that is promoted or hard reset follows none. */
  lemma RolesAsTold(s: State, step: Step)
    requires Shaped(s) && Enabled(s, step)
    ensures var n := Next(s, step).nodes[step.j];
      && (step.Replicate? ==> n.follows == Some(step.of))
      && (step.Promote? || step.Reset? ==> n.follows.None?)
      && (step.Replicate? || step.Promote? ==>
            n.currentEpoch == s.nodes[step.j].currentEpoch && n.config == s.nodes[step.j].config)
      && (!step.Replicate? && !step.Promote? && !step.Reset? && !step.WinElection? ==>
            n.follows == s.nodes[step.j].follows)
  {
  }

  /** What is sent: the sender's current epoch, the configuration epoch of its master or its own, and what it knows. */
  lemma SendsWhatItKnows(s: State, step: Step)
    requires Shaped(s) && Enabled(s, step) && (step.SendPing? || step.SendUpdate? || step.Start?)
    ensures var n, s' := s.nodes[step.j], Next(s, step);
      var of := if n.follows.Some? then n.follows.value else step.j;
      && of < |n.config|
      && (step.SendPing? ==> s'.net == s.net + {Packet(step.j, n.currentEpoch, n.config[of], Ping)})
      && (step.SendUpdate? ==> s'.net == s.net + {Packet(step.j, n.currentEpoch, n.config[of],
                                                         Update(step.about, n.config[step.about]))})
      && (step.Start? ==> s'.net == s.net + {Packet(step.j, n.currentEpoch + 1, n.config[of], AuthRequest)})
      && (step.Start? ==> s'.nodes[step.j].authEpoch == s'.nodes[step.j].currentEpoch == n.currentEpoch + 1)
      && (!step.Start? ==> s'.nodes == s.nodes)
  {
  }

  /** Whoever wins an election is a master at once, with the epoch of the election unless its own was greater. */
  lemma WinTakesOver(s: State, step: Step)
    requires Shaped(s) && Enabled(s, step) && step.WinElection?
    ensures var n, n' := s.nodes[step.j], Next(s, step).nodes[step.j];
      && n.follows.Some? && n'.follows.None? && n'.config[step.j] == Max(n.config[step.j], n.authEpoch)
      && (forall i | 0 <= i < |s.nodes| && i != step.j :: n'.config[i] == n.config[i])
      && n'.currentEpoch == n.currentEpoch && n'.lastVoteEpoch == n.lastVoteEpoch && n'.authEpoch == n.authEpoch
      && Victory(n.authEpoch, step.j) in Next(s, step).wins
  {
  }

  // Node j is not told to replicate another node from moment i until moment k.
  ghost predicate NeverReplicates(t: Trace, i: nat, k: nat, j: Id)
    requires k <= |t.steps|
  {
    forall m | i <= m < k :: !(t.steps[m].Replicate? && t.steps[m].j == j)
  }

  lemma MasterStepKeepsRole(s: State, step: Step, j: Id)
    requires Shaped(s) && Enabled(s, step) && j < |s.nodes| && s.nodes[j].follows.None?
    requires !(step.Replicate? && step.j == j)
    ensures Next(s, step).nodes[j].follows.None?
    ensures step.j == j ==> !step.Schedule? && !step.Start? && !step.WinElection?
  {
    if step.j != j {
      OnlyOneMoves(s, step, j);
    }
  }

  /** A master stays one, and holds no elections, until it is told to replicate another node. */
  lemma {:induction false} StaysMaster(t: Trace, i: nat, k: nat, j: Id)
    requires IsRun(t) && i <= k < |t.states| && NeverReplicates(t, i, k, j)
    requires j < |t.states[i].nodes| && t.states[i].nodes[j].follows.None?
    ensures |t.states[k].nodes| == |t.states[i].nodes| && t.states[k].nodes[j].follows.None?
    ensures forall m | i <= m < k && t.steps[m].j == j ::
      !t.steps[m].Schedule? && !t.steps[m].Start? && !t.steps[m].WinElection?
  {
    if i < k {
      StaysMaster(t, i, k - 1, j);
      MasterStepKeepsRole(t.states[k - 1], t.steps[k - 1], j);
    }
  }

  /** Between two elections that one node wins, it has been told to replicate another. */
  lemma WinsNeedAMaster(t: Trace, i: nat, k: nat) returns (m: nat)
    requires IsRun(t) && i < k < |t.steps| && t.steps[i].j == t.steps[k].j
    requires t.steps[i].WinElection? && t.steps[k].WinElection?
    ensures i < m < k && t.steps[m].Replicate? && t.steps[m].j == t.steps[i].j
  {
    var j := t.steps[i].j;
    WinTakesOver(t.states[i], t.steps[i]);
    if NeverReplicates(t, i + 1, k, j) {
      StaysMaster(t, i + 1, k, j);
    }
    m :| i + 1 <= m < k && t.steps[m].Replicate? && t.steps[m].j == j;
  }

  /******* Epochs *******/

  // Node b knows at least the epochs that node a knows.
  ghost predicate KnowsAll(a: Node, b: Node) {
    && |a.config| == |b.config| && a.currentEpoch <= b.currentEpoch
    && forall i | 0 <= i < |a.config| :: a.config[i] <= b.config[i]
  }

  lemma ReceiveForgetsNothing(n: Node, j: Id, p: Packet, masters: bool)
    requires j < |n.config| && p.from < |n.config| && (p.body.Update? ==> p.body.about < |n.config|)
    requires NodeDominated(n)
    ensures KnowsAll(n, ReceivePacket(n, j, p, masters))
  {
  }

  lemma StepForgetsNothing(s: State, step: Step, j: Id)
    requires Shaped(s) && Enabled(s, step) && NodesDominated(s) && j < |s.nodes| && !(step.Reset? && step.j == j)
    ensures KnowsAll(s.nodes[j], Next(s, step).nodes[j])
  {
    assert NodeDominated(s.nodes[j]);
    if step.j != j {
      OnlyOneMoves(s, step, j);
    } else if step.Receive? {
      ReceiveForgetsNothing(s.nodes[j], j, step.p, step.masters);
    }
  }

  // At moment m the epochs are dominated and node j is not about to be hard reset.
  ghost predicate Keeps(t: Trace, m: nat, j: Id)
    requires m < |t.steps| && |t.states| == |t.steps| + 1
  {
    NodesDominated(t.states[m]) && !(t.steps[m].Reset? && t.steps[m].j == j)
  }

  // From moment m to the next, node j forgets nothing.
  ghost predicate Learns(t: Trace, m: nat, j: Id)
    requires m + 1 < |t.states|
  {
    j < |t.states[m].nodes| && j < |t.states[m + 1].nodes| && KnowsAll(t.states[m].nodes[j], t.states[m + 1].nodes[j])
  }

  lemma {:induction false} LearnsThroughout(t: Trace, i: nat, k: nat, j: Id)
    requires i <= k < |t.states| && j < |t.states[i].nodes|
    requires forall m | i <= m < k :: Learns(t, m, j)
    ensures j < |t.states[k].nodes| && KnowsAll(t.states[i].nodes[j], t.states[k].nodes[j])
  {
    if i < k {
      LearnsThroughout(t, i, k - 1, j);
      assert Learns(t, k - 1, j);
    }
  }

  lemma {:induction false} SameSize(t: Trace, m: nat)
    requires IsRun(t) && m < |t.states|
    ensures |t.states[m].nodes| == |t.states[0].nodes|
  {
    if m > 0 {
      SameSize(t, m - 1);
    }
  }

  /** What a node knows of epochs it never forgets, unless it is hard reset. */
  lemma NothingForgotten(t: Trace, i: nat, k: nat, j: Id)
    requires IsRun(t) && i <= k < |t.states| && j < |t.states[0].nodes|
    requires forall m | i <= m < k :: Keeps(t, m, j)
    ensures |t.states[k].nodes| == |t.states[i].nodes| == |t.states[0].nodes|
    ensures KnowsAll(t.states[i].nodes[j], t.states[k].nodes[j])
  {
    forall m | i <= m < k
      ensures Learns(t, m, j)
    {
      SameSize(t, m);
      assert Keeps(t, m, j);
      StepForgetsNothing(t.states[m], t.steps[m], j);
    }
    SameSize(t, i);
    SameSize(t, k);
    LearnsThroughout(t, i, k, j);
  }

  // What a packet tells about epochs.
  ghost predicate Told(n: Node, p: Packet) {
    && p.currentEpoch <= n.currentEpoch && p.from < |n.config| && p.configEpoch <= n.config[p.from]
    && (p.body.Update? ==> p.body.about < |n.config| && p.body.reported <= n.config[p.body.about])
  }

  lemma ReceiveTells(s: State, step: Step)
    requires Shaped(s) && Enabled(s, step) && step.Receive? && NodesDominated(s)
    ensures Told(Next(s, step).nodes[step.j], step.p)
  {
    assert NodeDominated(s.nodes[step.j]);
  }

  /**
   In every run from dominated epochs without the hard reset of a candidate, whatever a packet said is known to
   its receiver ever after, unless that is hard reset.
   */
  lemma ToldForGood(t: Trace, i: nat, k: nat)
    requires IsRun(t) && Dominated(t.states[0]) && ElectionsCurrent(t.states[0])
    requires forall m | 0 <= m < |t.steps| :: !ResetsElection(t.states[m], t.steps[m])
    requires i < k < |t.states| && t.steps[i].Receive?
    requires forall m | i < m < k :: !(t.steps[m].Reset? && t.steps[m].j == t.steps[i].j)
    ensures t.steps[i].j < |t.states[k].nodes| && Told(t.states[k].nodes[t.steps[i].j], t.steps[i].p)
  {
    forall m | i < m < k
      ensures Keeps(t, m, t.steps[i].j)
    {
      DominatedWithoutElectionReset(t, m);
    }
    SameSize(t, i);
    DominatedWithoutElectionReset(t, i);
    ReceiveTells(t.states[i], t.steps[i]);
    NothingForgotten(t, i + 1, k, t.steps[i].j);
  }

  /******* A new epoch without an election *******/

  /** The node takes a new epoch exactly if its own is not yet the greatest it knows, and then that is the next one. */
  lemma BumpTakesNext(n: Node, self: Id)
    requires self < |n.config| && NodeDominated(n)
    ensures var r := BumpWithoutConsensus(n, self);
      && (r == n <==> 0 < n.config[self] == n.currentEpoch)
      && (r != n ==> r.config[self] == r.currentEpoch == n.currentEpoch + 1)
      && (forall i | 0 <= i < |n.config| && i != self :: r.config[i] == n.config[i] <= r.config[self])
      && r.follows == n.follows && r.lastVoteEpoch == n.lastVoteEpoch && r.authEpoch == n.authEpoch
  {
    assert MaxEpoch(n) == n.currentEpoch;
  }

  // Somebody else already has the greatest epoch that this node has.
  ghost predicate Tied(n: Node, self: Id)
    requires self < |n.config|
  {
    && 0 < n.config[self] == n.currentEpoch
    && exists i :: 0 <= i < |n.config| && i != self && n.config[i] == n.config[self]
  }

  /** The new epoch is nobody else's, as far as the node knows, exactly if it was not tied for the greatest one. */
  lemma BumpIsUniqueUnlessTied(n: Node, self: Id)
    requires self < |n.config| && NodeDominated(n)
    ensures (forall i | 0 <= i < |n.config| && i != self ::
               BumpWithoutConsensus(n, self).config[i] != BumpWithoutConsensus(n, self).config[self])
       <==> !Tied(n, self)
  {
    BumpTakesNext(n, self);
  }

  /** CLUSTER SET-CONFIG-EPOCH gives the epoch to a node that has none, and changes no other. */
  lemma AssignGivesEpoch(s: State, step: Step)
    requires Shaped(s) && Enabled(s, step) && step.Assign?
    ensures var n, n' := s.nodes[step.j], Next(s, step).nodes[step.j];
      if n.config[step.j] != 0 then Next(s, step) == s
      else n'.config[step.j] == step.epoch && n'.currentEpoch == Max(n.currentEpoch, step.epoch)
  {
  }
}
