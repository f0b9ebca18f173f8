/**
 The cluster as a state machine: nodes that exchange packets, vote, and take over from a failed
 master. Pings, updates and vote requests may be lost, reordered and delivered again; a vote
 travels on one connection and is delivered at most once.
 */
module ClusterMachine {
  import opened Options
  import opened ClusterNode

  datatype Body = Ping | Update(about: Id, reported: nat) | AuthRequest

  datatype Packet = Packet(from: Id, currentEpoch: nat, configEpoch: nat, body: Body)

  datatype Ack = Ack(voter: Id, to: Id, epoch: nat, configEpoch: nat)

  datatype Ballot = Ballot(voter: Id, epoch: nat, candidate: Id)

  datatype Victory = Victory(epoch: nat, winner: Id)

  // votes, counted and wins record the past; no step depends on them.
  datatype State = State(
    nodes: seq<Node>,
    net: set<Packet>,
    acks: set<Ack>,
    votes: set<Ballot>,
    counted: seq<set<Id>>,  // whose votes make up failover_auth_count
    wins: set<Victory>)

  datatype Step =
    | SendPing(j: Id, of: Id)                 // `of` is the sender or, for a replica, its master
    | SendUpdate(j: Id, of: Id, about: Id)
    | Receive(j: Id, p: Packet, masters: bool)
    | ReceiveRequest(j: Id, p: Packet, voter: bool, willing: bool)
    | ReceiveAck(j: Id, a: Ack, voter: bool)
    | Bump(j: Id)
    | Schedule(j: Id)
    | Start(j: Id, of: Id)
    | WinElection(j: Id, size: nat)
    | Reset(j: Id)
    | Replicate(j: Id, of: Id)                // CLUSTER REPLICATE, or following a new owner of one's slots
    | Promote(j: Id)                          // a soft reset, or a takeover
    | Assign(j: Id, epoch: nat)

  // A node of a cluster of this size.
  predicate Fitting(n: Node, size: nat) { |n.config| == size && (n.follows.Some? ==> n.follows.value < size) }

  predicate Shaped(s: State) {
    && |s.counted| == |s.nodes|
    && (forall i | 0 <= i < |s.nodes| :: Fitting(s.nodes[i], |s.nodes|))
    && (forall p | p in s.net :: p.from < |s.nodes| && (p.body.Update? ==> p.body.about < |s.nodes|))
    && (forall a | a in s.acks :: a.voter < |s.nodes| && a.to < |s.nodes|)
  }

  predicate Enabled(s: State, step: Step)
    requires Shaped(s)
  {
    && step.j < |s.nodes|
    && match step
       case SendPing(j, of) => of == Represents(s.nodes[j], j)
       case SendUpdate(j, of, about) => of == Represents(s.nodes[j], j) && about < |s.nodes|
       case Receive(j, p, masters) => p in s.net && !p.body.AuthRequest? && (masters ==> s.nodes[j].follows.None?)
       case ReceiveRequest(j, p, voter, _) => p in s.net && p.body.AuthRequest? && (voter ==> s.nodes[j].follows.None?)
       case ReceiveAck(j, a, _) => a in s.acks && a.to == j
       case Schedule(j) => s.nodes[j].follows.Some?
       case Start(j, of) => s.nodes[j].follows == Some(of) && !s.nodes[j].authSent
       case WinElection(j, size) => s.nodes[j].follows.Some? && HasQuorum(s.nodes[j], size)
       case Replicate(j, of) => of < |s.nodes| && of != j
       case _ => true
  }

  function With(s: State, j: Id, n: Node): (s': State)
    requires j < |s.nodes|
    ensures Shaped(s) && Fitting(n, |s.nodes|) ==> Shaped(s') && |s'.nodes| == |s.nodes|
  {
    s.(nodes := s.nodes[j := n])
  }

  function Send(s: State, j: Id, of: Id, body: Body): (s': State)
    requires j < |s.nodes| && of < |s.nodes[j].config|
    ensures Shaped(s) && (body.Update? ==> body.about < |s.nodes|) ==> Shaped(s') && |s'.nodes| == |s.nodes|
  {
    s.(net := s.net + {Packet(j, s.nodes[j].currentEpoch, s.nodes[j].config[of], body)})
  }

  function ReceivePacket(n: Node, j: Id, p: Packet, masters: bool): (r: Node)
    requires j < |n.config| && p.from < |n.config| && (p.body.Update? ==> p.body.about < |n.config|)
    ensures |r.config| == |n.config|
  {
    match p.body
    case Ping => ReceivePing(n, j, p.from, p.currentEpoch, p.configEpoch, masters)
    case Update(about, reported) => ReceiveUpdate(n, p.from, p.currentEpoch, p.configEpoch, about, reported)
    case AuthRequest => n
  }

  function AnswerRequest(s: State, j: Id, p: Packet, voter: bool, willing: bool): (s': State)
    requires Shaped(s) && j < |s.nodes| && p.from < |s.nodes|
    ensures Shaped(s')
  {
    var h := SeeHeader(s.nodes[j], p.from, p.currentEpoch, p.configEpoch);
    if Grants(h, p.currentEpoch, voter, willing) then
      With(s, j, Vote(h)).(
        acks := s.acks + {Ack(j, p.from, h.currentEpoch, h.config[j])},
        votes := s.votes + {Ballot(j, h.currentEpoch, p.from)})
    else With(s, j, h)
  }

  function TakeAck(s: State, j: Id, a: Ack, voter: bool): (s': State)
    requires Shaped(s) && j < |s.nodes| && a in s.acks
    ensures Shaped(s')
  {
    var h := SeeHeader(s.nodes[j], a.voter, a.epoch, a.configEpoch);
    With(s, j, CountAck(h, a.epoch, voter)).(
      acks := s.acks - {a},
      counted := if voter && a.epoch >= h.authEpoch then s.counted[j := s.counted[j] + {a.voter}] else s.counted)
  }

  function Next(s: State, step: Step): (s': State)
    requires Shaped(s) && Enabled(s, step)
    ensures Shaped(s') && |s'.nodes| == |s.nodes|
  {
    match step
    case SendPing(j, of) => Send(s, j, of, Ping)
    case SendUpdate(j, of, about) => Send(s, j, of, Update(about, s.nodes[j].config[about]))
    case Receive(j, p, masters) => With(s, j, ReceivePacket(s.nodes[j], j, p, masters))
    case ReceiveRequest(j, p, voter, willing) => AnswerRequest(s, j, p, voter, willing)
    case ReceiveAck(j, a, voter) => TakeAck(s, j, a, voter)
    case Bump(j) => With(s, j, BumpWithoutConsensus(s.nodes[j], j))
    case Schedule(j) => With(s, j, ScheduleElection(s.nodes[j])).(counted := s.counted[j := {}])
    case Start(j, of) => Send(With(s, j, StartElection(s.nodes[j])), j, of, AuthRequest)
    case WinElection(j, _) => With(s, j, Win(s.nodes[j], j)).(wins := s.wins + {Victory(s.nodes[j].authEpoch, j)})
    case Reset(j) => With(s, j, HardReset(s.nodes[j]))
    case Replicate(j, of) => With(s, j, s.nodes[j].(follows := Some(of)))
    case Promote(j) => With(s, j, s.nodes[j].(follows := None))
    case Assign(j, epoch) => With(s, j, SetConfigEpoch(s.nodes[j], j, epoch))
  }

  // A run, with all its states; each step leads from one state to the next.
  datatype Trace = Trace(states: seq<State>, steps: seq<Step>)

  ghost predicate IsRun(t: Trace) {
    && |t.states| == |t.steps| + 1
    && (forall k | 0 <= k < |t.states| :: Shaped(t.states[k]))
    && (forall k | 0 <= k < |t.steps| ::
          Enabled(t.states[k], t.steps[k]) && t.states[k + 1] == Next(t.states[k], t.steps[k]))
  }

  function Fresh(size: nat): (s: State)
    ensures Shaped(s)
  {
    State(seq(size, _ => Node(0, 0, seq(size, _ => 0), 0, 0, false, None)), {}, {}, {}, seq(size, _ => {}), {})
  }
}

/** Runs built one step at a time, for showing that something does happen. */
module ClusterTraces {
  import opened Options
  import opened ClusterNode
  import opened ClusterMachine

  function End(t: Trace): State
    requires |t.states| > 0
  {
    t.states[|t.states| - 1]
  }

  function Begin(s: State): (t: Trace)
    requires Shaped(s)
    ensures IsRun(t) && End(t) == s
  {
    Trace([s], [])
  }

  function Then(t: Trace, step: Step): (r: Trace)
    requires IsRun(t) && Enabled(End(t), step)
    ensures IsRun(r) && r.states[0] == t.states[0] && r.steps == t.steps + [step] && End(r) == Next(End(t), step)
  {
    Trace(t.states + [Next(End(t), step)], t.steps + [step])
  }

  // The nodes agree which masters serve slots, so who votes, whose vote counts and how many are
  // needed; and nobody is reset.
  predicate Agreed(masters: set<Id>, step: Step) {
    match step
    case ReceiveRequest(j, _, voter, _) => voter ==> j in masters
    case ReceiveAck(_, a, voter) => voter ==> a.voter in masters
    case WinElection(_, size) => size == |masters|
    case Reset(_) => false
    case _ => true
  }

  ghost predicate AllAgreed(masters: set<Id>, steps: seq<Step>) {
    forall k | 0 <= k < |steps| :: Agreed(masters, steps[k])
  }

  // `r` extends `t` by a step of one node, which becomes n.
  ghost predicate Moves(masters: set<Id>, t: Trace, r: Trace, step: Step, n: Node) {
    && IsRun(t) && IsRun(r) && r.states[0] == t.states[0]
    && (AllAgreed(masters, t.steps) && Agreed(masters, step) ==> AllAgreed(masters, r.steps))
    && step.j < |End(t).nodes| && End(r).nodes == End(t).nodes[step.j := n]
    && End(t).net <= End(r).net && End(t).wins <= End(r).wins
  }

  lemma StartMove(masters: set<Id>, t: Trace, j: Id, of: Id) returns (r: Trace)
    requires IsRun(t) && j < |End(t).nodes| && End(t).nodes[j].follows == Some(of) && !End(t).nodes[j].authSent
    ensures Moves(masters, t, r, Start(j, of), StartElection(End(t).nodes[j])) && End(r).acks == End(t).acks
    ensures of < |End(t).nodes[j].config|
    ensures Packet(j, End(t).nodes[j].currentEpoch + 1, End(t).nodes[j].config[of], AuthRequest) in End(r).net
  {
    r := Then(t, Start(j, of));
  }

  lemma ReplicateMove(masters: set<Id>, t: Trace, j: Id, of: Id) returns (r: Trace)
    requires IsRun(t) && j < |End(t).nodes| && of < |End(t).nodes| && of != j
    ensures Moves(masters, t, r, Replicate(j, of), End(t).nodes[j].(follows := Some(of))) && End(r).acks == End(t).acks
  {
    r := Then(t, Replicate(j, of));
  }

  lemma VoteMove(masters: set<Id>, t: Trace, j: Id, p: Packet, h: Node) returns (r: Trace)
    requires IsRun(t) && j < |End(t).nodes| && p in End(t).net && p.body.AuthRequest?
    requires h == SeeHeader(End(t).nodes[j], p.from, p.currentEpoch, p.configEpoch)
    requires p.currentEpoch == h.currentEpoch != h.lastVoteEpoch && h.follows.None?
    ensures Moves(masters, t, r, ReceiveRequest(j, p, true, true), Vote(h))
    ensures End(r).acks == End(t).acks + {Ack(j, p.from, h.currentEpoch, h.config[j])}
  {
    r := Then(t, ReceiveRequest(j, p, true, true));
  }

  lemma AckMove(masters: set<Id>, t: Trace, j: Id, a: Ack) returns (r: Trace)
    requires IsRun(t) && j < |End(t).nodes| && a in End(t).acks && a.to == j
    ensures Moves(masters, t, r, ReceiveAck(j, a, true),
                  CountAck(SeeHeader(End(t).nodes[j], a.voter, a.epoch, a.configEpoch), a.epoch, true))
    ensures End(r).acks == End(t).acks - {a}
  {
    r := Then(t, ReceiveAck(j, a, true));
  }

  lemma ScheduleMove(masters: set<Id>, t: Trace, j: Id) returns (r: Trace)
    requires IsRun(t) && j < |End(t).nodes| && End(t).nodes[j].follows.Some?
    ensures Moves(masters, t, r, Schedule(j), ScheduleElection(End(t).nodes[j])) && End(r).acks == End(t).acks
  {
    r := Then(t, Schedule(j));
  }

  lemma WinMove(masters: set<Id>, t: Trace, j: Id, size: nat) returns (r: Trace)
    requires IsRun(t) && j < |End(t).nodes| && End(t).nodes[j].follows.Some? && HasQuorum(End(t).nodes[j], size)
    ensures Moves(masters, t, r, WinElection(j, size), Win(End(t).nodes[j], j))
    ensures Victory(End(t).nodes[j].authEpoch, j) in End(r).wins
  {
    r := Then(t, WinElection(j, size));
  }

  lemma ResetMove(masters: set<Id>, t: Trace, j: Id) returns (r: Trace)
    requires IsRun(t) && j < |End(t).nodes|
    ensures Moves(masters, t, r, Reset(j), HardReset(End(t).nodes[j]))
  {
    r := Then(t, Reset(j));
  }
}
