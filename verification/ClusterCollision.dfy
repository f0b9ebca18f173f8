/**
 Masters that share a configEpoch resolve the collision among themselves: however pings are
 delayed, reordered and repeated, each master changes its epoch at most once for every master
 with a greater name.
 */
module ClusterCollision {
  import opened ClusterNode
  import opened ClusterMachine
  import opened EpochHistories

  // Masters only: every header carries the sender's own epoch, and no epoch is assigned by an
  // operator or an election.
  predicate Gossip(step: Step) {
    match step
    case SendPing(j, of) => of == j
    case SendUpdate(j, of, _) => of == j
    case Start(_, _) => false
    case Bump(_) => false
    case WinElection(_, _) => false
    case Reset(_) => false
    case Replicate(_, _) => false
    case Assign(_, _) => false
    case _ => true
  }

  ghost predicate Gossips(t: Trace) {
    IsRun(t) && forall k | 0 <= k < |t.steps| :: Gossip(t.steps[k])
  }

  function Own(s: State, j: Id): nat
    requires Shaped(s) && j < |s.nodes|
  {
    s.nodes[j].config[j]
  }

  // Nothing a node knows and nothing on its way is ahead of the node it is about.
  ghost predicate Knows(s: State, n: Node)
    requires Shaped(s)
  {
    |n.config| == |s.nodes| && forall i: Id | i < |s.nodes| :: n.config[i] <= Own(s, i)
  }

  ghost predicate SentBehind(s: State)
    requires Shaped(s)
  {
    && (forall p | p in s.net ::
          p.configEpoch <= Own(s, p.from) && (p.body.Update? ==> p.body.reported <= Own(s, p.body.about)))
    && (forall a | a in s.acks :: a.configEpoch <= Own(s, a.voter))
  }

  ghost predicate Behind(s: State) {
    && Shaped(s) && SentBehind(s)
    && (forall j: Id | j < |s.nodes| :: Knows(s, s.nodes[j]) && Own(s, j) <= s.nodes[j].currentEpoch)
  }

  // The step makes node j give up its epoch to the sender of the ping.
  predicate Collides(s: State, step: Step, j: Id)
    requires Shaped(s)
  {
    step.Receive? && step.j == j < |s.nodes| && step.p in s.net && step.p.from > j && step.p.configEpoch == Own(s, j)
  }

  // What a step of node j makes of it.
  ghost predicate Steps(s: State, step: Step, n: Node)
    requires Shaped(s)
  {
    && step.j < |s.nodes| == |n.config|
    && (forall i: Id | i < |s.nodes| && i != step.j :: n.config[i] <= Own(s, i))
    && Own(s, step.j) <= n.config[step.j] <= n.currentEpoch
    && (Own(s, step.j) != n.config[step.j] ==> Collides(s, step, step.j))
  }

  lemma ReceiveSteps(s: State, step: Step)
    requires Behind(s) && Enabled(s, step) && step.Receive?
    ensures Steps(s, step, ReceivePacket(s.nodes[step.j], step.j, step.p, step.masters))
  {
    assert Knows(s, s.nodes[step.j]);
  }

  lemma NodeSteps(s: State, step: Step)
    requires Behind(s) && Enabled(s, step) && Gossip(step)
    ensures Steps(s, step, Next(s, step).nodes[step.j])
  {
    assert Knows(s, s.nodes[step.j]);
    if step.Receive? {
      ReceiveSteps(s, step);
    }
  }

  lemma OthersStay(s: State, step: Step)
    requires Shaped(s) && Enabled(s, step)
    ensures forall i: Id | i < |s.nodes| && i != step.j :: Next(s, step).nodes[i] == s.nodes[i]
  {
  }

  lemma SentStaysBehind(s: State, step: Step)
    requires Behind(s) && Enabled(s, step) && Gossip(step) && Steps(s, step, Next(s, step).nodes[step.j])
    requires forall i: Id | i < |s.nodes| :: Own(s, i) <= Own(Next(s, step), i)
    ensures SentBehind(Next(s, step))
  {
    assert Knows(s, s.nodes[step.j]);
  }

  lemma StaysBehind(s: State, step: Step)
    requires Behind(s) && Enabled(s, step) && Gossip(step)
    ensures Behind(Next(s, step))
    ensures forall j: Id | j < |s.nodes| ::
      Own(s, j) <= Own(Next(s, step), j) && (Own(s, j) != Own(Next(s, step), j) ==> Collides(s, step, j))
  {
    NodeSteps(s, step);
    OthersStay(s, step);
    SentStaysBehind(s, step);
  }

  lemma {:induction false} AlwaysBehind(t: Trace, k: nat)
    requires Gossips(t) && k < |t.states| && Behind(t.states[0])
    ensures Behind(t.states[k]) && |t.states[k].nodes| == |t.states[0].nodes|
  {
    if k > 0 {
      AlwaysBehind(t, k - 1);
      StaysBehind(t.states[k - 1], t.steps[k - 1]);
    }
  }

  /******* From runs to histories *******/

  ghost function History(t: Trace): (h: seq<seq<nat>>)
    requires IsRun(t)
    ensures |h| == |t.states|
  {
    seq(|t.states|, k requires 0 <= k < |t.states| => OwnEpochs(t.states[k]))
  }

  function OwnEpochs(s: State): (r: seq<nat>)
    requires Shaped(s)
    ensures |r| == |s.nodes| && forall j: Id | j < |s.nodes| :: r[j] == Own(s, j)
  {
    seq(|s.nodes|, j requires 0 <= j < |s.nodes| => s.nodes[j].config[j])
  }

  // The epoch in a packet is one its sender has had.
  lemma {:induction false} PacketHasSource(t: Trace, k: nat, p: Packet) returns (m: nat)
    requires Gossips(t) && k < |t.states| && Behind(t.states[0]) && t.states[0].net == {} && p in t.states[k].net
    ensures m <= k && p.from < |t.states[m].nodes| && Own(t.states[m], p.from) == p.configEpoch
  {
    if p in t.states[k - 1].net {
      m := PacketHasSource(t, k - 1, p);
    } else {
      m := k - 1;
    }
  }

  lemma HistoryYields(t: Trace)
    requires Gossips(t) && Behind(t.states[0]) && t.states[0].net == {}
    ensures Settling(History(t), |t.states[0].nodes|)
  {
    var h, n := History(t), |t.states[0].nodes|;
    forall k | 0 <= k < |h|
      ensures |h[k]| == n
    {
      AlwaysBehind(t, k);
    }
    forall k: nat, j: nat | 0 < k < |h| && j < n
      ensures Moment(h, n, k, j)
    {
      AlwaysBehind(t, k - 1);
      StaysBehind(t.states[k - 1], t.steps[k - 1]);
      if h[k - 1][j] != h[k][j] {
        var p := t.steps[k - 1].p;
        var m := PacketHasSource(t, k - 1, p);
        AlwaysBehind(t, m);
        assert h[m][p.from] == h[k - 1][j];
      }
    }
  }

  /** A master changes its epoch at most once for every master with a greater name. */
  lemma CollisionsEnd(t: Trace, j: Id)
    requires Gossips(t) && Behind(t.states[0]) && t.states[0].net == {} && j < |t.states[0].nodes|
    ensures Settling(History(t), |t.states[0].nodes|)
    ensures Changes(History(t), |t.states[0].nodes|, |t.steps|, j) <= |t.states[0].nodes| - 1 - j
  {
    HistoryYields(t);
    ChangesBounded(History(t), |t.states[0].nodes|, |t.steps|, j);
  }

  // Node i is a master.
  predicate IsMaster(s: State, i: Id) { i < |s.nodes| && s.nodes[i].follows.None? }

  /** A ping a master sends now changes no epoch, whichever master receives it, exactly when all epochs differ. */
  lemma SettledExactlyWhenDistinct(s: State)
    requires Behind(s)
    ensures (forall i: Id, j: Id | i < j && IsMaster(s, i) && IsMaster(s, j) :: Own(s, i) != Own(s, j))
       <==> (forall i: Id, j: Id | IsMaster(s, i) && IsMaster(s, j) && i != j ::
               OwnEpochs(PingNow(s, i, j)) == OwnEpochs(s))
  {
    forall i: Id, j: Id | IsMaster(s, i) && IsMaster(s, j) && i != j
      ensures Own(PingNow(s, i, j), j) != Own(s, j) <==> j < i && Own(s, i) == Own(s, j)
    {
      assert Knows(s, s.nodes[j]);
    }
  }

  function PingNow(s: State, from: Id, to: Id): (s': State)
    requires Shaped(s) && IsMaster(s, from) && IsMaster(s, to)
    ensures Shaped(s') && |s'.nodes| == |s.nodes|
  {
    var sent := Next(s, SendPing(from, from));
    Next(sent, Receive(to, Packet(from, s.nodes[from].currentEpoch, s.nodes[from].config[from], Ping), true))
  }
}

/** What follows from the order in which epochs are taken and given up. */
module EpochHistories {
  import opened Sets

  // Before moment k somebody above j had the epoch j then gave up.
  ghost predicate HeldAbove(h: seq<seq<nat>>, n: nat, k: nat, j: nat)
    requires 0 < k < |h| && (forall m | 0 <= m < |h| :: |h[m]| == n) && j < n
  {
    exists m: nat, i: nat :: m < k && j < i < n && h[m][i] == h[k - 1][j]
  }

  ghost predicate Moment(h: seq<seq<nat>>, n: nat, k: nat, j: nat)
    requires 0 < k < |h| && (forall m | 0 <= m < |h| :: |h[m]| == n) && j < n
  {
    h[k - 1][j] <= h[k][j] && (h[k - 1][j] != h[k][j] ==> HeldAbove(h, n, k, j))
  }

  // h[k][j] is the epoch of node j at moment k: epochs only grow, and only by collisions.
  ghost predicate Settling(h: seq<seq<nat>>, n: nat) {
    && (forall m | 0 <= m < |h| :: |h[m]| == n)
    && forall k: nat, j: nat | 0 < k < |h| && j < n :: Moment(h, n, k, j)
  }

  // How often node j has changed its epoch up to moment k.
  ghost function Changes(h: seq<seq<nat>>, n: nat, k: nat, j: nat): nat
    requires Settling(h, n) && k < |h| && j < n
  {
    if k == 0 then 0 else Changes(h, n, k - 1, j) + if h[k][j] != h[k - 1][j] then 1 else 0
  }

  // The epochs it has had.
  ghost function Values(h: seq<seq<nat>>, n: nat, k: nat, j: nat): (s: set<nat>)
    requires Settling(h, n) && k < |h| && j < n
    ensures h[k][j] in s && forall v | v in s :: v <= h[k][j]
  {
    if k == 0 then {h[0][j]} else assert Moment(h, n, k, j); Values(h, n, k - 1, j) + {h[k][j]}
  }

  // The epochs it and the nodes above it have had.
  ghost function ValuesFrom(h: seq<seq<nat>>, n: nat, k: nat, j: nat): set<nat>
    requires Settling(h, n) && k < |h| && j <= n
    decreases n - j
  {
    if j == n then {} else Values(h, n, k, j) + ValuesFrom(h, n, k, j + 1)
  }

  lemma {:induction false} ValuesCounted(h: seq<seq<nat>>, n: nat, k: nat, j: nat)
    requires Settling(h, n) && k < |h| && j < n
    ensures |Values(h, n, k, j)| == Changes(h, n, k, j) + 1
  {
    if k > 0 {
      ValuesCounted(h, n, k - 1, j);
      assert Moment(h, n, k, j);
      assert h[k][j] == h[k - 1][j] ==> Values(h, n, k, j) == Values(h, n, k - 1, j);
    }
  }

  lemma {:induction false} ValuesGrow(h: seq<seq<nat>>, n: nat, m: nat, k: nat, j: nat)
    requires Settling(h, n) && m <= k < |h| && j < n
    ensures h[m][j] in Values(h, n, k, j)
  {
    if m < k {
      ValuesGrow(h, n, m, k - 1, j);
    }
  }

  lemma {:induction false} ValuesFromIncludes(h: seq<seq<nat>>, n: nat, k: nat, j: nat, i: nat)
    requires Settling(h, n) && k < |h| && j <= i < n
    ensures Values(h, n, k, i) <= ValuesFrom(h, n, k, j)
    decreases i - j
  {
    if j < i {
      ValuesFromIncludes(h, n, k, j + 1, i);
    }
  }

  // Every epoch that was given up has been above.
  lemma {:induction false} GivenUpAbove(h: seq<seq<nat>>, n: nat, k: nat, e: nat, j: nat)
    requires Settling(h, n) && k <= e < |h| && j < n
    ensures Values(h, n, k, j) <= ValuesFrom(h, n, e, j + 1) + {h[k][j]}
  {
    if k > 0 {
      GivenUpAbove(h, n, k - 1, e, j);
      if h[k][j] != h[k - 1][j] {
        assert Moment(h, n, k, j);
        var m: nat, i: nat :| m < k && j < i < n && h[m][i] == h[k - 1][j];
        ValuesGrow(h, n, m, e, i);
        ValuesFromIncludes(h, n, e, j + 1, i);
      }
    }
  }

  lemma {:induction false} FewValues(h: seq<seq<nat>>, n: nat, k: nat, j: nat)
    requires Settling(h, n) && k < |h| && j <= n
    ensures |ValuesFrom(h, n, k, j)| <= n - j
    decreases n - j
  {
    if j < n {
      FewValues(h, n, k, j + 1);
      GivenUpAbove(h, n, k, k, j);
      var above := ValuesFrom(h, n, k, j + 1);
      assert ValuesFrom(h, n, k, j) == above + {h[k][j]};
    }
  }

  /** Epochs given up only to a node above are given up at most once for every node above. */
  lemma ChangesBounded(h: seq<seq<nat>>, n: nat, k: nat, j: nat)
    requires Settling(h, n) && k < |h| && j < n
    ensures Changes(h, n, k, j) <= n - 1 - j
  {
    ValuesCounted(h, n, k, j);
    FewValues(h, n, k, j);
    ValuesFromIncludes(h, n, k, j, j);
    SubsetSize(Values(h, n, k, j), ValuesFrom(h, n, k, j));
  }
}
