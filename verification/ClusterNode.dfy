/**
 The epochs one cluster node keeps, and what each packet and each local event does to them.
 Nodes are numbered in the order of their names, so comparing numbers is comparing names.
 */
module ClusterNode {
  import opened Options

  type Id = nat

  // config[i] is the configEpoch this node has recorded for node i; its own entry included.
  datatype Node = Node(
    currentEpoch: nat,
    lastVoteEpoch: nat,
    config: seq<nat>,
    authEpoch: nat,    // failover_auth_epoch
    authCount: nat,    // failover_auth_count
    authSent: bool,    // failover_auth_sent
    follows: Option<Id>)  // the master this node replicates; none for a master

  function Max(a: nat, b: nat): nat { if a < b then b else a }

  // Whose configuration epoch a node's packets carry: its master's, or its own.
  function Represents(n: Node, self: Id): Id { if n.follows.Some? then n.follows.value else self }

  // The header part of clusterProcessPacket.
  function SeeHeader(n: Node, from: Id, current: nat, config: nat): (r: Node)
    requires from < |n.config|
    ensures |r.config| == |n.config|
  {
    n.(currentEpoch := Max(n.currentEpoch, current), config := n.config[from := Max(n.config[from], config)])
  }

  // clusterHandleConfigEpochCollision, when both nodes are masters.
  function HandleCollision(n: Node, self: Id, from: Id): (r: Node)
    requires self < |n.config| && from < |n.config|
    ensures |r.config| == |n.config|
  {
    if n.config[from] != n.config[self] || from <= self then n
    else n.(currentEpoch := n.currentEpoch + 1, config := n.config[self := n.currentEpoch + 1])
  }

  // The ping, pong and meet part of clusterProcessPacket; `masters` says whether both ends are masters.
  function ReceivePing(n: Node, self: Id, from: Id, current: nat, config: nat, masters: bool): (r: Node)
    requires self < |n.config| && from < |n.config|
    ensures |r.config| == |n.config|
  {
    var h := SeeHeader(n, from, current, config);
    if masters && config == h.config[self] then HandleCollision(h, self, from) else h
  }

  // The UPDATE part: what is recorded about a third node is never lowered.
  function ReceiveUpdate(n: Node, from: Id, current: nat, config: nat, about: Id, reported: nat): (r: Node)
    requires from < |n.config| && about < |n.config|
    ensures |r.config| == |n.config|
  {
    var h := SeeHeader(n, from, current, config);
    if h.config[about] >= reported then h else h.(config := h.config[about := reported])
  }

  // clusterGetMaxEpoch.
  function MaxEpoch(n: Node): nat { Max(MaxOf(n.config), n.currentEpoch) }

  function MaxOf(s: seq<nat>): (m: nat)
    ensures forall i | 0 <= i < |s| :: s[i] <= m
    ensures m > 0 ==> m in s
  {
    if s == [] then 0 else Max(MaxOf(s[..|s| - 1]), s[|s| - 1])
  }

  function BumpWithoutConsensus(n: Node, self: Id): (r: Node)
    requires self < |n.config|
    ensures |r.config| == |n.config|
  {
    if n.config[self] == 0 || n.config[self] != MaxEpoch(n)
    then n.(currentEpoch := n.currentEpoch + 1, config := n.config[self := n.currentEpoch + 1])
    else n
  }

  // What a voter looks at in a request besides the epoch.
  datatype Request = Request(
    master: Option<Id>,     // the requester's master, if it is a replica and that is known
    failed: bool,           // that master is flagged as failing
    forceAck: bool,         // or this is a manual failover
    configEpoch: nat,
    claimed: seq<bool>)

  // No claimed slot is served by a node with a newer configuration.
  ghost predicate ClaimsCurrent(config: seq<nat>, slots: seq<Option<Id>>, req: Request)
    requires |req.claimed| == |slots| && forall j | 0 <= j < |slots| && slots[j].Some? :: slots[j].value < |config|
  {
    forall j | 0 <= j < |slots| && req.claimed[j] && slots[j].Some? :: config[slots[j].value] <= req.configEpoch
  }

  ghost predicate Willing(config: seq<nat>, slots: seq<Option<Id>>, req: Request)
    requires |req.claimed| == |slots| && forall j | 0 <= j < |slots| && slots[j].Some? :: slots[j].value < |config|
  {
    req.master.Some? && (req.failed || req.forceAck) && ClaimsCurrent(config, slots, req)
  }

  // A vote about that master was given less than two node timeouts ago.
  predicate Recent(votedTime: map<Id, int>, req: Request, now: int, nodeTimeout: nat) {
    req.master.Some? && now - VotedTime(votedTime, req.master.value) < 2 * nodeTimeout
  }

  function VotedTime(votedTime: map<Id, int>, master: Id): int { if master in votedTime then votedTime[master] else 0 }

  /**
   clusterSendFailoverAuthIfNeeded after the header was seen. `voter` says whether this node is
   a master with slots; `willing` stands for the checks on the request.
   */
  predicate Grants(n: Node, request: nat, voter: bool, willing: bool) {
    voter && request >= n.currentEpoch && n.lastVoteEpoch != n.currentEpoch && willing
  }

  function Vote(n: Node): Node { n.(lastVoteEpoch := n.currentEpoch) }

  // The FAILOVER_AUTH_ACK part after the header was seen.
  function CountAck(n: Node, epoch: nat, voter: bool): Node {
    if voter && epoch >= n.authEpoch then n.(authCount := n.authCount + 1) else n
  }

  // clusterHandleSlaveFailover: a new attempt is scheduled.
  function ScheduleElection(n: Node): Node { n.(authCount := 0, authSent := false) }

  // clusterHandleSlaveFailover: votes are asked for.
  function StartElection(n: Node): Node {
    if n.authSent then n
    else n.(currentEpoch := n.currentEpoch + 1, authEpoch := n.currentEpoch + 1, authSent := true)
  }

  // clusterHandleSlaveFailover: the quorum is checked.
  predicate HasQuorum(n: Node, size: nat) { n.authSent && n.authCount >= size / 2 + 1 }

  function Win(n: Node, self: Id): (r: Node)
    requires self < |n.config|
    ensures |r.config| == |n.config|
  {
    n.(config := n.config[self := Max(n.config[self], n.authEpoch)], follows := None)
  }

  // CLUSTER RESET HARD: the node becomes a master and forgets everybody else; the election fields stay.
  function HardReset(n: Node): (r: Node)
    ensures |r.config| == |n.config|
  {
    n.(currentEpoch := 0, lastVoteEpoch := 0, config := seq(|n.config|, _ => 0), follows := None)
  }

  // CLUSTER SET-CONFIG-EPOCH, allowed while the epoch is still zero.
  function SetConfigEpoch(n: Node, self: Id, epoch: nat): (r: Node)
    requires self < |n.config|
    ensures |r.config| == |n.config|
  {
    if n.config[self] != 0 then n
    else n.(config := n.config[self := epoch], currentEpoch := Max(n.currentEpoch, epoch))
  }

  /******* The time for a failover *******/

  // What a replica finds when it looks whether to fail over.
  datatype Outlook = Outlook(
    now: int,              // in milliseconds
    nodeTimeout: nat,
    manual: bool,          // a manual failover is under way
    canStart: bool,        // and the master's offset has been reached
    masterFailed: bool,
    masterHasSlots: bool,
    noFailover: bool,      // cluster-replica-no-failover
    stale: bool,           // the data is older than the validity factor allows
    rank: nat,             // how many replicas of the master have better data
    random: nat)

  predicate MayFailOver(m: Outlook) {
    m.masterHasSlots && ((m.manual && m.canStart) || (m.masterFailed && !m.noFailover && !m.stale))
  }

  function AuthTimeout(m: Outlook): nat { Max(2 * m.nodeTimeout, 2000) }

  /******* The fields as the server updates them *******/

  class ClusterState {
    const self: Id
    var currentEpoch: nat
    var lastVoteEpoch: nat
    const config: array<nat>
    var authEpoch: nat
    var authCount: nat
    var authSent: bool
    var follows: Option<Id>
    var votedTime: map<Id, int>   // voted_time of each master
    var authTime: int             // failover_auth_time, in milliseconds
    var authRank: nat             // failover_auth_rank

    ghost predicate Valid() reads this { self < config.Length }

    ghost function Snapshot(): Node
      reads this, config
    {
      Node(currentEpoch, lastVoteEpoch, config[..], authEpoch, authCount, authSent, follows)
    }

    // All recorded epochs are as they were, but for one.
    ghost predicate SetOnly(was: seq<nat>, i: Id, epoch: nat)
      reads config
    {
      |was| == config.Length && i < config.Length && config[i] == epoch
      && forall k | 0 <= k < config.Length && k != i :: config[k] == was[k]
    }

    constructor (self: Id, size: nat)
      requires self < size
      ensures Valid() && this.self == self && Snapshot() == Node(0, 0, seq(size, _ => 0), 0, 0, false, None)
      ensures votedTime == map[] && authTime == 0 && authRank == 0
    {
      this.self := self;
      currentEpoch, lastVoteEpoch, authEpoch, authCount, authSent, follows := 0, 0, 0, 0, false, None;
      votedTime, authTime, authRank := map[], 0, 0;
      config := new nat[size](_ => 0);
      new;
      assert config[..] == seq(size, _ => 0);
    }

    method ProcessHeader(from: Id, senderCurrentEpoch: nat, senderConfigEpoch: nat)
      requires Valid() && from < config.Length
      modifies this`currentEpoch, config
      ensures Valid() && Snapshot() == SeeHeader(old(Snapshot()), from, senderCurrentEpoch, senderConfigEpoch)
      ensures currentEpoch == Max(old(currentEpoch), senderCurrentEpoch)
      ensures SetOnly(old(config[..]), from, Max(old(config[from]), senderConfigEpoch))
    {
      if senderCurrentEpoch > currentEpoch {
        currentEpoch := senderCurrentEpoch;
      }
      if senderConfigEpoch > config[from] {
        config[from] := senderConfigEpoch;
      }
    }

    method HandleConfigEpochCollision(from: Id)
      requires Valid() && from < config.Length
      modifies this`currentEpoch, config
      ensures Valid() && Snapshot() == HandleCollision(old(Snapshot()), self, from)
      ensures if old(config[from]) == old(config[self]) && self < from
              then currentEpoch == old(currentEpoch) + 1 && SetOnly(old(config[..]), self, currentEpoch)
              else currentEpoch == old(currentEpoch) && config[..] == old(config[..])
    {
      if config[from] != config[self] {
        return;
      }
      if from <= self {
        return;
      }
      currentEpoch := currentEpoch + 1;
      config[self] := currentEpoch;
    }

    method ProcessPing(from: Id, senderCurrentEpoch: nat, senderConfigEpoch: nat, masters: bool)
      requires Valid() && from < config.Length
      modifies this`currentEpoch, config
      ensures Valid()
      ensures Snapshot() == ReceivePing(old(Snapshot()), self, from, senderCurrentEpoch, senderConfigEpoch, masters)
      ensures config[from] == Max(old(config[from]), senderConfigEpoch)
           || (from == self && config[self] == currentEpoch)
      ensures self != from ==>
        if masters && old(config[from]) <= senderConfigEpoch == old(config[self]) && self < from
        then config[self] == currentEpoch == Max(old(currentEpoch), senderCurrentEpoch) + 1
        else config[self] == old(config[self]) && currentEpoch == Max(old(currentEpoch), senderCurrentEpoch)
      ensures forall k | 0 <= k < config.Length && k != from && k != self :: config[k] == old(config[k])
    {
      ProcessHeader(from, senderCurrentEpoch, senderConfigEpoch);
      if masters && senderConfigEpoch == config[self] {
        HandleConfigEpochCollision(from);
      }
    }

    method ProcessUpdate(from: Id, senderCurrentEpoch: nat, senderConfigEpoch: nat, about: Id, reported: nat)
      requires Valid() && from < config.Length && about < config.Length
      modifies this`currentEpoch, config
      ensures Valid()
      ensures Snapshot()
        == ReceiveUpdate(old(Snapshot()), from, senderCurrentEpoch, senderConfigEpoch, about, reported)
      ensures currentEpoch == Max(old(currentEpoch), senderCurrentEpoch)
      ensures forall k | 0 <= k < config.Length ::
        config[k] == Max(Max(old(config[k]), if k == from then senderConfigEpoch else 0),
                         if k == about then reported else 0)
    {
      ProcessHeader(from, senderCurrentEpoch, senderConfigEpoch);
      if config[about] >= reported {
        return;
      }
      config[about] := reported;
    }

    method GetMaxEpoch() returns (max: nat)
      requires Valid()
      ensures max == MaxEpoch(Snapshot())
      ensures currentEpoch <= max && (forall k | 0 <= k < config.Length :: config[k] <= max)
      ensures max == currentEpoch || max in config[..]
    {
      max := 0;
      for i := 0 to config.Length
        invariant max == MaxOf(config[..i])
      {
        assert config[..i + 1][..i] == config[..i];
        if config[i] > max {
          max := config[i];
        }
      }
      assert config[..config.Length] == config[..];
      if max < currentEpoch {
        max := currentEpoch;
      }
    }

    method BumpConfigEpochWithoutConsensus() returns (ok: bool)
      requires Valid()
      modifies this`currentEpoch, config
      ensures Valid() && Snapshot() == BumpWithoutConsensus(old(Snapshot()), self)
      ensures ok <==> old(config[self]) == 0 || old(config[self]) < old(currentEpoch)
                      || exists k :: 0 <= k < config.Length && old(config[self]) < old(config[k])
      ensures if ok then currentEpoch == old(currentEpoch) + 1 && SetOnly(old(config[..]), self, currentEpoch)
              else currentEpoch == old(currentEpoch) && config[..] == old(config[..])
    {
      var maxEpoch := GetMaxEpoch();
      if config[self] == 0 || config[self] != maxEpoch {
        currentEpoch := currentEpoch + 1;
        config[self] := currentEpoch;
        return true;
      }
      return false;
    }

    // One vote per epoch, one in two node timeouts about a master, and none for claims older than what is known.
    method SendFailoverAuthIfNeeded(request: nat, serves: bool, req: Request, slots: array<Option<Id>>,
                                    now: int, nodeTimeout: nat) returns (granted: bool)
      requires Valid() && |req.claimed| == slots.Length
      requires forall j | 0 <= j < slots.Length && slots[j].Some? :: slots[j].value < config.Length
      modifies this`lastVoteEpoch, this`votedTime
      ensures granted
         <==> Grants(old(Snapshot()), request, follows.None? && serves,
                     Willing(config[..], slots[..], req) && !Recent(old(votedTime), req, now, nodeTimeout))
      ensures granted <==>
        && old(follows).None? && serves && request >= currentEpoch && old(lastVoteEpoch) != currentEpoch
        && Willing(config[..], slots[..], req) && !Recent(old(votedTime), req, now, nodeTimeout)
      ensures granted ==>
        && req.master.Some? && (req.failed || req.forceAck)
        && now - VotedTime(old(votedTime), req.master.value) >= 2 * nodeTimeout
        && forall j | 0 <= j < slots.Length && req.claimed[j] && slots[j].Some? ::
             config[slots[j].value] <= req.configEpoch
      ensures Snapshot() == if granted then Vote(old(Snapshot())) else old(Snapshot())
      ensures lastVoteEpoch == if granted then currentEpoch else old(lastVoteEpoch)
      ensures if granted then req.master.Some? && votedTime == old(votedTime)[req.master.value := now]
              else votedTime == old(votedTime)
    {
      if follows.Some? || !serves {
        return false;
      }
      if request < currentEpoch {
        return false;
      }
      if lastVoteEpoch == currentEpoch {
        return false;
      }
      if req.master.None? || (!req.failed && !req.forceAck) {
        return false;
      }
      if now - VotedTime(votedTime, req.master.value) < 2 * nodeTimeout {
        return false;
      }
      for j := 0 to slots.Length
        invariant forall i | 0 <= i < j && req.claimed[i] && slots[i].Some? :: config[slots[i].value] <= req.configEpoch
      {
        if req.claimed[j] && slots[j].Some? && config[slots[j].value] > req.configEpoch {
          assert slots[..][j] == slots[j] && config[..][slots[j].value] == config[slots[j].value];
          return false;
        }
      }
      lastVoteEpoch := currentEpoch;
      votedTime := votedTime[req.master.value := now];
      return true;
    }

    method ProcessAuthAck(senderCurrentEpoch: nat, voter: bool)
      requires Valid()
      modifies this`authCount
      ensures Snapshot() == CountAck(old(Snapshot()), senderCurrentEpoch, voter)
      ensures authCount == old(authCount) + if voter && senderCurrentEpoch >= authEpoch then 1 else 0
    {
      if voter && senderCurrentEpoch >= authEpoch {
        authCount := authCount + 1;
      }
    }

    // The delay once the rank among the replicas is known to be worse.
    function Delayed(m: Outlook): int
      reads this
    {
      if !authSent && !m.manual && m.rank > authRank then authTime + (m.rank - authRank) * 1000 else authTime
    }

    predicate Expired(m: Outlook)
      reads this
    {
      m.now - authTime > 2 * AuthTimeout(m)
    }

    predicate Due(m: Outlook)
      reads this
    {
      Delayed(m) <= m.now && m.now - authTime <= AuthTimeout(m)
    }

    /**
     clusterHandleSlaveFailover: a replica that may fail over schedules an election when the last one is too old,
     delays it when its rank gets worse, and asks for votes or takes over from the time on that was set for it
     until the election times out.
     */
    method HandleSlaveFailover(size: nat, m: Outlook) returns (asked: bool, won: bool)
      requires Valid()
      modifies this, config
      ensures Valid() && votedTime == old(votedTime)
      ensures asked ==>
        && !won && authSent && currentEpoch == authEpoch == old(currentEpoch) + 1 && follows == old(follows)
        && lastVoteEpoch == old(lastVoteEpoch) && authCount == old(authCount) && config[..] == old(config[..])
      ensures won ==>
        && follows.None? && SetOnly(old(config[..]), self, Max(old(config[self]), old(authEpoch)))
        && currentEpoch == old(currentEpoch) && lastVoteEpoch == old(lastVoteEpoch) && authEpoch == old(authEpoch)
        && authSent == old(authSent) && size / 2 + 1 <= authCount == old(authCount)
      ensures !asked && !won ==>
        && currentEpoch == old(currentEpoch) && lastVoteEpoch == old(lastVoteEpoch) && authEpoch == old(authEpoch)
        && follows == old(follows) && config[..] == old(config[..])
      ensures asked || won <==>
        && old(follows).Some? && m.masterHasSlots && !old(Expired(m)) && old(Due(m))
        && ((m.manual && m.canStart) || (m.masterFailed && !m.noFailover && !m.stale))
        && (old(authSent) ==> old(authCount) >= size / 2 + 1)
      ensures asked || won ==>
        && old(authTime) <= m.now && m.now - old(authTime) <= Max(2 * m.nodeTimeout, 2000)
        && (asked && !m.manual && m.rank > old(authRank) ==>
              old(authTime) + (m.rank - old(authRank)) * 1000 <= m.now)
      ensures asked ==> !old(authSent)
      ensures won ==> old(authSent)
      ensures old(follows).None? || !MayFailOver(m) ==>
        !asked && !won && Snapshot() == old(Snapshot()) && authTime == old(authTime) && authRank == old(authRank)
      ensures old(follows).Some? && MayFailOver(m) && old(Expired(m)) ==>
        && !asked && !won && authCount == 0 && !authSent && Snapshot() == ScheduleElection(old(Snapshot()))
        && authTime == (if m.manual then m.now else m.now + 500 + m.random % 500 + m.rank * 1000)
        && authRank == if m.manual then 0 else m.rank
      ensures old(follows).Some? && MayFailOver(m) && !old(Expired(m)) ==>
        && authTime == old(Delayed(m))
        && authRank == (if old(Delayed(m)) != old(authTime) then m.rank else old(authRank))
        && asked == (old(Due(m)) && !old(authSent))
        && won == (old(Due(m)) && HasQuorum(old(Snapshot()), size))
        && Snapshot() == if asked then StartElection(old(Snapshot()))
                         else if won then Win(old(Snapshot()), self) else old(Snapshot())
    {
      var age := m.now - authTime;
      if follows.None? || !MayFailOver(m) {
        return false, false;
      }
      if age > 2 * AuthTimeout(m) {
        authTime := m.now + 500 + m.random % 500;
        authCount := 0;
        authSent := false;
        authRank := m.rank;
        authTime := authTime + authRank * 1000;
        if m.manual {
          authTime := m.now;
          authRank := 0;
        }
        return false, false;
      }
      if !authSent && !m.manual && m.rank > authRank {
        authTime := authTime + (m.rank - authRank) * 1000;
        authRank := m.rank;
      }
      if m.now < authTime || age > AuthTimeout(m) {
        return false, false;
      }
      if !authSent {
        currentEpoch := currentEpoch + 1;
        authEpoch := currentEpoch;
        authSent := true;
        return true, false;
      }
      if authCount >= size / 2 + 1 {
        if config[self] < authEpoch {
          config[self] := authEpoch;
        }
        follows := None;
        return false, true;
      }
      return false, false;
    }

    // CLUSTER RESET HARD.
    method ResetHard()
      requires Valid()
      modifies this`currentEpoch, this`lastVoteEpoch, this`follows, this`votedTime, config
      ensures Valid() && Snapshot() == HardReset(old(Snapshot())) && votedTime == map[]
      ensures currentEpoch == lastVoteEpoch == 0 && follows.None? && forall k | 0 <= k < config.Length :: config[k] == 0
    {
      follows := None;
      votedTime := map[];
      forall i | 0 <= i < config.Length {
        config[i] := 0;
      }
      currentEpoch := 0;
      lastVoteEpoch := 0;
      assert config[..] == seq(config.Length, _ => 0);
    }

    // CLUSTER SET-CONFIG-EPOCH; known is how many nodes are known, this one included.
    method SetConfigEpochTo(epoch: int, known: nat) returns (ok: bool)
      requires Valid()
      modifies this`currentEpoch, config
      ensures Valid() && (ok <==> epoch >= 0 && known <= 1 && old(config[self]) == 0)
      ensures Snapshot() == if ok then SetConfigEpoch(old(Snapshot()), self, epoch) else old(Snapshot())
      ensures ok ==> currentEpoch == Max(old(currentEpoch), epoch) && SetOnly(old(config[..]), self, epoch)
    {
      if epoch < 0 || known > 1 || config[self] != 0 {
        return false;
      }
      config[self] := epoch;
      if currentEpoch < epoch {
        currentEpoch := epoch;
      }
      return true;
    }
  }
}
