/**
 N replicas of one priority-queue element. A client command runs its prepare part at one
 replica under the existence guards, takes effect there at once and is broadcast; every other
 replica runs the effect only, whenever the message happens to arrive, and once.
 */
module Replicas {
  import opened Options
  import opened RemoveWin
  import opened Convergence

  datatype Request = ZAdd(v: real) | ZIncrBy(v: real) | ZRem

  // vc_now: the clock with the local component advanced.
  function Now(c: Clock, self: nat): Clock
    requires self < |c|
  {
    c[self := c[self] + 1]
  }

  // The prepare part of a command: what is broadcast, if the precondition holds.
  function Prepare(e: Element, self: nat, req: Request): (op: Option<Op>)
    requires self < |e.current|
    ensures op.Some? ==> |op.value.t| == |e.current|
  {
    match req
    case ZAdd(v) => if e.Exists() then None else Some(Add(e.current, self, v))
    case ZIncrBy(v) => if e.Exists() then Some(Inc(e.current, v)) else None
    case ZRem => if e.Exists() then Some(Rmv(Now(e.current, self))) else None
  }

  // log lists the messages this replica has run, as positions in `issued`.
  datatype Replica = Replica(element: Element, log: seq<nat>)

  datatype State = State(replicas: seq<Replica>, issued: seq<Op>)

  datatype Step = Client(r: nat, req: Request) | Deliver(r: nat, m: nat)

  predicate Shaped(s: State) {
    && Sized(|s.replicas|, s.issued)
    && forall r | 0 <= r < |s.replicas| :: |s.replicas[r].element.current| == |s.replicas|
  }

  function RunAt(s: State, r: nat, m: nat): (s': State)
    requires Shaped(s) && r < |s.replicas| && m < |s.issued|
    ensures Shaped(s') && |s'.replicas| == |s.replicas|
  {
    assert s.issued[m] in s.issued;
    var rep := s.replicas[r];
    s.(replicas := s.replicas[r := Replica(Effect(rep.element, s.issued[m]), rep.log + [m])])
  }

  // A command that fails its precondition and a message already run change nothing.
  function Next(s: State, step: Step): (s': State)
    requires Shaped(s)
    ensures Shaped(s') && |s'.replicas| == |s.replicas|
  {
    match step
    case Client(r, req) =>
      if r >= |s.replicas| then s
      else (match Prepare(s.replicas[r].element, r, req)
            case None => s
            case Some(op) => RunAt(s.(issued := s.issued + [op]), r, |s.issued|))
    case Deliver(r, m) =>
      if r < |s.replicas| && m < |s.issued| && m !in s.replicas[r].log then RunAt(s, r, m) else s
  }

  function Start(n: nat): (s: State)
    ensures Shaped(s) && |s.replicas| == n
  {
    State(seq(n, _ => Replica(Fresh(n), [])), [])
  }

  // The state after any finite run.
  function Exec(n: nat, steps: seq<Step>): (s: State)
    ensures Shaped(s) && |s.replicas| == n
  {
    if steps == [] then Start(n) else Next(Exec(n, steps[..|steps| - 1]), steps[|steps| - 1])
  }

  /******* What every step keeps *******/

  predicate InRange(issued: seq<Op>, log: seq<nat>) {
    forall i | 0 <= i < |log| :: log[i] < |issued|
  }

  function OpsOf(issued: seq<Op>, log: seq<nat>): (s: seq<Op>)
    requires InRange(issued, log)
    ensures |s| == |log| && forall i | 0 <= i < |log| :: s[i] == issued[log[i]]
  {
    seq(|log|, i requires 0 <= i < |log| => issued[log[i]])
  }

  predicate Distinct(log: seq<nat>) {
    forall i, j | 0 <= i < j < |log| :: log[i] != log[j]
  }

  // A replica holds what the effects it ran, each once, amount to.
  ghost predicate LogsMatch(s: State)
    requires Shaped(s)
  {
    forall r | 0 <= r < |s.replicas| ::
      var log := s.replicas[r].log;
      && InRange(s.issued, log)
      && Distinct(log)
      && Sized(|s.replicas|, OpsOf(s.issued, log))
      && s.replicas[r].element == Run(|s.replicas|, OpsOf(s.issued, log))
  }

  // No message knows more about replica r's removes than r does.
  ghost predicate OwnClockLeads(s: State)
    requires Shaped(s)
  {
    forall m, r | 0 <= m < |s.issued| && 0 <= r < |s.replicas| ::
      s.issued[m].t[r] <= s.replicas[r].element.current[r]
  }

  // An add stays set at its issuer until the issuer learns of another remove.
  ghost predicate AddsHeld(s: State)
    requires Shaped(s)
  {
    forall m | 0 <= m < |s.issued| && s.issued[m].Add? ::
      var op := s.issued[m];
      && op.id < |s.replicas|
      && Leq(op.t, s.replicas[op.id].element.current)
      && (op.t == s.replicas[op.id].element.current ==> s.replicas[op.id].element.pid >= 0)
  }

  ghost predicate AddsUnique(s: State) {
    forall m, k | 0 <= m < k < |s.issued| && s.issued[m].Add? && s.issued[k].Add? ::
      s.issued[m].id != s.issued[k].id || s.issued[m].t != s.issued[k].t
  }

  // An increment always has an add with the same clock behind it.
  ghost predicate IncsFollowAdds(s: State) {
    forall m | 0 <= m < |s.issued| && s.issued[m].Inc? ::
      exists k :: 0 <= k < |s.issued| && s.issued[k].Add? && s.issued[k].t == s.issued[m].t
  }

  ghost predicate Inv(s: State) {
    Shaped(s) && LogsMatch(s) && OwnClockLeads(s) && AddsHeld(s) && AddsUnique(s) && IncsFollowAdds(s)
  }

  lemma EffectGrows(e: Element, op: Op)
    requires |op.t| == |e.current|
    ensures Leq(e.current, Effect(e, op).current) && Leq(op.t, Effect(e, op).current)
    ensures Effect(e, op).current == e.current && e.pid >= 0 ==> Effect(e, op).pid >= 0
  {
    EffectOfPurged(e, op);
  }

  lemma OpsSnoc(issued: seq<Op>, log: seq<nat>, m: nat)
    requires InRange(issued, log) && m < |issued|
    ensures InRange(issued, log + [m])
    ensures OpsOf(issued, log + [m]) == OpsOf(issued, log) + [issued[m]]
  {
  }

  lemma OpsPrefix(issued: seq<Op>, op: Op, log: seq<nat>)
    requires InRange(issued, log)
    ensures InRange(issued + [op], log)
    ensures OpsOf(issued + [op], log) == OpsOf(issued, log)
  {
  }

  lemma RunSnoc(n: nat, s: seq<Op>, op: Op)
    requires Sized(n, s) && |op.t| == n
    ensures Sized(n, s + [op]) && Run(n, s + [op]) == Effect(Run(n, s), op)
  {
    assert (s + [op])[..|s|] == s;
  }

  lemma OpsSized(n: nat, issued: seq<Op>, log: seq<nat>)
    requires Sized(n, issued) && InRange(issued, log)
    ensures Sized(n, OpsOf(issued, log))
  {
    forall op | op in OpsOf(issued, log) ensures |op.t| == n {
      var i :| 0 <= i < |log| && OpsOf(issued, log)[i] == op;
      assert issued[log[i]] in issued;
    }
  }

  // Running one more message at one replica.
  lemma RunAtKeepsLogs(s: State, r: nat, m: nat)
    requires Shaped(s) && LogsMatch(s) && r < |s.replicas| && m < |s.issued| && m !in s.replicas[r].log
    ensures LogsMatch(RunAt(s, r, m))
  {
    var n, log := |s.replicas|, s.replicas[r].log;
    assert s.issued[m] in s.issued;
    OpsSnoc(s.issued, log, m);
    OpsSized(n, s.issued, log + [m]);
    RunSnoc(n, OpsOf(s.issued, log), s.issued[m]);
    assert forall q | 0 <= q < n && q != r :: RunAt(s, r, m).replicas[q] == s.replicas[q];
  }

  lemma RunAtKeepsClocks(s: State, r: nat, m: nat)
    requires Shaped(s) && OwnClockLeads(s) && r < |s.replicas| && m < |s.issued|
    ensures OwnClockLeads(RunAt(s, r, m))
  {
    assert s.issued[m] in s.issued;
    EffectGrows(s.replicas[r].element, s.issued[m]);
  }

  lemma RunAtKeepsAdds(s: State, r: nat, m: nat)
    requires Shaped(s) && AddsHeld(s) && r < |s.replicas| && m < |s.issued|
    ensures AddsHeld(RunAt(s, r, m))
  {
    assert s.issued[m] in s.issued;
    EffectGrows(s.replicas[r].element, s.issued[m]);
    var s' := RunAt(s, r, m);
    forall k | 0 <= k < |s.issued| && s.issued[k].Add?
      ensures var op := s.issued[k];
        && op.id < |s'.replicas| && Leq(op.t, s'.replicas[op.id].element.current)
        && (op.t == s'.replicas[op.id].element.current ==> s'.replicas[op.id].element.pid >= 0)
    {
      var op := s.issued[k];
      if op.id == r && op.t == s'.replicas[r].element.current {
        LeqAntisymmetric(s.replicas[r].element.current, op.t);
      }
    }
  }

  lemma DeliverKeepsInv(s: State, r: nat, m: nat)
    requires Inv(s) && r < |s.replicas| && m < |s.issued| && m !in s.replicas[r].log
    ensures Inv(RunAt(s, r, m))
  {
    RunAtKeepsLogs(s, r, m);
    RunAtKeepsClocks(s, r, m);
    RunAtKeepsAdds(s, r, m);
  }

  function LogOps(s: State, r: nat): seq<Op>
    requires r < |s.replicas| && InRange(s.issued, s.replicas[r].log)
  {
    OpsOf(s.issued, s.replicas[r].log)
  }

  lemma ReplicaDenotes(s: State, r: nat)
    requires Shaped(s) && LogsMatch(s) && r < |s.replicas|
    ensures InRange(s.issued, s.replicas[r].log) && Sized(|s.replicas|, LogOps(s, r))
    ensures Denotes(|s.replicas|, LogOps(s, r), s.replicas[r].element)
  {
    RunDenotes(|s.replicas|, LogOps(s, r));
  }

  lemma IssuedBy(s: State, r: nat, op: Op) returns (m: nat)
    requires r < |s.replicas| && InRange(s.issued, s.replicas[r].log) && op in LogOps(s, r)
    ensures m in s.replicas[r].log && m < |s.issued| && s.issued[m] == op
  {
    var i :| 0 <= i < |s.replicas[r].log| && LogOps(s, r)[i] == op;
    m := s.replicas[r].log[i];
  }

  // No view knows more about replica q's removes than q does.
  lemma ViewLags(s: State, r: nat, q: nat)
    requires Shaped(s) && LogsMatch(s) && OwnClockLeads(s) && r < |s.replicas| && q < |s.replicas|
    ensures 0 <= s.replicas[r].element.current[q] <= s.replicas[q].element.current[q]
  {
    ReplicaDenotes(s, r);
    ReplicaDenotes(s, q);
    var c := s.replicas[r].element.current;
    if c[q] != 0 {
      var op :| op in LogOps(s, r) && op.t[q] == c[q];
      var m := IssuedBy(s, r, op);
    }
  }

  // Whoever sees the element has run an add that knew the same removes, or an increment behind one.
  lemma ExistsBecauseOfAdd(s: State, r: nat)
    requires Shaped(s) && LogsMatch(s) && IncsFollowAdds(s) && r < |s.replicas| && s.replicas[r].element.Exists()
    ensures exists k :: 0 <= k < |s.issued| && s.issued[k].Add? && s.issued[k].t == s.replicas[r].element.current
  {
    ReplicaDenotes(s, r);
    var c := s.replicas[r].element.current;
    var op :| op in LogOps(s, r) && (AddAt(op, c) || IncAt(op, c));
    var m := IssuedBy(s, r, op);
  }

  // A command that passed its precondition.
  ghost predicate Issues(s: State, r: nat, req: Request, op: Op)
    requires Shaped(s)
  {
    r < |s.replicas| && Prepare(s.replicas[r].element, r, req) == Some(op)
  }

  function After(s: State, r: nat, op: Op): (s': State)
    requires Shaped(s) && r < |s.replicas| && |op.t| == |s.replicas|
    ensures Shaped(s') && |s'.replicas| == |s.replicas|
  {
    RunAt(s.(issued := s.issued + [op]), r, |s.issued|)
  }

  lemma ClientKeepsLogs(s: State, r: nat, req: Request, op: Op)
    requires Shaped(s) && LogsMatch(s) && Issues(s, r, req, op)
    ensures LogsMatch(After(s, r, op))
  {
    var s1 := s.(issued := s.issued + [op]);
    forall q | 0 <= q < |s.replicas|
      ensures InRange(s1.issued, s.replicas[q].log)
      ensures OpsOf(s1.issued, s.replicas[q].log) == OpsOf(s.issued, s.replicas[q].log)
    {
      OpsPrefix(s.issued, op, s.replicas[q].log);
    }
    RunAtKeepsLogs(s1, r, |s.issued|);
  }

  lemma ClientKeepsClocks(s: State, r: nat, req: Request, op: Op)
    requires Shaped(s) && LogsMatch(s) && OwnClockLeads(s) && Issues(s, r, req, op)
    ensures OwnClockLeads(After(s, r, op))
  {
    var s' := After(s, r, op);
    EffectGrows(s.replicas[r].element, op);
    forall m, q | 0 <= m < |s'.issued| && 0 <= q < |s.replicas|
      ensures s'.issued[m].t[q] <= s'.replicas[q].element.current[q]
    {
      if m == |s.issued| && q != r {
        ViewLags(s, r, q);
      }
    }
  }

  lemma ClientKeepsAdds(s: State, r: nat, req: Request, op: Op)
    requires Shaped(s) && AddsHeld(s) && Issues(s, r, req, op)
    ensures AddsHeld(After(s, r, op))
  {
    var s' := After(s, r, op);
    var e := s.replicas[r].element;
    EffectGrows(e, op);
    forall m | 0 <= m < |s'.issued| && s'.issued[m].Add?
      ensures var o := s'.issued[m];
        && o.id < |s'.replicas| && Leq(o.t, s'.replicas[o.id].element.current)
        && (o.t == s'.replicas[o.id].element.current ==> s'.replicas[o.id].element.pid >= 0)
    {
      var o := s'.issued[m];
      if m < |s.issued| && o.id == r && o.t == s'.replicas[r].element.current {
        LeqAntisymmetric(e.current, o.t);
      }
    }
  }

  lemma ClientKeepsAddsUnique(s: State, r: nat, req: Request, op: Op)
    requires Shaped(s) && AddsHeld(s) && AddsUnique(s) && Issues(s, r, req, op)
    ensures AddsUnique(After(s, r, op))
  {
  }

  lemma ClientKeepsIncs(s: State, r: nat, req: Request, op: Op)
    requires Shaped(s) && LogsMatch(s) && IncsFollowAdds(s) && Issues(s, r, req, op)
    ensures IncsFollowAdds(After(s, r, op))
  {
    var s' := After(s, r, op);
    forall m | 0 <= m < |s'.issued| && s'.issued[m].Inc?
      ensures exists k :: 0 <= k < |s'.issued| && s'.issued[k].Add? && s'.issued[k].t == s'.issued[m].t
    {
      if m == |s.issued| {
        ExistsBecauseOfAdd(s, r);
        var k :| 0 <= k < |s.issued| && s.issued[k].Add? && s.issued[k].t == op.t;
        assert s'.issued[k] == s.issued[k];
      } else {
        var k :| 0 <= k < |s.issued| && s.issued[k].Add? && s.issued[k].t == s.issued[m].t;
        assert s'.issued[k] == s.issued[k];
      }
    }
  }

  lemma NextKeepsInv(s: State, step: Step)
    requires Inv(s)
    ensures Inv(Next(s, step))
  {
    match step
    case Client(r, req) =>
      if r < |s.replicas| && Prepare(s.replicas[r].element, r, req).Some? {
        var op := Prepare(s.replicas[r].element, r, req).value;
        ClientKeepsLogs(s, r, req, op);
        ClientKeepsClocks(s, r, req, op);
        ClientKeepsAdds(s, r, req, op);
        ClientKeepsAddsUnique(s, r, req, op);
        ClientKeepsIncs(s, r, req, op);
      }
    case Deliver(r, m) =>
      if r < |s.replicas| && m < |s.issued| && m !in s.replicas[r].log {
        DeliverKeepsInv(s, r, m);
      }
  }

  lemma {:induction false} ExecKeepsInv(n: nat, steps: seq<Step>)
    ensures Inv(Exec(n, steps))
  {
    if steps != [] {
      ExecKeepsInv(n, steps[..|steps| - 1]);
      NextKeepsInv(Exec(n, steps[..|steps| - 1]), steps[|steps| - 1]);
    }
  }

  /******* What holds in every reachable state *******/

  lemma {:induction false} DistinctCount(log: seq<nat>, m: nat)
    requires Distinct(log)
    ensures multiset(log)[m] == if m in log then 1 else 0
  {
    if log != [] {
      var last := |log| - 1;
      DistinctCount(log[..last], m);
      assert log == log[..last] + [log[last]];
    }
  }

  lemma SameSetPermutes(a: seq<nat>, b: seq<nat>)
    requires Distinct(a) && Distinct(b) && forall m :: m in a <==> m in b
    ensures multiset(a) == multiset(b)
  {
    forall m ensures multiset(a)[m] == multiset(b)[m] {
      DistinctCount(a, m);
      DistinctCount(b, m);
    }
  }

  lemma {:induction false} OpsPermute(issued: seq<Op>, a: seq<nat>, b: seq<nat>)
    requires InRange(issued, a) && InRange(issued, b) && multiset(a) == multiset(b)
    ensures multiset(OpsOf(issued, a)) == multiset(OpsOf(issued, b))
    decreases |a|
  {
    if a == [] {
      assert |multiset(b)| == |b|;
    } else {
      var last := |a| - 1;
      var k := FindLast(a, b);
      OpsPermute(issued, a[..last], b[..k] + b[k + 1..]);
      var opsA, opsB := OpsOf(issued, a), OpsOf(issued, b);
      assert opsA == OpsOf(issued, a[..last]) + [issued[a[last]]];
      assert opsB[..k] + opsB[k + 1..] == OpsOf(issued, b[..k] + b[k + 1..]);
      MultisetRemove(opsB, k);
    }
  }

  // Distinct adds never tie.
  lemma RunsAreDecided(s: State, log: seq<nat>)
    requires Shaped(s) && AddsUnique(s) && InRange(s.issued, log) && Sized(|s.replicas|, OpsOf(s.issued, log))
    ensures Decided(|s.replicas|, OpsOf(s.issued, log))
  {
    var ops := OpsOf(s.issued, log);
    var c := JoinAll(|s.replicas|, ops);
    forall a, b | Winner(ops, c, a) && Winner(ops, c, b) ensures a.v == b.v {
      var i :| 0 <= i < |log| && ops[i] == a;
      var j :| 0 <= j < |log| && ops[j] == b;
      assert s.issued[log[i]] == a && s.issued[log[j]] == b;
    }
  }

  ghost predicate SameMessages(s: State, p: nat, q: nat)
    requires p < |s.replicas| && q < |s.replicas|
  {
    forall m :: m in s.replicas[p].log <==> m in s.replicas[q].log
  }

  lemma SameMessagesSameElement(s: State, p: nat, q: nat)
    requires Inv(s) && p < |s.replicas| && q < |s.replicas| && SameMessages(s, p, q)
    ensures s.replicas[p].element == s.replicas[q].element
  {
    var a, b := s.replicas[p].log, s.replicas[q].log;
    SameSetPermutes(a, b);
    OpsPermute(s.issued, a, b);
    RunsAreDecided(s, a);
    Converges(|s.replicas|, OpsOf(s.issued, a), OpsOf(s.issued, b));
  }

  /**
   Strong eventual consistency: in any run, with any interleaving and any delivery order,
   replicas that have run the same messages hold the same header, value and sorted-set entry.
   */
  lemma StrongEventualConsistency(n: nat, steps: seq<Step>, p: nat, q: nat)
    requires p < n && q < n && SameMessages(Exec(n, steps), p, q)
    ensures Exec(n, steps).replicas[p].element == Exec(n, steps).replicas[q].element
  {
    ExecKeepsInv(n, steps);
    SameMessagesSameElement(Exec(n, steps), p, q);
  }

  ghost predicate HasAll(s: State, r: nat)
    requires r < |s.replicas|
  {
    forall m | 0 <= m < |s.issued| :: m in s.replicas[r].log
  }

  lemma InLog(s: State, r: nat, m: nat)
    requires Shaped(s) && LogsMatch(s) && r < |s.replicas| && HasAll(s, r)
    ensures m in s.replicas[r].log <==> m < |s.issued|
  {
    if m in s.replicas[r].log {
      var i :| 0 <= i < |s.replicas[r].log| && s.replicas[r].log[i] == m;
    }
  }

  /** Once every message has arrived, all replicas are equal and none waits for an add. */
  lemma QuiescentReplicasAgree(n: nat, steps: seq<Step>, p: nat, q: nat)
    requires p < n && q < n && HasAll(Exec(n, steps), p) && HasAll(Exec(n, steps), q)
    ensures Exec(n, steps).replicas[p].element == Exec(n, steps).replicas[q].element
    ensures Exec(n, steps).replicas[p].element.pid != PID_WAIT_INNATE
  {
    var s := Exec(n, steps);
    ExecKeepsInv(n, steps);
    forall m ensures m in s.replicas[p].log <==> m in s.replicas[q].log {
      if m >= 0 {
        InLog(s, p, m);
        InLog(s, q, m);
      }
    }
    SameMessagesSameElement(s, p, q);
    WaitingMissesAnAdd(s, p);
  }

  // An add that knows as much as the replica that ran it has set the element there.
  lemma MatchingAddIsSet(s: State, r: nat, k: nat)
    requires Shaped(s) && LogsMatch(s) && r < |s.replicas| && k < |s.issued|
    requires s.issued[k].Add? && s.issued[k].t == s.replicas[r].element.current
    ensures k in s.replicas[r].log ==> s.replicas[r].element.pid >= 0
  {
    ReplicaDenotes(s, r);
    assert forall i | 0 <= i < |s.replicas[r].log| :: LogOps(s, r)[i] in LogOps(s, r);
  }

  // A replica that waits has not yet run an add that is already on its way.
  lemma WaitingMissesAnAdd(s: State, r: nat)
    requires Inv(s) && r < |s.replicas|
    ensures s.replicas[r].element.pid == PID_WAIT_INNATE ==>
      exists k :: 0 <= k < |s.issued| && s.issued[k].Add? && k !in s.replicas[r].log
  {
    var e := s.replicas[r].element;
    if e.pid == PID_WAIT_INNATE {
      ExistsBecauseOfAdd(s, r);
      var k :| 0 <= k < |s.issued| && s.issued[k].Add? && s.issued[k].t == e.current;
      MatchingAddIsSet(s, r, k);
    }
  }

  lemma {:induction false} KnowsWhatItRan(s: State, r: nat, m: nat)
    requires Inv(s) && r < |s.replicas| && m in s.replicas[r].log
    ensures m < |s.issued| && |s.issued[m].t| == |s.replicas| && Leq(s.issued[m].t, s.replicas[r].element.current)
  {
    ReplicaDenotes(s, r);
    var i :| 0 <= i < |s.replicas[r].log| && s.replicas[r].log[i] == m;
    assert LogOps(s, r)[i] in LogOps(s, r);
  }

  lemma SetByAdd(s: State, r: nat) returns (k: nat)
    requires Inv(s) && r < |s.replicas| && s.replicas[r].element.pid >= 0
    ensures k in s.replicas[r].log && k < |s.issued|
    ensures s.issued[k] == Add(s.replicas[r].element.current, s.replicas[r].element.pid, s.replicas[r].element.innate)
  {
    ReplicaDenotes(s, r);
    var e := s.replicas[r].element;
    var op :| op in LogOps(s, r) && AddAt(op, e.current) && op.id == e.pid && op.v == e.innate;
    k := IssuedBy(s, r, op);
  }

  /**
   Remove wins: an element that is set was set by an add this replica has run, and that add
   knew every remove this replica has run.
   */
  lemma RemoveWins(n: nat, steps: seq<Step>, r: nat) returns (k: nat)
    requires r < n && Exec(n, steps).replicas[r].element.pid >= 0
    ensures k in Exec(n, steps).replicas[r].log && k < |Exec(n, steps).issued|
    ensures var e := Exec(n, steps).replicas[r].element; Exec(n, steps).issued[k] == Add(e.current, e.pid, e.innate)
    ensures var s := Exec(n, steps);
      forall m | m in s.replicas[r].log ::
        m < |s.issued| && |s.issued[m].t| == |s.issued[k].t| && Leq(s.issued[m].t, s.issued[k].t)
  {
    var s := Exec(n, steps);
    ExecKeepsInv(n, steps);
    k := SetByAdd(s, r);
    forall m | m in s.replicas[r].log
      ensures m < |s.issued| && |s.issued[m].t| == n && Leq(s.issued[m].t, s.replicas[r].element.current)
    {
      KnowsWhatItRan(s, r, m);
    }
  }

  /** No replica ever issues two adds with the same clock. */
  lemma AddsAreUnique(n: nat, steps: seq<Step>, m: nat, k: nat)
    requires m < k < |Exec(n, steps).issued|
    requires Exec(n, steps).issued[m].Add? && Exec(n, steps).issued[k].Add?
    requires Exec(n, steps).issued[m].id == Exec(n, steps).issued[k].id
    ensures Exec(n, steps).issued[m].t != Exec(n, steps).issued[k].t
  {
    ExecKeepsInv(n, steps);
  }

  /** No view and no message knows more about a replica's removes than that replica. */
  lemma OwnersKnowMost(n: nat, steps: seq<Step>, r: nat, q: nat)
    requires r < n && q < n
    ensures Exec(n, steps).replicas[r].element.current[q] <= Exec(n, steps).replicas[q].element.current[q]
    ensures forall m | 0 <= m < |Exec(n, steps).issued| ::
      && |Exec(n, steps).issued[m].t| == n
      && Exec(n, steps).issued[m].t[q] <= Exec(n, steps).replicas[q].element.current[q]
  {
    var s := Exec(n, steps);
    ExecKeepsInv(n, steps);
    ViewLags(s, r, q);
    assert forall m | 0 <= m < |s.issued| :: s.issued[m] in s.issued;
  }

  /******* What an accepted command does *******/

  // Only replica r has changed, and one message is on its way.
  ghost predicate Issued(s: State, s': State, r: nat, op: Op) {
    && |s'.replicas| == |s.replicas| && r < |s.replicas|
    && s'.issued == s.issued + [op] && s'.replicas[r].log == s.replicas[r].log + [|s.issued|]
    && forall q | 0 <= q < |s.replicas| && q != r :: s'.replicas[q] == s.replicas[q]
  }

  // An element that does not exist shows nothing, and one that does shows its value.
  predicate ShownExactly(e: Element) {
    if e.pid == PID_NEXIST then e.shown == None && e.innate == e.acquired == 0.0
    else e.shown == Some(e.innate + e.acquired)
  }

  lemma ReachedShownExactly(n: nat, steps: seq<Step>, r: nat)
    requires r < n
    ensures ShownExactly(Exec(n, steps).replicas[r].element)
  {
    ExecKeepsInv(n, steps);
    var s := Exec(n, steps);
    ReplicaDenotes(s, r);
    var e := s.replicas[r].element;
    if e.pid == PID_NEXIST {
      TotalOfNone(LogOps(s, r), e.current);
    }
  }

  lemma ExecSnoc(n: nat, steps: seq<Step>, step: Step)
    ensures Exec(n, steps + [step]) == Next(Exec(n, steps), step)
  {
    assert (steps + [step])[..|steps|] == steps;
  }

  lemma ClientIssues(s: State, r: nat, req: Request)
    requires Shaped(s) && r < |s.replicas|
    ensures var op, s' := Prepare(s.replicas[r].element, r, req), Next(s, Client(r, req));
      if op.None? then s' == s
      else Issued(s, s', r, op.value) && s'.replicas[r].element == Effect(s.replicas[r].element, op.value)
  {
  }

  // The three effects at the replica that issues them.
  lemma EffectsAtHome(e: Element, r: nat, v: real)
    requires r < |e.current| && ShownExactly(e)
    ensures !e.Exists() ==> Effect(e, Add(e.current, r, v)) == Element(r, e.current, v, 0.0, Some(v))
    ensures e.Exists() ==>
      && Effect(e, Inc(e.current, v)) ==
         Element(e.pid, e.current, e.innate, e.acquired + v, Some(e.shown.value + v))
      && Effect(e, Rmv(Now(e.current, r))) == Element(PID_NEXIST, Now(e.current, r), 0.0, 0.0, None)
  {
    var t := Now(e.current, r);
    assert t[r] > e.current[r] && Join(e.current, t) == t;
  }

  /** In every reachable state: an add is refused exactly if the element exists, and otherwise shows what was added. */
  lemma AddShows(n: nat, steps: seq<Step>, r: nat, v: real)
    requires r < n
    ensures var s, s' := Exec(n, steps), Exec(n, steps + [Client(r, ZAdd(v))]);
      var e, e' := s.replicas[r].element, s'.replicas[r].element;
      if e.pid != PID_NEXIST then s' == s
      else
        && Issued(s, s', r, Add(e.current, r, v)) && e'.current == e.current
        && e'.pid == r && e'.innate == v && e'.acquired == 0.0 && e'.shown == Some(v)
  {
    var s := Exec(n, steps);
    ExecSnoc(n, steps, Client(r, ZAdd(v)));
    ReachedShownExactly(n, steps, r);
    ClientIssues(s, r, ZAdd(v));
    EffectsAtHome(s.replicas[r].element, r, v);
  }

  /** An increment is refused exactly if the element does not exist, and otherwise raises what is shown. */
  lemma IncrementRaises(n: nat, steps: seq<Step>, r: nat, v: real)
    requires r < n
    ensures var s, s' := Exec(n, steps), Exec(n, steps + [Client(r, ZIncrBy(v))]);
      var e, e' := s.replicas[r].element, s'.replicas[r].element;
      if e.pid == PID_NEXIST then s' == s
      else
        && Issued(s, s', r, Inc(e.current, v)) && e'.current == e.current && e'.pid == e.pid && e'.innate == e.innate
        && e'.acquired == e.acquired + v && e.shown.Some? && e'.shown == Some(e.shown.value + v)
  {
    var s := Exec(n, steps);
    ExecSnoc(n, steps, Client(r, ZIncrBy(v)));
    ReachedShownExactly(n, steps, r);
    ClientIssues(s, r, ZIncrBy(v));
    EffectsAtHome(s.replicas[r].element, r, v);
  }

  /**
   A remove is refused exactly if the element does not exist, and otherwise the element is gone there at once, with
   one more remove in the replica's own clock entry.
   */
  lemma RemoveRemoves(n: nat, steps: seq<Step>, r: nat)
    requires r < n
    ensures var s, s' := Exec(n, steps), Exec(n, steps + [Client(r, ZRem)]);
      var e, e' := s.replicas[r].element, s'.replicas[r].element;
      if e.pid == PID_NEXIST then s' == s
      else
        && Issued(s, s', r, Rmv(e'.current)) && e'.pid == PID_NEXIST && e'.shown == None
        && e'.innate == e'.acquired == 0.0 && |e'.current| == |e.current| == n
        && forall i | 0 <= i < n :: e'.current[i] == e.current[i] + if i == r then 1 else 0
  {
    var s := Exec(n, steps);
    ExecSnoc(n, steps, Client(r, ZRem));
    ReachedShownExactly(n, steps, r);
    ClientIssues(s, r, ZRem);
    EffectsAtHome(s.replicas[r].element, r, 0.0);
  }

  /**
   A delivered message is run at that replica, once, and nowhere else: what the replica then holds is what all the
   messages it has run amount to.
   */
  lemma DeliverRuns(n: nat, steps: seq<Step>, r: nat, m: nat)
    requires r < n && m < |Exec(n, steps).issued|
    ensures var s, s' := Exec(n, steps), Exec(n, steps + [Deliver(r, m)]);
      && s'.issued == s.issued && (forall q | 0 <= q < n && q != r :: s'.replicas[q] == s.replicas[q])
      && s'.replicas[r].log == (if m in s.replicas[r].log then s.replicas[r].log else s.replicas[r].log + [m])
      && Inv(s') && Denotes(n, LogOps(s', r), s'.replicas[r].element)
  {
    ExecSnoc(n, steps, Deliver(r, m));
    ExecKeepsInv(n, steps + [Deliver(r, m)]);
    ReplicaDenotes(Exec(n, steps + [Deliver(r, m)]), r);
  }

  lemma {:induction false} IssuedGrows(n: nat, steps: seq<Step>, more: seq<Step>)
    ensures Exec(n, steps).issued <= Exec(n, steps + more).issued
    decreases |more|
  {
    if more == [] {
      assert steps + more == steps;
    } else {
      var k := |more| - 1;
      IssuedGrows(n, steps, more[..k]);
      assert steps + more == (steps + more[..k]) + [more[k]];
      ExecSnoc(n, steps + more[..k], more[k]);
    }
  }

  // Whoever has run a message shows the element only because of an add that knows what the message knows.
  lemma ExistsKnowing(s: State, q: nat, m: nat) returns (k: nat)
    requires Inv(s) && q < |s.replicas| && m in s.replicas[q].log && s.replicas[q].element.Exists()
    ensures m < |s.issued| && k < |s.issued| && s.issued[k].Add? && s.issued[k].t == s.replicas[q].element.current
    ensures |s.issued[k].t| == |s.issued[m].t| && Leq(s.issued[m].t, s.issued[k].t)
  {
    KnowsWhatItRan(s, q, m);
    ExistsBecauseOfAdd(s, q);
    k :| 0 <= k < |s.issued| && s.issued[k].Add? && s.issued[k].t == s.replicas[q].element.current;
  }

  // What has been issued knows no more of r's removes than r does.
  lemma IssuedKnowLess(s: State, issued: seq<Op>, r: nat, k: nat)
    requires Shaped(s) && OwnClockLeads(s) && s.issued <= issued && r < |s.replicas| && k < |s.issued|
    ensures |issued[k].t| == |s.replicas| && issued[k].t[r] <= s.replicas[r].element.current[r]
  {
    assert issued[k] == s.issued[k] && s.issued[k] in s.issued;
  }

  /**
   After a remove was accepted, in whatever happens next: every replica that has run it shows the element only
   because of an add that was issued later and whose clock knows of the remove.
   */
  lemma RemovedUntilLaterAdd(n: nat, steps: seq<Step>, r: nat, more: seq<Step>, q: nat) returns (k: nat)
    requires r < n && q < n && Exec(n, steps).replicas[r].element.Exists()
    requires |Exec(n, steps).issued| in Exec(n, steps + [Client(r, ZRem)] + more).replicas[q].log
    requires Exec(n, steps + [Client(r, ZRem)] + more).replicas[q].element.Exists()
    ensures var s, t := Exec(n, steps), Exec(n, steps + [Client(r, ZRem)] + more);
      && |s.issued| < k < |t.issued| && t.issued[|s.issued|].Rmv? && t.issued[k].Add?
      && t.issued[k].t == t.replicas[q].element.current && |t.issued[k].t| == n
      && t.issued[k].t[r] > s.replicas[r].element.current[r]
  {
    var s, s1, t := Exec(n, steps), Exec(n, steps + [Client(r, ZRem)]), Exec(n, steps + [Client(r, ZRem)] + more);
    RemoveRemoves(n, steps, r);
    IssuedGrows(n, steps + [Client(r, ZRem)], more);
    assert t.issued[|s.issued|] == s1.issued[|s.issued|];
    ExecKeepsInv(n, steps);
    ExecKeepsInv(n, steps + [Client(r, ZRem)] + more);
    k := ExistsKnowing(t, q, |s.issued|);
    if k < |s.issued| {
      IssuedKnowLess(s, t.issued, r, k);
    }
  }
}
