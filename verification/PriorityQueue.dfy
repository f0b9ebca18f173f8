/**
 The element of the replicated priority queue as the server keeps it: a header whose clock is
 updated in place, and the commands that prepare and apply the replicated effects.
 */
module PriorityQueue {
  import opened Options
  import opened RemoveWin
  import opened Replicas

  class RwfElement {
    var pid: int
    const current: array<int>
    var innate: real
    var acquired: real
    var shown: Option<real>

    ghost function Value(): Element
      reads this, current
    {
      Element(pid, current[..], innate, acquired, shown)
    }

    constructor (n: nat)
      ensures Value() == Fresh(n) && fresh(current)
    {
      pid := PID_NEXIST;
      current := new int[n](_ => 0);
      innate, acquired := 0.0, 0.0;
      shown := None;
      new;
      assert current[..] == Zero(n);
    }

    // vc_update
    method UpdateClock(t: Clock)
      requires |t| == current.Length
      modifies current
      ensures current[..] == Join(old(current[..]), t)
    {
      for i := 0 to current.Length
        invariant forall j | 0 <= j < i :: current[j] == if old(current[j]) < t[j] then t[j] else old(current[j])
        invariant forall j | i <= j < current.Length :: current[j] == old(current[j])
      {
        if t[i] > current[i] {
          current[i] := t[i];
        }
      }
    }

    // vc_equal
    method EqualsClock(t: Clock) returns (equal: bool)
      ensures equal <==> t == current[..]
    {
      if |t| != current.Length {
        return false;
      }
      for i := 0 to |t|
        invariant t[..i] == current[..i]
      {
        if t[i] != current[i] {
          return false;
        }
      }
      return true;
    }

    method AddCheck(t: Clock, id: nat) returns (ok: bool)
      modifies this`pid
      ensures ok <==> t == current[..] && old(pid) < id
      ensures pid == if ok then id else old(pid)
    {
      var equal := EqualsClock(t);
      if !equal {
        return false;
      }
      if pid < id {
        pid := id;
        return true;
      }
      return false;
    }

    method UpdateCheck(t: Clock) returns (ok: bool)
      modifies this`pid
      ensures ok <==> t == current[..]
      ensures pid == if ok && old(pid) == PID_NEXIST then PID_WAIT_INNATE else old(pid)
    {
      var equal := EqualsClock(t);
      if !equal {
        return false;
      }
      if pid == PID_NEXIST {
        pid := PID_WAIT_INNATE;
      }
      return true;
    }

    method RemoveCheck(t: Clock) returns (ok: bool)
      requires |t| == current.Length
      modifies this`pid, current
      ensures ok <==> !Leq(t, old(current[..]))
      ensures current[..] == if ok then Join(old(current[..]), t) else old(current[..])
      ensures pid == if ok then PID_NEXIST else old(pid)
    {
      for i := 0 to |t|
        invariant forall j | 0 <= j < i :: t[j] <= current[j]
        invariant current[..] == old(current[..]) && pid == old(pid)
      {
        if current[i] < t[i] {
          UpdateClock(t);
          pid := PID_NEXIST;
          return true;
        }
      }
      return false;
    }

    // removeFunc
    method Remove(t: Clock)
      requires |t| == current.Length
      modifies this, current
      ensures Value() == Purge(old(Value()), t)
    {
      var ok := RemoveCheck(t);
      if ok {
        acquired := 0.0;
        innate := 0.0;
        shown := None;
      }
    }

    // The effect part of the three commands.
    method RunEffect(op: Op)
      requires |op.t| == current.Length
      modifies this, current
      ensures Value() == Effect(old(Value()), op)
    {
      Remove(op.t);
      match op
      case Add(t, id, v) =>
        var ok := AddCheck(t, id);
        if ok {
          innate := v;
          shown := Some(innate + acquired);
        }
      case Inc(t, v) =>
        var ok := UpdateCheck(t);
        if ok {
          acquired := acquired + v;
          shown := Some(innate + acquired);
        }
      case Rmv(_) =>
    }

    // vc_now: the clock is advanced, copied out and set back.
    method ClockNow(self: nat) returns (t: Clock)
      requires self < current.Length
      modifies current
      ensures t == Now(old(current[..]), self) && current[..] == old(current[..])
    {
      current[self] := current[self] + 1;
      t := current[..];
      current[self] := current[self] - 1;
      assert current[..] == old(current[..]);
    }

    /**
     rwfzadd, rwfzincrby and rwfzrem from a client: prepare under the guard, run the effect
     here, and hand back what is broadcast (None when the client got an error).
     */
    method Command(self: nat, req: Request) returns (broadcast: Option<Op>)
      requires self < current.Length
      modifies this, current
      ensures broadcast == Prepare(old(Value()), self, req)
      ensures Value() == if broadcast.Some? then Effect(old(Value()), broadcast.value) else old(Value())
      ensures broadcast.Some? <==> (req.ZAdd? <==> old(pid) == PID_NEXIST)
      ensures req.ZAdd? && broadcast.Some? ==>
        && broadcast == Some(Add(current[..], self, req.v)) && current[..] == old(current[..])
        && pid == self && innate == req.v && acquired == old(acquired) && shown == Some(req.v + old(acquired))
      ensures req.ZIncrBy? && broadcast.Some? ==>
        && broadcast == Some(Inc(current[..], req.v)) && current[..] == old(current[..])
        && pid == old(pid) && innate == old(innate) && acquired == old(acquired) + req.v
        && shown == Some(old(innate) + (old(acquired) + req.v))
      ensures req.ZRem? && broadcast.Some? ==>
        && broadcast == Some(Rmv(current[..])) && pid == PID_NEXIST && innate == acquired == 0.0 && shown == None
        && forall i | 0 <= i < current.Length :: current[i] == old(current[i]) + if i == self then 1 else 0
    {
      match req {
      case ZAdd(v) =>
        if pid != PID_NEXIST {
          return None;
        }
        broadcast := Some(Add(current[..], self, v));
      case ZIncrBy(v) =>
        if pid == PID_NEXIST {
          return None;
        }
        broadcast := Some(Inc(current[..], v));
      case ZRem =>
        if pid == PID_NEXIST {
          return None;
        }
        var t := ClockNow(self);
        broadcast := Some(Rmv(t));
        assert t[self] > current[self] && Join(current[..], t) == t;
      }
      RunEffect(broadcast.value);
    }
  }
}
