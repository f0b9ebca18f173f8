/**
 The remove-win element of the replicated priority queue: an element header (the id of the
 add that set it and a vector clock of removes), its value, and the three effects that
 arrive from any replica in any order.
 */
module RemoveWin {
  import opened Options

  const PID_NEXIST := -1
  const PID_WAIT_INNATE := -2

  type Clock = seq<int>

  /******* Clocks *******/

  predicate Leq(a: Clock, b: Clock)
    requires |a| == |b|
  {
    forall i | 0 <= i < |a| :: a[i] <= b[i]
  }

  function Join(a: Clock, b: Clock): (c: Clock)
    requires |a| == |b|
    ensures |c| == |a|
    ensures forall i | 0 <= i < |a| :: c[i] == if a[i] < b[i] then b[i] else a[i]
  {
    seq(|a|, i requires 0 <= i < |a| => if a[i] < b[i] then b[i] else a[i])
  }

  function Zero(n: nat): (c: Clock)
    ensures |c| == n && forall i | 0 <= i < n :: c[i] == 0
  {
    seq(n, _ => 0)
  }

  lemma LeqAntisymmetric(a: Clock, b: Clock)
    requires |a| == |b| && Leq(a, b) && Leq(b, a)
    ensures a == b
  {
  }

  /******* Elements and effects *******/

  // What a replica stores for one element. `shown` is its entry in the sorted set.
  datatype Element = Element(pid: int, current: Clock, innate: real, acquired: real, shown: Option<real>) {
    predicate Exists() { pid != PID_NEXIST }
  }

  datatype Op =
    | Add(t: Clock, id: nat, v: real)
    | Inc(t: Clock, v: real)
    | Rmv(t: Clock)

  function Fresh(n: nat): Element { Element(PID_NEXIST, Zero(n), 0.0, 0.0, None) }

  // removeFunc: a clock that knows a remove this element does not know clears the element.
  function Purge(e: Element, t: Clock): Element
    requires |t| == |e.current|
  {
    if Leq(t, e.current) then e else Element(PID_NEXIST, Join(e.current, t), 0.0, 0.0, None)
  }

  function Effect(e: Element, op: Op): (r: Element)
    requires |op.t| == |e.current|
    ensures |r.current| == |e.current|
  {
    var p := Purge(e, op.t);
    match op
    case Add(t, id, v) =>
      if t == p.current && p.pid < id
      then p.(pid := id, innate := v, shown := Some(v + p.acquired))
      else p
    case Inc(t, v) =>
      if t == p.current
      then p.(pid := if p.Exists() then p.pid else PID_WAIT_INNATE,
              acquired := p.acquired + v,
              shown := Some(p.innate + (p.acquired + v)))
      else p
    case Rmv(t) => p
  }

  predicate Sized(n: nat, s: seq<Op>) {
    forall op | op in s :: |op.t| == n
  }

  // The element after the effects s, in this order.
  function Run(n: nat, s: seq<Op>): (e: Element)
    requires Sized(n, s)
    ensures |e.current| == n
  {
    if s == [] then Fresh(n) else Effect(Run(n, s[..|s| - 1]), s[|s| - 1])
  }

  /******* What a set of effects means, whatever their order *******/

  // c is the least clock that knows everything the effects know.
  ghost predicate IsJoin(n: nat, s: seq<Op>, c: Clock)
    requires Sized(n, s)
  {
    && |c| == n
    && (forall i | 0 <= i < n :: 0 <= c[i])
    && (forall op | op in s :: Leq(op.t, c))
    && (forall i | 0 <= i < n :: c[i] == 0 || exists op :: op in s && op.t[i] == c[i])
  }

  predicate AddAt(op: Op, c: Clock) { op.Add? && op.t == c }
  predicate IncAt(op: Op, c: Clock) { op.Inc? && op.t == c }

  ghost predicate IsPid(s: seq<Op>, c: Clock, pid: int) {
    && (forall op | op in s && AddAt(op, c) :: op.id <= pid)
    && (pid >= 0 ==> exists op :: op in s && AddAt(op, c) && op.id == pid)
    && (pid < 0 ==> pid == if exists op :: op in s && IncAt(op, c) then PID_WAIT_INNATE else PID_NEXIST)
  }

  // The sum of the increments that saw exactly the removes in c.
  function Total(s: seq<Op>, c: Clock): real {
    if s == [] then 0.0
    else Total(s[..|s| - 1], c) + (if IncAt(s[|s| - 1], c) then s[|s| - 1].v else 0.0)
  }

  ghost predicate IsInnate(s: seq<Op>, c: Clock, pid: int, x: real) {
    if pid >= 0 then exists op :: op in s && AddAt(op, c) && op.id == pid && op.v == x else x == 0.0
  }

  // Everything but the clock, given the clock.
  ghost predicate ValueAt(s: seq<Op>, c: Clock, e: Element) {
    && IsPid(s, c, e.pid)
    && IsInnate(s, c, e.pid, e.innate)
    && e.acquired == Total(s, c)
    && e.shown == if e.Exists() then Some(e.innate + e.acquired) else None
  }

  /** e is what the effects s amount to. */
  ghost predicate Denotes(n: nat, s: seq<Op>, e: Element)
    requires Sized(n, s)
  {
    IsJoin(n, s, e.current) && ValueAt(s, e.current, e)
  }

  lemma {:induction false} TotalOfNone(s: seq<Op>, c: Clock)
    requires forall op | op in s :: !IncAt(op, c)
    ensures Total(s, c) == 0.0
  {
    if s != [] {
      TotalOfNone(s[..|s| - 1], c);
    }
  }

  // A clock above everything seen so far has no effects of its own yet.
  lemma NothingAbove(n: nat, s: seq<Op>, e: Element, c: Clock)
    requires Sized(n, s) && Denotes(n, s, e) && |c| == n && !Leq(c, e.current)
    ensures forall op | op in s :: op.t != c
    ensures Total(s, c) == 0.0
  {
    TotalOfNone(s, c);
  }

  lemma PurgeJoins(n: nat, s: seq<Op>, e: Element, op: Op)
    requires Sized(n, s + [op]) && Sized(n, s) && IsJoin(n, s, e.current) && |op.t| == n
    ensures IsJoin(n, s + [op], Purge(e, op.t).current)
  {
    var c := Purge(e, op.t).current;
    assert op in s + [op];
    forall i | 0 <= i < n && c[i] != 0 ensures exists o :: o in s + [op] && o.t[i] == c[i] {
      if c[i] == e.current[i] {
        var o :| o in s && o.t[i] == c[i];
        assert o in s + [op];
      }
    }
  }

  lemma PurgedValue(n: nat, s: seq<Op>, e: Element, t: Clock)
    requires Sized(n, s) && Denotes(n, s, e) && |t| == n
    ensures ValueAt(s, Purge(e, t).current, Purge(e, t))
  {
    if !Leq(t, e.current) {
      var i :| 0 <= i < n && e.current[i] < t[i];
      NothingAbove(n, s, e, Purge(e, t).current);
    }
  }

  lemma TotalSnoc(s: seq<Op>, op: Op, c: Clock)
    ensures Total(s + [op], c) == Total(s, c) + (if IncAt(op, c) then op.v else 0.0)
  {
    assert (s + [op])[..|s|] == s;
  }

  lemma ValueSnoc(s: seq<Op>, op: Op, p: Element)
    requires ValueAt(s, p.current, p) && |op.t| == |p.current| && Leq(op.t, p.current)
    ensures ValueAt(s + [op], p.current, Effect(p, op))
  {
    TotalSnoc(s, op, p.current);
    var all := s + [op];
    assert op in all && forall o | o in s :: o in all;
  }

  // Purging twice is purging once.
  lemma EffectOfPurged(e: Element, op: Op)
    requires |op.t| == |e.current|
    ensures Leq(op.t, Purge(e, op.t).current) && Effect(e, op) == Effect(Purge(e, op.t), op)
    ensures Effect(e, op).current == Purge(e, op.t).current
  {
  }

  lemma EffectDenotes(n: nat, s: seq<Op>, e: Element, op: Op)
    requires Sized(n, s + [op]) && Sized(n, s) && Denotes(n, s, e) && |op.t| == n
    ensures Denotes(n, s + [op], Effect(e, op))
  {
    PurgeJoins(n, s, e, op);
    PurgedValue(n, s, e, op.t);
    EffectOfPurged(e, op);
    ValueSnoc(s, op, Purge(e, op.t));
  }

  /** Applying effects one by one, in any order, yields what they amount to. */
  lemma {:induction false} RunDenotes(n: nat, s: seq<Op>)
    requires Sized(n, s)
    ensures Denotes(n, s, Run(n, s))
  {
    if s != [] {
      var before, op := s[..|s| - 1], s[|s| - 1];
      assert s == before + [op];
      RunDenotes(n, before);
      EffectDenotes(n, before, Run(n, before), op);
    }
  }
}
