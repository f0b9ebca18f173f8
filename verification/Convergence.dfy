/**
 Order independence of the remove-win effects: replicas that ran the same effects hold the
 same element, and exactly when that is so if the effects come from anywhere.
 */
module Convergence {
  import opened RemoveWin

  ghost predicate SameOps(s: seq<Op>, t: seq<Op>) {
    forall op :: op in s <==> op in t
  }

  lemma JoinUnique(n: nat, s: seq<Op>, t: seq<Op>, c: Clock, d: Clock)
    requires Sized(n, s) && Sized(n, t) && SameOps(s, t) && IsJoin(n, s, c) && IsJoin(n, t, d)
    ensures c == d
  {
    JoinBelow(n, s, t, c, d);
    JoinBelow(n, t, s, d, c);
    LeqAntisymmetric(c, d);
  }

  lemma JoinBelow(n: nat, s: seq<Op>, t: seq<Op>, c: Clock, d: Clock)
    requires Sized(n, s) && Sized(n, t) && SameOps(s, t) && IsJoin(n, s, c) && IsJoin(n, t, d)
    ensures Leq(c, d)
  {
    forall i | 0 <= i < n ensures c[i] <= d[i] {
      if c[i] != 0 {
        var op :| op in s && op.t[i] == c[i];
        assert op in t && Leq(op.t, d);
      }
    }
  }

  lemma PidUnique(s: seq<Op>, t: seq<Op>, c: Clock, p: int, q: int)
    requires SameOps(s, t) && IsPid(s, c, p) && IsPid(t, c, q)
    ensures p == q
  {
    if p >= 0 {
      var op :| op in s && AddAt(op, c) && op.id == p;
      assert op in t;
    }
    if q >= 0 {
      var op :| op in t && AddAt(op, c) && op.id == q;
      assert op in s;
    }
  }

  /** The header depends only on which effects arrived, not on their order or their number. */
  lemma HeaderIgnoresOrderAndDuplicates(n: nat, s: seq<Op>, t: seq<Op>)
    requires Sized(n, s) && Sized(n, t) && SameOps(s, t)
    ensures Run(n, s).current == Run(n, t).current && Run(n, s).pid == Run(n, t).pid
  {
    RunDenotes(n, s);
    RunDenotes(n, t);
    JoinUnique(n, s, t, Run(n, s).current, Run(n, t).current);
    PidUnique(s, t, Run(n, s).current, Run(n, s).pid, Run(n, t).pid);
  }

  lemma PermutationSameOps(s: seq<Op>, t: seq<Op>)
    requires multiset(s) == multiset(t)
    ensures SameOps(s, t) && |s| == |t|
  {
    forall op ensures op in s <==> op in t {
      assert op in s <==> op in multiset(s);
      assert op in t <==> op in multiset(t);
    }
    assert |multiset(s)| == |s| && |multiset(t)| == |t|;
  }

  function TermOf(op: Op, c: Clock): real { if IncAt(op, c) then op.v else 0.0 }

  lemma {:induction false} TotalRemove(s: seq<Op>, k: nat, c: Clock)
    requires k < |s|
    ensures Total(s, c) == Total(s[..k] + s[k + 1..], c) + TermOf(s[k], c)
    decreases |s|
  {
    var last := |s| - 1;
    if k < last {
      TotalRemove(s[..last], k, c);
      assert s[..last][..k] == s[..k] && s[..last][k + 1..] == s[k + 1..last];
      var rest := s[..k] + s[k + 1..];
      assert rest[..|rest| - 1] == s[..k] + s[k + 1..last];
      assert rest[|rest| - 1] == s[last];
    } else {
      assert s[..k] + s[k + 1..] == s[..last];
    }
  }

  lemma MultisetRemove<T>(t: seq<T>, k: nat)
    requires k < |t|
    ensures multiset(t) == multiset(t[..k] + t[k + 1..]) + multiset{t[k]}
  {
    assert t == t[..k] + ([t[k]] + t[k + 1..]);
    assert multiset(t) == multiset(t[..k]) + multiset([t[k]]) + multiset(t[k + 1..]);
  }

  // Where the last element of s sits in a permutation of s.
  lemma FindLast<T>(s: seq<T>, t: seq<T>) returns (k: nat)
    requires multiset(s) == multiset(t) && s != []
    ensures k < |t| && t[k] == s[|s| - 1]
    ensures multiset(t[..k] + t[k + 1..]) == multiset(s[..|s| - 1])
  {
    var last := |s| - 1;
    assert s[last] in multiset(t);
    k :| 0 <= k < |t| && t[k] == s[last];
    MultisetRemove(t, k);
    MultisetRemove(s, last);
    assert s[..last] + s[last + 1..] == s[..last];
    CancelOne(multiset(t[..k] + t[k + 1..]), multiset(s[..last]), s[last]);
  }

  lemma CancelOne<T>(a: multiset<T>, b: multiset<T>, x: T)
    requires a + multiset{x} == b + multiset{x}
    ensures a == b
  {
    assert a == (a + multiset{x}) - multiset{x};
    assert b == (b + multiset{x}) - multiset{x};
  }

  lemma {:induction false} TotalPermutes(s: seq<Op>, t: seq<Op>, c: Clock)
    requires multiset(s) == multiset(t)
    ensures Total(s, c) == Total(t, c)
    decreases |s|
  {
    if s == [] {
      assert |multiset(t)| == |t|;
    } else {
      var k := FindLast(s, t);
      TotalPermutes(s[..|s| - 1], t[..k] + t[k + 1..], c);
      TotalRemove(t, k, c);
    }
  }

  /******* Ties *******/

  // a is an add that sets the element: it saw every remove and has the largest id.
  ghost predicate Winner(s: seq<Op>, c: Clock, a: Op) {
    a in s && AddAt(a, c) && forall o | o in s && AddAt(o, c) :: o.id <= a.id
  }

  // The winning adds agree on the value.
  ghost predicate Decided(n: nat, s: seq<Op>)
    requires Sized(n, s)
  {
    forall a, b | Winner(s, JoinAll(n, s), a) && Winner(s, JoinAll(n, s), b) :: a.v == b.v
  }

  function JoinAll(n: nat, s: seq<Op>): (c: Clock)
    requires Sized(n, s)
    ensures |c| == n
  {
    if s == [] then Zero(n) else Join(JoinAll(n, s[..|s| - 1]), s[|s| - 1].t)
  }

  lemma {:induction false} RunJoins(n: nat, s: seq<Op>)
    requires Sized(n, s)
    ensures Run(n, s).current == JoinAll(n, s)
  {
    if s != [] {
      var before, op := s[..|s| - 1], s[|s| - 1];
      RunJoins(n, before);
      EffectOfPurged(Run(n, before), op);
      if Leq(op.t, Run(n, before).current) {
        assert Join(JoinAll(n, before), op.t) == JoinAll(n, before);
      }
    }
  }

  lemma PermutedSized(n: nat, s: seq<Op>, t: seq<Op>)
    requires Sized(n, s) && SameOps(s, t)
    ensures Sized(n, t)
  {
  }

  lemma InnateUnique(s: seq<Op>, t: seq<Op>, c: Clock, pid: int, x: real, y: real)
    requires SameOps(s, t) && IsPid(s, c, pid) && IsInnate(s, c, pid, x) && IsInnate(t, c, pid, y)
    requires forall a, b | Winner(s, c, a) && Winner(s, c, b) :: a.v == b.v
    ensures x == y
  {
    if pid >= 0 {
      var a :| a in s && AddAt(a, c) && a.id == pid && a.v == x;
      var b :| b in t && AddAt(b, c) && b.id == pid && b.v == y;
      assert Winner(s, c, a) && Winner(s, c, b);
    }
  }

  // A multiset of effects with agreeing winners denotes one element only.
  lemma DenotesUnique(n: nat, s: seq<Op>, t: seq<Op>, e: Element, f: Element)
    requires Sized(n, s) && Sized(n, t) && multiset(s) == multiset(t)
    requires Denotes(n, s, e) && Denotes(n, t, f)
    requires forall a, b | Winner(s, e.current, a) && Winner(s, e.current, b) :: a.v == b.v
    ensures e == f
  {
    PermutationSameOps(s, t);
    JoinUnique(n, s, t, e.current, f.current);
    PidUnique(s, t, e.current, e.pid, f.pid);
    TotalPermutes(s, t, e.current);
    InnateUnique(s, t, e.current, e.pid, e.innate, f.innate);
  }

  /** Replicas that ran the same effects, each once, hold the same element. */
  lemma Converges(n: nat, s: seq<Op>, t: seq<Op>)
    requires Sized(n, s) && Sized(n, t) && multiset(s) == multiset(t) && Decided(n, s)
    ensures Run(n, s) == Run(n, t)
  {
    RunDenotes(n, s);
    RunDenotes(n, t);
    RunJoins(n, s);
    DenotesUnique(n, s, t, Run(n, s), Run(n, t));
  }

  /******* Without agreement on ties *******/

  // With a winning add in front, its value is the one that stays.
  lemma {:induction false} FirstWinnerStays(n: nat, s: seq<Op>, c: Clock, k: nat)
    requires Sized(n, s) && 0 < k <= |s|
    requires |c| == n && (forall op | op in s :: Leq(op.t, c)) && (forall i | 0 <= i < n :: 0 <= c[i])
    requires Winner(s, c, s[0])
    ensures Run(n, s[..k]).current == c && Run(n, s[..k]).pid == s[0].id && Run(n, s[..k]).innate == s[0].v
    decreases k
  {
    assert s[..k][..k - 1] == s[..k - 1] && s[..k][k - 1] == s[k - 1];
    if k == 1 {
      assert Run(n, s[..1]) == Effect(Fresh(n), s[0]);
      FirstEffect(n, s[0]);
    } else {
      FirstWinnerStays(n, s, c, k - 1);
      assert s[k - 1] in s;
    }
  }

  lemma FirstEffect(n: nat, a: Op)
    requires a.Add? && |a.t| == n && forall i | 0 <= i < n :: 0 <= a.t[i]
    ensures var e := Effect(Fresh(n), a); e.current == a.t && e.pid == a.id && e.innate == a.v
  {
    if Leq(a.t, Zero(n)) {
      assert a.t == Zero(n);
    } else {
      assert Join(Zero(n), a.t) == a.t;
    }
  }

  lemma MoveToFront(s: seq<Op>, k: nat) returns (t: seq<Op>)
    requires k < |s|
    ensures |t| == |s| && t[0] == s[k] && multiset(t) == multiset(s)
  {
    t := [s[k]] + (s[..k] + s[k + 1..]);
    MultisetRemove(s, k);
  }

  lemma RunWithWinnerInFront(n: nat, s: seq<Op>, a: Op) returns (t: seq<Op>)
    requires Sized(n, s) && Winner(s, JoinAll(n, s), a)
    ensures Sized(n, t) && multiset(t) == multiset(s) && Run(n, t).innate == a.v
  {
    var k :| 0 <= k < |s| && s[k] == a;
    t := MoveToFront(s, k);
    PermutationSameOps(s, t);
    PermutedSized(n, s, t);
    RunDenotes(n, s);
    RunJoins(n, s);
    var c := JoinAll(n, s);
    assert forall op | op in t :: op in s;
    assert Winner(t, c, t[0]);
    FirstWinnerStays(n, t, c, |t|);
    assert t[..|t|] == t;
  }

  /** Every order of the effects gives the same element exactly when the winning adds agree. */
  lemma ConvergesExactlyWhenDecided(n: nat, s: seq<Op>)
    requires Sized(n, s)
    ensures (forall t | Sized(n, t) && multiset(t) == multiset(s) :: Run(n, t) == Run(n, s)) <==> Decided(n, s)
  {
    if Decided(n, s) {
      forall t | Sized(n, t) && multiset(t) == multiset(s) ensures Run(n, t) == Run(n, s) {
        Converges(n, s, t);
      }
    } else {
      var a, b :| Winner(s, JoinAll(n, s), a) && Winner(s, JoinAll(n, s), b) && a.v != b.v;
      var t := RunWithWinnerInFront(n, s, a);
      var u := RunWithWinnerInFront(n, s, b);
      assert Run(n, t) != Run(n, u);
    }
  }

  /******* The bare checks, under causal delivery *******/

  // addCheck, updateCheck and removeCheck alone: adds and increments do not purge first.
  function BareEffect(e: Element, op: Op): (r: Element)
    requires |op.t| == |e.current|
    ensures |r.current| == |e.current|
  {
    if op.Rmv? || Leq(op.t, e.current) then Effect(e, op) else e
  }

  function BareRun(n: nat, s: seq<Op>): (e: Element)
    requires Sized(n, s)
    ensures |e.current| == n
  {
    if s == [] then Fresh(n) else BareEffect(BareRun(n, s[..|s| - 1]), s[|s| - 1])
  }

  function JoinRemoves(n: nat, s: seq<Op>): (c: Clock)
    requires Sized(n, s)
    ensures |c| == n
  {
    if s == [] then Zero(n)
    else if s[|s| - 1].Rmv? then Join(JoinRemoves(n, s[..|s| - 1]), s[|s| - 1].t)
    else JoinRemoves(n, s[..|s| - 1])
  }

  // Every remove an operation knows was delivered before it.
  predicate Causal(n: nat, s: seq<Op>)
    requires Sized(n, s)
  {
    if s == [] then true
    else
      var before, op := s[..|s| - 1], s[|s| - 1];
      Causal(n, before) && (op.Rmv? || Leq(op.t, JoinRemoves(n, before)))
  }

  /** Under causal delivery the bare checks do what the purging effects do, and only removes move the clock. */
  lemma {:induction false} CausalDeliveryNeedsNoPurge(n: nat, s: seq<Op>)
    requires Sized(n, s) && Causal(n, s)
    ensures BareRun(n, s) == Run(n, s) && Run(n, s).current == JoinRemoves(n, s)
  {
    if s != [] {
      var before, op := s[..|s| - 1], s[|s| - 1];
      CausalDeliveryNeedsNoPurge(n, before);
      EffectOfPurged(Run(n, before), op);
      if op.Rmv? && Leq(op.t, JoinRemoves(n, before)) {
        assert Join(JoinRemoves(n, before), op.t) == JoinRemoves(n, before);
      }
    }
  }

  lemma CausalReplicasConverge(n: nat, s: seq<Op>, t: seq<Op>)
    requires Sized(n, s) && Sized(n, t) && Causal(n, s) && Causal(n, t)
    requires multiset(s) == multiset(t) && Decided(n, s)
    ensures BareRun(n, s) == BareRun(n, t)
  {
    CausalDeliveryNeedsNoPurge(n, s);
    CausalDeliveryNeedsNoPurge(n, t);
    Converges(n, s, t);
  }

  /** Without causal delivery the bare checks diverge: an add that overtakes a remove it knows is lost. */
  lemma BareChecksNeedCausality(v: real)
    ensures Sized(1, [Rmv([1]), Add([1], 0, v)]) && BareRun(1, [Rmv([1]), Add([1], 0, v)]).pid == 0
    ensures Sized(1, [Add([1], 0, v), Rmv([1])]) && BareRun(1, [Add([1], 0, v), Rmv([1])]).pid == PID_NEXIST
  {
    var r, a := Rmv([1]), Add([1], 0, v);
    assert [r, a][..1] == [r] && [a, r][..1] == [a];
    assert BareRun(1, []) == Fresh(1) && Zero(1) == [0] && Join([0], [1]) == [1];
    assert [r][..0] == [] && [a][..0] == [];
    assert BareRun(1, [r]).current == [1];
    assert BareRun(1, [a]) == Fresh(1);
  }
}
