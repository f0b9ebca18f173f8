/**
 Position identifiers of the replicated list. A new element gets an identifier strictly
 between those of its neighbours, and every replica keeps its list sorted by identifier.
 */
module ListPositions {
  import opened Options

  const BASE := 0x1000000
  const RDM_STEP := 128

  datatype Position = Position(pos: int, pid: int, count: int)

  type Leid = seq<Position>

  /******* Order *******/

  function PosCmp(a: Position, b: Position): int {
    if a.pos != b.pos then a.pos - b.pos
    else if a.pid != b.pid then a.pid - b.pid
    else a.count - b.count
  }

  // The first place where a and b differ, or the length of the shorter one.
  function FirstDifference(a: Leid, b: Leid, i: nat): (d: nat)
    requires i <= |a| && i <= |b|
    ensures i <= d <= |a| && d <= |b|
    ensures forall j | i <= j < d :: a[j] == b[j]
    ensures d < |a| && d < |b| ==> a[d] != b[d]
    decreases |a| - i
  {
    if i == |a| || i == |b| || a[i] != b[i] then i else FirstDifference(a, b, i + 1)
  }

  function LeidCmp(a: Leid, b: Leid): int {
    var d := FirstDifference(a, b, 0);
    if d == |a| || d == |b| then |a| - |b| else PosCmp(a[d], b[d])
  }

  predicate Before(a: Leid, b: Leid) { LeidCmp(a, b) < 0 }

  // The order decided at place d.
  lemma DecidedAt(a: Leid, b: Leid, d: nat)
    requires d <= |a| && d <= |b| && a[..d] == b[..d]
    requires (d < |a| && d < |b| && PosCmp(a[d], b[d]) < 0) || (d == |a| && d < |b|)
    ensures Before(a, b)
  {
    var f := FirstDifference(a, b, 0);
    assert forall j | 0 <= j < d :: a[j] == a[..d][j] && b[j] == b[..d][j];
    assert f == d;
  }

  lemma BeforeDecides(a: Leid, b: Leid) returns (d: nat)
    requires Before(a, b)
    ensures d <= |a| && d < |b| && a[..d] == b[..d]
    ensures d < |a| ==> PosCmp(a[d], b[d]) < 0
  {
    d := FirstDifference(a, b, 0);
  }

  lemma BeforeTotal(a: Leid, b: Leid)
    ensures !Before(a, a)
    ensures a != b ==> Before(a, b) || Before(b, a)
    ensures !(Before(a, b) && Before(b, a))
  {
    assert FirstDifference(a, a, 0) == |a|;
    var d := FirstDifference(a, b, 0);
    var e := FirstDifference(b, a, 0);
    assert e == d;
    assert d == |a| && d == |b| ==> a == b;
  }

  lemma BeforeTransitive(a: Leid, b: Leid, c: Leid)
    requires Before(a, b) && Before(b, c)
    ensures Before(a, c)
  {
    var d := BeforeDecides(a, b);
    var e := BeforeDecides(b, c);
    var m := if d < e then d else e;
    assert forall j | 0 <= j < d :: a[j] == a[..d][j] && b[j] == b[..d][j];
    assert forall j | 0 <= j < e :: b[j] == b[..e][j] && c[j] == c[..e][j];
    assert a[..m] == c[..m];
    DecidedAt(a, c, m);
  }

  method CompareLeid(a: Leid, b: Leid) returns (r: int)
    ensures r == LeidCmp(a, b)
  {
    var n := if |a| < |b| then |a| else |b|;
    var i := 0;
    while i < n && PosCmp(a[i], b[i]) == 0
      invariant i <= n
      invariant FirstDifference(a, b, 0) == FirstDifference(a, b, i)
    {
      i := i + 1;
    }
    if i == n {
      return |a| - |b|;
    }
    return PosCmp(a[i], b[i]);
  }

  /******* New identifiers *******/

  // Places beyond the end count as 0 on the left and as BASE on the right.
  function LeftAt(p: Option<Leid>, i: nat): int {
    if p.None? || i >= |p.value| then 0 else p.value[i].pos
  }

  function RightAt(q: Option<Leid>, i: nat): int {
    if q.None? || i >= |q.value| then BASE else q.value[i].pos
  }

  // What constructLeid builds: places in range, padding all zero, and never padding at the end.
  predicate WellFormed(a: Leid) {
    && |a| > 0
    && (forall i | 0 <= i < |a| :: 0 <= a[i].pos < BASE && (a[i].pos == 0 ==> a[i] == Position(0, 0, 0)))
    && a[|a| - 1].pos > 0
  }

  predicate WellFormedOrNone(p: Option<Leid>) { p.Some? ==> WellFormed(p.value) }

  predicate Between(p: Option<Leid>, r: Leid, q: Option<Leid>) {
    && (p.Some? ==> Before(p.value, r))
    && (q.Some? ==> Before(r, q.value))
  }

  predicate Ordered(p: Option<Leid>, q: Option<Leid>) { p.Some? && q.Some? ==> Before(p.value, q.value) }

  function PaddedAt(p: Option<Leid>, i: nat): Position {
    if p.None? || i >= |p.value| then Position(0, 0, 0) else p.value[i]
  }

  function Sum(v: seq<int>): int {
    if v == [] then 0 else Sum(v[..|v| - 1]) + v[|v| - 1]
  }

  /** constructLeid: t and self are the list clock and the replica's id, rnd stands for rand(). */
  method ConstructLeid(p: Option<Leid>, q: Option<Leid>, t: seq<int>, self: int, rnd: nat) returns (r: Leid)
    requires WellFormedOrNone(p) && WellFormedOrNone(q)
    ensures WellFormed(r) && (p.Some? ==> Before(p.value, r)) && (Ordered(p, q) ==> Between(p, r, q))
    ensures r[|r| - 1].pid == self && r[|r| - 1].count == Sum(t)
  {
    var index, count := 0, 0;
    for i := 0 to |t|
      invariant count == Sum(t[..i])
    {
      assert t[..i + 1][..i] == t[..i];
      count := count + t[i];
    }
    assert t[..|t|] == t;
    ghost var longest := Longest(p, q);
    while RightAt(q, index) - LeftAt(p, index) < 2
      invariant index <= longest
      invariant forall i | 0 <= i < index :: RightAt(q, i) - LeftAt(p, i) < 2
      decreases longest - index
    {
      index := index + 1;
    }
    var left, right := LeftAt(p, index), RightAt(q, index);
    r := [];
    for i := 0 to index
      invariant |r| == i && forall j | 0 <= j < i :: r[j] == PaddedAt(p, j)
    {
      r := r + [PaddedAt(p, i)];
    }
    var step := right - left - 2;
    if step != 0 {
      step := if step < RDM_STEP then rnd % step else rnd % RDM_STEP;
    }
    r := r + [Position(left + step + 1, self, count)];
    ConstructedBetween(p, q, r, index);
  }

  ghost function Longest(p: Option<Leid>, q: Option<Leid>): nat {
    var a := if p.None? then 0 else |p.value|;
    var b := if q.None? then 0 else |q.value|;
    if a < b then b else a
  }

  // The identifier copies p up to the first place with room and lands in that room.
  lemma ConstructedBetween(p: Option<Leid>, q: Option<Leid>, r: Leid, index: nat)
    requires WellFormedOrNone(p) && WellFormedOrNone(q)
    requires |r| == index + 1 && forall j | 0 <= j < index :: r[j] == PaddedAt(p, j)
    requires LeftAt(p, index) < r[index].pos < RightAt(q, index)
    requires forall i | 0 <= i < index :: RightAt(q, i) - LeftAt(p, i) < 2
    ensures WellFormed(r) && (p.Some? ==> Before(p.value, r)) && (Ordered(p, q) ==> Between(p, r, q))
  {
    if p.Some? {
      AboveLeft(p.value, r, index);
    }
    if q.Some? && Ordered(p, q) {
      BelowRight(p, q.value, r, index);
    }
  }

  lemma AboveLeft(a: Leid, r: Leid, index: nat)
    requires WellFormed(a)
    requires |r| == index + 1 && forall j | 0 <= j < index :: r[j] == PaddedAt(Some(a), j)
    requires LeftAt(Some(a), index) < r[index].pos
    ensures Before(a, r)
  {
    var d := if index < |a| then index else |a|;
    assert a[..d] == r[..d];
    DecidedAt(a, r, d);
  }

  lemma BelowRight(p: Option<Leid>, b: Leid, r: Leid, index: nat)
    requires WellFormedOrNone(p) && WellFormed(b)
    requires p.Some? ==> Before(p.value, b)
    requires |r| == index + 1 && forall j | 0 <= j < index :: r[j] == PaddedAt(p, j)
    requires r[index].pos < RightAt(Some(b), index)
    requires forall i | 0 <= i < index :: RightAt(Some(b), i) - LeftAt(p, i) < 2
    ensures Before(r, b)
  {
    var d := if p.Some? then FirstDifference(p.value, b, 0) else 0;
    BelowRightFrom(p, b, r, index, d);
  }

  // p and b agree up to d; from there on r follows p's padding until b rises above it.
  lemma BelowRightFrom(p: Option<Leid>, b: Leid, r: Leid, index: nat, d: nat)
    requires WellFormedOrNone(p) && WellFormed(b)
    requires d < |b| && (p.None? ==> d == 0)
    requires p.Some? ==> Before(p.value, b) && d <= |p.value| && p.value[..d] == b[..d]
    requires p.Some? && d < |p.value| ==> PosCmp(p.value[d], b[d]) < 0
    requires |r| == index + 1 && forall j | 0 <= j < index :: r[j] == PaddedAt(p, j)
    requires r[index].pos < RightAt(Some(b), index)
    requires forall i | 0 <= i < index :: RightAt(Some(b), i) - LeftAt(p, i) < 2
    ensures Before(r, b)
  {
    if index <= d {
      assert r[..index] == b[..index] by {
        assert forall j | 0 <= j < index :: p.value[..d][j] == p.value[j] && b[..d][j] == b[j];
      }
      DecidedAt(r, b, index);
    } else if p.Some? && d < |p.value| {
      assert r[..d] == b[..d] by {
        assert forall j | 0 <= j < d :: p.value[..d][j] == p.value[j] && b[..d][j] == b[j];
      }
      DecidedAt(r, b, d);
    } else {
      var e := FirstNonZero(b, d);
      if e < index {
        assert r[..e] == b[..e] by {
          assert forall j | 0 <= j < d :: p.value[..d][j] == p.value[j] && b[..d][j] == b[j];
        }
        DecidedAt(r, b, e);
      } else {
        assert r[..index] == b[..index] by {
          assert forall j | 0 <= j < d :: p.value[..d][j] == p.value[j] && b[..d][j] == b[j];
        }
        DecidedAt(r, b, index);
      }
    }
  }

  // b does not end in padding, so it rises above zero somewhere.
  lemma FirstNonZero(b: Leid, d: nat) returns (e: nat)
    requires WellFormed(b) && d < |b|
    ensures d <= e < |b| && b[e].pos > 0 && forall j | d <= j < e :: b[j] == Position(0, 0, 0)
    decreases |b| - d
  {
    if b[d].pos > 0 {
      e := d;
    } else {
      e := FirstNonZero(b, d + 1);
    }
  }
}
