/**
 Replicas of the list. Clients insert named elements after others or at the front, or add removed ones again;
 inserts arrive everywhere in any order. Each replica links elements, removed or not, by their positions.
 */
module ReplicatedList {
  import opened Options
  import opened Words
  import opened ListPositions
  import opened SortedSequences
  import opened ListLinks

  // count is the sum of the list clock, which only this replica advances.
  datatype Replica = Replica(list: seq<Entry>, count: nat, log: seq<nat>)

  datatype State = State(replicas: seq<Replica>, issued: seq<Insert>)

  // A client inserts a new name after what it calls `word`, or adds one again.
  datatype Step =
    | Client(r: nat, word: string, name: Name, id: Leid)
    | Readd(r: nat, word: string, name: Name)
    | Deliver(r: nat, m: nat)

  // The table of elements also has a clock and a number; taken for elements, they are nothing defined.
  predicate Usable(w: Name) { w != "current" && w != "length" }

  // The words for no predecessor are compared up to the first zero byte.
  function UpToZero(w: string): string { w[..Find(w, '\0')] }

  predicate MeansFront(w: string) { UpToZero(w) == "null" }

  predicate MeansAgain(w: string) { UpToZero(w) == "readd" }

  // A word that finds nothing is sent in small letters.
  function Sent(l: seq<Entry>, word: string): Name { if Has(l, word) then word else Lower(word) }

  // What a client's command amounts to.
  function NewInsert(l: seq<Entry>, r: nat, word: string, name: Name, id: Leid): Insert {
    Insert(r, if Has(l, word) then Some(l[Lookup(l, word)].name) else None, Sent(l, word), name, id)
  }

  function LeftOf(l: seq<Entry>, ins: Insert): Option<Leid>
    requires ins.pre.Some? ==> Has(l, ins.after)
  {
    if ins.pre.None? then None else Some(l[Lookup(l, ins.after)].id)
  }

  // How many elements stand before the new one.
  function Below(l: seq<Entry>, ins: Insert): nat
    requires ins.pre.Some? ==> Has(l, ins.after)
  {
    if ins.pre.None? then 0 else Lookup(l, ins.after) + 1
  }

  function RightOf(l: seq<Entry>, ins: Insert): Option<Leid>
    requires ins.pre.Some? ==> Has(l, ins.after)
  {
    var i := Below(l, ins);
    if i < |l| then Some(l[i].id) else None
  }

  // The name is new here, its predecessor is found or is the word for none, and the position is what
  // ConstructLeid returns.
  predicate Insertable(rep: Replica, ins: Insert) {
    && !Has(rep.list, ins.name) && Usable(ins.name) && Usable(ins.after)
    && (if ins.pre.None? then MeansFront(ins.after)
        else !MeansAgain(ins.after) && Has(rep.list, ins.after)
             && ins.pre.value == rep.list[Lookup(rep.list, ins.after)].name)
    && WellFormed(ins.id) && Last(ins.id).pid == ins.origin && Last(ins.id).count == rep.count
    && (ins.pre.Some? ==> Before(LeftOf(rep.list, ins).value, ins.id))
    && (Ordered(LeftOf(rep.list, ins), RightOf(rep.list, ins)) ==>
          Between(LeftOf(rep.list, ins), ins.id, RightOf(rep.list, ins)))
  }

  predicate Readdable(rep: Replica, ins: Insert) {
    && Has(rep.list, ins.name) && Usable(ins.name) && ins.pre.None? && MeansAgain(ins.after)
    && ins.id == rep.list[Lookup(rep.list, ins.name)].id
  }

  function RunAt(s: State, r: nat, m: nat): State
    requires r < |s.replicas| && m < |s.issued|
  {
    var rep := s.replicas[r];
    var list := Place(rep.list, s.issued[m].after, EntryOf(s.issued[m]));
    s.(replicas := s.replicas[r := rep.(list := list, log := rep.log + [m])])
  }

  // The state once an insert is on its way and before it is linked anywhere.
  function Announced(s: State, ins: Insert, counts: bool): State
    requires ins.origin < |s.replicas|
  {
    var rep := s.replicas[ins.origin];
    State(s.replicas[ins.origin := rep.(count := if counts then rep.count + 1 else rep.count)], s.issued + [ins])
  }

  predicate Issues(s: State, ins: Insert, counts: bool) {
    && ins.origin < |s.replicas|
    && if counts then Insertable(s.replicas[ins.origin], ins) else Readdable(s.replicas[ins.origin], ins)
  }

  function Issued(s: State, ins: Insert, counts: bool): State {
    if Issues(s, ins, counts) then RunAt(Announced(s, ins, counts), ins.origin, |s.issued|) else s
  }

  // The insert that adds a known name again, at the position it has here.
  function Again(l: seq<Entry>, r: nat, word: string, name: Name): Insert
    requires Has(l, name)
  {
    Insert(r, None, Sent(l, word), name, l[Lookup(l, name)].id)
  }

  function Next(s: State, step: Step): (s': State)
    ensures |s'.replicas| == |s.replicas|
  {
    match step
    case Client(r, word, name, id) =>
      if r < |s.replicas| then Issued(s, NewInsert(s.replicas[r].list, r, word, name, id), true) else s
    case Readd(r, word, name) =>
      if r < |s.replicas| && Has(s.replicas[r].list, name) then
        Issued(s, Again(s.replicas[r].list, r, word, name), false)
      else s
    case Deliver(r, m) =>
      if r < |s.replicas| && m < |s.issued| && m !in s.replicas[r].log then RunAt(s, r, m) else s
  }

  function Exec(n: nat, steps: seq<Step>): (s: State)
    ensures |s.replicas| == n
  {
    if steps == [] then State(seq(n, _ => Replica([], 0, [])), [])
    else Next(Exec(n, steps[..|steps| - 1]), steps[|steps| - 1])
  }

  function Last(id: Leid): Position
    requires |id| > 0
  {
    id[|id| - 1]
  }

  /******* What every run keeps *******/

  // Positions end in the replica that made them and its insert count, so a position has one name.
  ghost predicate Made(s: State) {
    && (forall m | 0 <= m < |s.issued| ::
          WellFormed(s.issued[m].id) && 0 <= Last(s.issued[m].id).pid < |s.replicas|
          && Last(s.issued[m].id).count < s.replicas[Last(s.issued[m].id).pid].count)
    && (forall m, k | 0 <= m < |s.issued| && 0 <= k < |s.issued| && s.issued[m].id == s.issued[k].id ::
          s.issued[m].name == s.issued[k].name || s.issued[m].name == HEAD || s.issued[k].name == HEAD)
  }

  // The predecessor of an insert was itself inserted, at a position before it.
  ghost predicate Preceded(s: State, m: nat)
    requires m < |s.issued|
  {
    var ins := s.issued[m];
    if ins.pre.None? then MeansFront(ins.after) || MeansAgain(ins.after)
    else
      && (ins.after == ins.pre.value || ins.after == HEAD)
      && exists k :: 0 <= k < |s.issued| && s.issued[k].name == ins.pre.value && Before(s.issued[k].id, ins.id)
  }

  // Who issued an insert has the name at that position.
  ghost predicate Kept(s: State, m: nat)
    requires m < |s.issued|
  {
    var ins := s.issued[m];
    ins.origin < |s.replicas| && (ins.name != HEAD ==> EntryOf(ins) in s.replicas[ins.origin].list)
  }

  // A replica's list is what linking the inserts of its log gives.
  ghost predicate Heard(s: State, r: nat)
    requires r < |s.replicas|
  {
    InRange(s.issued, s.replicas[r].log) && s.replicas[r].list == LinkAll(s.issued, s.replicas[r].log)
  }

  ghost predicate Inv(s: State) {
    && Made(s)
    && (forall m | 0 <= m < |s.issued| :: Preceded(s, m) && Kept(s, m))
    && (forall r | 0 <= r < |s.replicas| :: Heard(s, r))
  }

  lemma {:induction false} LinkedWasRun(issued: seq<Insert>, order: seq<nat>, x: Entry)
    requires InRange(issued, order) && x in LinkAll(issued, order)
    ensures Ran(issued, order, x)
  {
    var k := |order| - 1;
    var l, m := LinkAll(issued, order[..k]), order[k];
    PlaceMembers(l, issued[m].after, EntryOf(issued[m]), x);
    RanMore(issued, order[..k], m, x);
    assert order == order[..k] + [m];
    if x in l {
      LinkedWasRun(issued, order[..k], x);
    }
  }

  lemma EntryIssued(s: State, r: nat, x: Entry) returns (k: nat)
    requires r < |s.replicas| && Heard(s, r) && x in s.replicas[r].list
    ensures k in s.replicas[r].log && k < |s.issued| && EntryOf(s.issued[k]) == x
  {
    LinkedWasRun(s.issued, s.replicas[r].log, x);
    k :| k in s.replicas[r].log && k < |s.issued| && x == EntryOf(s.issued[k]);
  }

  lemma RunAtKeeps(s: State, r: nat, m: nat)
    requires r < |s.replicas| && m < |s.issued| && Made(s)
    requires forall k | 0 <= k < |s.issued| :: Preceded(s, k)
    requires forall q | 0 <= q < |s.replicas| :: Heard(s, q)
    ensures Made(RunAt(s, r, m))
    ensures forall k | 0 <= k < |s.issued| :: Preceded(RunAt(s, r, m), k)
    ensures forall q | 0 <= q < |s.replicas| :: Heard(RunAt(s, r, m), q)
    ensures forall k | 0 <= k < |s.issued| && Kept(s, k) :: Kept(RunAt(s, r, m), k)
  {
    var s' := RunAt(s, r, m);
    forall q | 0 <= q < |s.replicas| ensures Heard(s', q) {
      assert Heard(s, q) && Heard(s, r);
      LinkOne(s.issued, s.replicas[r].log, m);
    }
    forall k | 0 <= k < |s.issued| ensures Preceded(s', k) { assert Preceded(s, k); }
    forall k | 0 <= k < |s.issued| && Kept(s, k) ensures Kept(s', k) {
      PlaceMembers(s.replicas[r].list, s.issued[m].after, EntryOf(s.issued[m]), EntryOf(s.issued[k]));
    }
  }

  // A new position is unlike all others, because nobody else counts for this replica.
  lemma NewPositionUnlike(s: State, ins: Insert, m: nat)
    requires Made(s) && Issues(s, ins, true) && m < |s.issued|
    ensures s.issued[m].id != ins.id
  {
    assert Last(s.issued[m].id).count < s.replicas[Last(s.issued[m].id).pid].count;
  }

  // A name that is added again keeps a position that was issued for it, or for the head.
  lemma AgainIssued(s: State, ins: Insert) returns (k: nat)
    requires Inv(s) && Issues(s, ins, false)
    ensures k < |s.issued| && s.issued[k].id == ins.id && (ins.name != HEAD ==> s.issued[k].name == ins.name)
  {
    var l := s.replicas[ins.origin].list;
    var x := l[Lookup(l, ins.name)];
    assert x in l && Heard(s, ins.origin);
    k := EntryIssued(s, ins.origin, x);
  }

  lemma AnnounceMade(s: State, ins: Insert, counts: bool)
    requires Inv(s) && Issues(s, ins, counts)
    ensures Made(Announced(s, ins, counts))
  {
    var s' := Announced(s, ins, counts);
    assert forall m | 0 <= m < |s.issued| :: s'.issued[m] == s.issued[m];
    if counts {
      forall m | 0 <= m < |s.issued| ensures s.issued[m].id != ins.id { NewPositionUnlike(s, ins, m); }
    } else {
      var k := AgainIssued(s, ins);
    }
  }

  lemma AnnouncePreceded(s: State, ins: Insert, counts: bool, m: nat)
    requires Inv(s) && Issues(s, ins, counts) && m <= |s.issued|
    ensures Preceded(Announced(s, ins, counts), m)
  {
    var s', l := Announced(s, ins, counts), s.replicas[ins.origin].list;
    assert forall k | 0 <= k < |s.issued| :: s'.issued[k] == s.issued[k];
    if m < |s.issued| {
      assert Preceded(s, m);
    } else if ins.pre.Some? {
      var x := l[Lookup(l, ins.after)];
      assert x in l && Heard(s, ins.origin);
      var k := EntryIssued(s, ins.origin, x);
      assert s'.issued[k].name == ins.pre.value && Before(s'.issued[k].id, ins.id);
    }
  }

  lemma AnnounceHeard(s: State, ins: Insert, counts: bool, q: nat)
    requires Issues(s, ins, counts) && q < |s.replicas| && Heard(s, q)
    ensures Heard(Announced(s, ins, counts), q)
  {
    LinkAllGrows(s.issued, [ins], s.replicas[q].log);
  }

  lemma IssueKeepsInv(s: State, ins: Insert, counts: bool)
    requires Inv(s) && Issues(s, ins, counts)
    ensures Inv(Issued(s, ins, counts))
  {
    var s1, k := Announced(s, ins, counts), |s.issued|;
    AnnounceMade(s, ins, counts);
    forall m | 0 <= m < |s1.issued| ensures Preceded(s1, m) { AnnouncePreceded(s, ins, counts, m); }
    forall q | 0 <= q < |s.replicas| ensures Heard(s1, q) { AnnounceHeard(s, ins, counts, q); }
    RunAtKeeps(s1, ins.origin, k);
    forall m | 0 <= m < |s1.issued| ensures Kept(RunAt(s1, ins.origin, k), m) {
      if m < k {
        assert Kept(s, m) && s1.issued[m] == s.issued[m];
        assert Kept(s1, m);
      } else {
        IssuerKeeps(s, ins, counts);
      }
    }
  }

  lemma IssuerKeeps(s: State, ins: Insert, counts: bool)
    requires Issues(s, ins, counts)
    ensures Kept(Issued(s, ins, counts), |s.issued|)
  {
    var l, e := s.replicas[ins.origin].list, EntryOf(ins);
    PlaceMembers(l, ins.after, e, e);
    if !counts && ins.name != HEAD {
      assert l[Lookup(l, ins.name)] == e;
    }
  }

  /** What every run of every number of replicas keeps. */
  lemma {:induction false} ExecKeepsInv(n: nat, steps: seq<Step>)
    ensures Inv(Exec(n, steps))
  {
    if steps != [] {
      var s, step := Exec(n, steps[..|steps| - 1]), steps[|steps| - 1];
      ExecKeepsInv(n, steps[..|steps| - 1]);
      NextKeepsInv(s, step);
    }
  }

  lemma NextKeepsInv(s: State, step: Step)
    requires Inv(s)
    ensures Inv(Next(s, step))
  {
    match step {
      case Client(r, word, name, id) =>
        if r < |s.replicas| && Issues(s, NewInsert(s.replicas[r].list, r, word, name, id), true) {
          IssueKeepsInv(s, NewInsert(s.replicas[r].list, r, word, name, id), true);
        }
      case Readd(r, word, name) =>
        if r < |s.replicas| && Has(s.replicas[r].list, name) {
          if Issues(s, Again(s.replicas[r].list, r, word, name), false) {
            IssueKeepsInv(s, Again(s.replicas[r].list, r, word, name), false);
          }
        }
      case Deliver(r, m) =>
        if r < |s.replicas| && m < |s.issued| && m !in s.replicas[r].log {
          RunAtKeeps(s, r, m);
        }
    }
  }

  /******* Settled inserts *******/

  ghost predicate AllSorted(s: State) { forall r | 0 <= r < |s.replicas| :: Sorted(Before, Ids(s.replicas[r].list)) }

  /** In any run whose inserts are settled every list is sorted, whatever order the inserts arrive in. */
  lemma ExecSorted(n: nat, steps: seq<Step>)
    requires Settled(Exec(n, steps).issued)
    ensures AllSorted(Exec(n, steps))
  {
    var s := Exec(n, steps);
    ExecKeepsInv(n, steps);
    forall r | 0 <= r < n ensures Sorted(Before, Ids(s.replicas[r].list)) {
      assert Heard(s, r);
      LinkAllSorted(s.issued, s.replicas[r].log);
    }
  }

  ghost predicate SameLog(s: State, p: nat, q: nat)
    requires p < |s.replicas| && q < |s.replicas|
  {
    SameInserts(s.replicas[p].log, s.replicas[q].log)
  }

  /** In such a run replicas that have the same inserts hold the same list. */
  lemma SameInsertsSameList(n: nat, steps: seq<Step>, p: nat, q: nat)
    requires Settled(Exec(n, steps).issued) && p < n && q < n && SameLog(Exec(n, steps), p, q)
    ensures Exec(n, steps).replicas[p].list == Exec(n, steps).replicas[q].list
  {
    var s := Exec(n, steps);
    ExecKeepsInv(n, steps);
    assert Heard(s, p) && Heard(s, q);
    SettledOrdersAgree(s.issued, s.replicas[p].log, s.replicas[q].log);
  }

  /** In such a run an element stands, everywhere and forever, after the element it was inserted after. */
  lemma InsertIntentionKept(n: nat, steps: seq<Step>, r: nat, m: nat, i: nat, j: nat)
    requires Settled(Exec(n, steps).issued) && r < n && m < |Exec(n, steps).issued|
    requires Exec(n, steps).issued[m].pre.Some?
    requires i < |Exec(n, steps).replicas[r].list| && j < |Exec(n, steps).replicas[r].list|
    requires Exec(n, steps).replicas[r].list[i].name == Exec(n, steps).issued[m].pre.value
    requires Exec(n, steps).replicas[r].list[j].name == Exec(n, steps).issued[m].name
    ensures i < j
  {
    var s := Exec(n, steps);
    var l, ins := s.replicas[r].list, s.issued[m];
    ExecKeepsInv(n, steps);
    ExecSorted(n, steps);
    assert Preceded(s, m) && Heard(s, r) && l[i] in l && l[j] in l;
    var x := EntryIssued(s, r, l[i]);
    var y := EntryIssued(s, r, l[j]);
    var k :| 0 <= k < |s.issued| && s.issued[k].name == ins.pre.value && Before(s.issued[k].id, ins.id);
    StandsAfter(l, i, j, s.issued[k].id, ins.id);
  }

  lemma StandsAfter(l: seq<Entry>, i: nat, j: nat, a: Leid, b: Leid)
    requires Sorted(Before, Ids(l)) && i < |l| && j < |l| && l[i].id == a && l[j].id == b && Before(a, b)
    ensures i < j
  {
    BeforeTotal(a, b);
    assert Ids(l)[i] == a && Ids(l)[j] == b;
  }

  /** Where it is inserted, in a sorted list, an element stands immediately after its predecessor. */
  lemma InsertedRightAfter(rep: Replica, ins: Insert)
    requires Insertable(rep, ins) && Sorted(Before, Ids(rep.list))
    ensures var i := Below(rep.list, ins);
      i <= |rep.list| && Place(rep.list, ins.after, EntryOf(ins)) == rep.list[..i] + [EntryOf(ins)] + rep.list[i..]
  {
    var l, i := rep.list, Below(rep.list, ins);
    var ids := Ids(l);
    if ins.pre.Some? {
      if i < |l| {
        assert Before(ids[i - 1], ids[i]);
        BeforeTotal(ins.id, l[i].id);
      }
      if i > 1 {
        assert Before(ids[0], ids[i - 1]);
        BeforeTransitive(ids[0], ids[i - 1], ins.id);
      }
      BeforeTotal(ins.id, l[0].id);
    }
  }

  /******* What each step does *******/

  // Only replica r has changed; it has run insert m.
  ghost predicate RanOnly(s: State, s': State, r: nat, m: nat) {
    && |s'.replicas| == |s.replicas| && r < |s.replicas| && s'.replicas[r].log == s.replicas[r].log + [m]
    && forall q | 0 <= q < |s.replicas| && q != r :: s'.replicas[q] == s.replicas[q]
  }

  /**
   A new name is linked, in a sorted list, right behind what the client's word finds, or at the front, and is
   broadcast with that word, its position and the next count.
   */
  lemma ClientInserts(s: State, r: nat, word: string, name: Name, id: Leid)
    requires r < |s.replicas| && Insertable(s.replicas[r], NewInsert(s.replicas[r].list, r, word, name, id))
    ensures var l, s' := s.replicas[r].list, Next(s, Client(r, word, name, id));
      var i := if Has(l, word) then Lookup(l, word) + 1 else 0;
      && RanOnly(s, s', r, |s.issued|) && s'.replicas[r].count == s.replicas[r].count + 1
      && s'.issued == s.issued + [Insert(r, if Has(l, word) then Some(l[Lookup(l, word)].name) else None,
                                         if Has(l, word) then word else Lower(word), name, id)]
      && i <= |l| && (Sorted(Before, Ids(l)) ==> s'.replicas[r].list == l[..i] + [Entry(name, id)] + l[i..])
  {
    var rep := s.replicas[r];
    if Sorted(Before, Ids(rep.list)) {
      InsertedRightAfter(rep, NewInsert(rep.list, r, word, name, id));
    }
  }

  /** It is refused if the name is found here, or if the word finds nothing and does not mean the front. */
  lemma ClientRefused(s: State, r: nat, word: string, name: Name, id: Leid)
    requires r < |s.replicas|
    requires Has(s.replicas[r].list, name) || (!Has(s.replicas[r].list, word) && UpToZero(Lower(word)) != "null")
    ensures Next(s, Client(r, word, name, id)) == s
  {
  }

  /** A known name is added again where it stands, exactly if the word asks for that; the list stays as it is. */
  lemma ReaddRepeats(s: State, r: nat, word: string, name: Name)
    requires r < |s.replicas|
    ensures var l, s' := s.replicas[r].list, Next(s, Readd(r, word, name));
      var sent := if Has(l, word) then word else Lower(word);
      if Has(l, name) && Usable(name) && UpToZero(sent) == "readd" then
        && RanOnly(s, s', r, |s.issued|) && s'.replicas[r].list == l && s'.replicas[r].count == s.replicas[r].count
        && s'.issued == s.issued + [Insert(r, None, sent, name, l[Lookup(l, name)].id)]
      else s' == s
  {
  }

  /** A delivered insert is run once, and links its element unless the name is found already. */
  lemma DeliverLinks(s: State, r: nat, m: nat)
    requires r < |s.replicas| && m < |s.issued| && m !in s.replicas[r].log
    ensures var l, s', e := s.replicas[r].list, Next(s, Deliver(r, m)), EntryOf(s.issued[m]);
      && s'.issued == s.issued && RanOnly(s, s', r, m) && s'.replicas[r].count == s.replicas[r].count
      && (Has(l, e.name) ==> s'.replicas[r].list == l)
      && (!Has(l, e.name) ==> |s'.replicas[r].list| == |l| + 1
                              && forall x :: x in s'.replicas[r].list <==> x in l || x == e)
  {
    var ins := s.issued[m];
    forall x ensures x in Place(s.replicas[r].list, ins.after, EntryOf(ins)) <==>
                     x in s.replicas[r].list || (x == EntryOf(ins) && !Has(s.replicas[r].list, ins.name))
    {
      PlaceMembers(s.replicas[r].list, ins.after, EntryOf(ins), x);
    }
  }

  /******* Further deliveries *******/

  predicate Deliveries(more: seq<Step>) { forall i | 0 <= i < |more| :: more[i].Deliver? }

  ghost predicate Agreeing(s: State) {
    forall p, q | 0 <= p < |s.replicas| && 0 <= q < |s.replicas| && SameLog(s, p, q) ::
      s.replicas[p].list == s.replicas[q].list
  }

  // The state that further steps lead to.
  function RunAll(s: State, more: seq<Step>): (s': State)
    ensures |s'.replicas| == |s.replicas|
  {
    if more == [] then s else Next(RunAll(s, more[..|more| - 1]), more[|more| - 1])
  }

  lemma {:induction false} ExecJoin(n: nat, steps: seq<Step>, more: seq<Step>)
    ensures Exec(n, steps + more) == RunAll(Exec(n, steps), more)
    decreases |more|
  {
    if more == [] {
      assert steps + more == steps;
    } else {
      var k := |more| - 1;
      ExecJoin(n, steps, more[..k]);
      assert (steps + more)[..|steps + more| - 1] == steps + more[..k] && (steps + more)[|steps + more| - 1] == more[k];
    }
  }

  lemma RunAllSnoc(s: State, more: seq<Step>, step: Step)
    ensures RunAll(s, more + [step]) == Next(RunAll(s, more), step)
  {
    assert (more + [step])[..|more|] == more;
  }

  // Deliveries issue nothing and forget nothing.
  ghost predicate Further(s: State, s': State) {
    && s'.issued == s.issued && |s'.replicas| == |s.replicas|
    && forall r, m | 0 <= r < |s.replicas| && m in s.replicas[r].log :: m in s'.replicas[r].log
  }

  lemma DeliverFurther(s: State, r: nat, m: nat)
    ensures Further(s, Next(s, Deliver(r, m)))
    ensures r < |s.replicas| && m < |s.issued| ==> m in Next(s, Deliver(r, m)).replicas[r].log
  {
  }

  lemma {:induction false} RunAllFurther(s: State, more: seq<Step>)
    requires Deliveries(more)
    ensures Further(s, RunAll(s, more))
    decreases |more|
  {
    if more != [] {
      var k := |more| - 1;
      RunAllFurther(s, more[..k]);
      DeliverFurther(RunAll(s, more[..k]), more[k].r, more[k].m);
    }
  }

  // However the rest is delivered, replicas that have the same inserts hold the same list.
  ghost predicate AlwaysAgreeing(n: nat, steps: seq<Step>) {
    forall more | Deliveries(more) :: Agreeing(Exec(n, steps + more))
  }

  lemma SettledAlwaysAgrees(n: nat, steps: seq<Step>)
    requires Settled(Exec(n, steps).issued)
    ensures AlwaysAgreeing(n, steps)
  {
    forall more | Deliveries(more) ensures Agreeing(Exec(n, steps + more)) {
      ExecJoin(n, steps, more);
      RunAllFurther(Exec(n, steps), more);
      var s := Exec(n, steps + more);
      forall p, q | 0 <= p < n && 0 <= q < n && SameLog(s, p, q) ensures s.replicas[p].list == s.replicas[q].list {
        SameInsertsSameList(n, steps + more, p, q);
      }
    }
  }

  /******* Deliveries to replicas that have heard nothing *******/

  function Delivered(r: nat, order: seq<nat>): (more: seq<Step>)
    ensures |more| == |order| && Deliveries(more)
  {
    seq(|order|, i requires 0 <= i < |order| => Deliver(r, order[i]))
  }

  // Replica r, which had heard nothing, has run these inserts in this order, and nothing else has happened.
  ghost predicate RanInOrder(s: State, r: nat, order: seq<nat>, t: State)
    requires r < |s.replicas|
  {
    && t.issued == s.issued && |t.replicas| == |s.replicas| && t.replicas[r].log == order
    && forall q | 0 <= q < |s.replicas| && q != r :: t.replicas[q] == s.replicas[q]
  }

  lemma DeliverOneMore(s: State, r: nat, order: seq<nat>, t: State, m: nat)
    requires r < |s.replicas| && RanInOrder(s, r, order, t) && m < |s.issued| && m !in order
    ensures RanInOrder(s, r, order + [m], Next(t, Deliver(r, m)))
  {
  }

  lemma {:induction false} DeliverInOrder(s: State, r: nat, order: seq<nat>)
    requires r < |s.replicas| && s.replicas[r].log == [] && InRange(s.issued, order) && Distinct(order)
    ensures RanInOrder(s, r, order, RunAll(s, Delivered(r, order)))
  {
    if order != [] {
      var k := |order| - 1;
      var rest, m := order[..k], order[k];
      DeliverInOrder(s, r, rest);
      assert m !in rest;
      DeliverOneMore(s, r, rest, RunAll(s, Delivered(r, rest)), m);
      assert Delivered(r, order) == Delivered(r, rest) + [Deliver(r, m)];
      RunAllSnoc(s, Delivered(r, rest), Deliver(r, m));
      assert order == rest + [m];
    }
  }

  lemma {:induction false} RunAllJoin(s: State, a: seq<Step>, b: seq<Step>)
    ensures RunAll(s, a + b) == RunAll(RunAll(s, a), b)
    decreases |b|
  {
    if b == [] {
      assert a + b == a;
    } else {
      RunAllJoin(s, a, b[..|b| - 1]);
      assert (a + b)[..|a + b| - 1] == a + b[..|b| - 1];
    }
  }

  // Two such replicas can be given any two orders of the inserts.
  lemma DeliverTwoOrders(s: State, p: nat, q: nat, a: seq<nat>, b: seq<nat>)
    requires p < |s.replicas| && q < |s.replicas| && p != q && s.replicas[p].log == s.replicas[q].log == []
    requires InRange(s.issued, a) && InRange(s.issued, b) && Distinct(a) && Distinct(b)
    ensures var t := RunAll(s, Delivered(p, a) + Delivered(q, b));
      t.issued == s.issued && t.replicas[p].log == a && t.replicas[q].log == b
  {
    DeliverInOrder(s, p, a);
    DeliverInOrder(RunAll(s, Delivered(p, a)), q, b);
    RunAllJoin(s, Delivered(p, a), Delivered(q, b));
  }

  lemma UnsettledDisagrees(n: nat, steps: seq<Step>, p: nat, q: nat)
    requires p < n && q < n && p != q && Exec(n, steps).replicas[p].log == Exec(n, steps).replicas[q].log == []
    requires !Settled(Exec(n, steps).issued)
    ensures !AlwaysAgreeing(n, steps)
  {
    var s := Exec(n, steps);
    var a, b := UnsettledOrders(s.issued);
    var more := Delivered(p, a) + Delivered(q, b);
    DeliverTwoOrders(s, p, q, a, b);
    ExecJoin(n, steps, more);
    ExecKeepsInv(n, steps + more);
    var t := Exec(n, steps + more);
    assert Heard(t, p) && Heard(t, q) && SameLog(t, p, q);
    assert Deliveries(more) && !Agreeing(t);
  }

  /**
   After any run in which two replicas have heard nothing yet: however the inserts are delivered, replicas that
   have the same ones hold the same list, exactly if the inserts are settled.
   */
  lemma AgreeExactlyWhenSettled(n: nat, steps: seq<Step>, p: nat, q: nat)
    requires p < n && q < n && p != q && Exec(n, steps).replicas[p].log == Exec(n, steps).replicas[q].log == []
    ensures AlwaysAgreeing(n, steps) <==> Settled(Exec(n, steps).issued)
  {
    if Settled(Exec(n, steps).issued) {
      SettledAlwaysAgrees(n, steps);
    } else {
      UnsettledDisagrees(n, steps, p, q);
    }
  }

  /******* Ordinary names *******/

  // A name that no insert sends as the word for something else.
  predicate Ordinary(name: Name) { !MeansFront(name) && !MeansAgain(name) && name != HEAD }

  ghost predicate OrdinaryNames(issued: seq<Insert>) { forall m | 0 <= m < |issued| :: Ordinary(issued[m].name) }

  predicate OrdinarySteps(steps: seq<Step>) {
    forall i | 0 <= i < |steps| && !steps[i].Deliver? :: Ordinary(steps[i].name)
  }

  // A step issues at most one insert, with the name the client gave.
  lemma StepIssues(s: State, step: Step)
    ensures Next(s, step).issued == s.issued
         || (!step.Deliver? && exists ins :: Next(s, step).issued == s.issued + [ins] && ins.name == step.name)
  {
  }

  // What clients can see to: they give elements ordinary names.
  lemma {:induction false} OrdinaryStepsIssue(n: nat, steps: seq<Step>)
    requires OrdinarySteps(steps)
    ensures OrdinaryNames(Exec(n, steps).issued)
  {
    if steps != [] {
      OrdinaryStepsIssue(n, steps[..|steps| - 1]);
      StepIssues(Exec(n, steps[..|steps| - 1]), steps[|steps| - 1]);
    }
  }

  // Then a word that finds an element is the name of the predecessor, which stands before.
  lemma OrdinaryNotMisled(s: State, j: nat, k: nat, m: nat)
    requires Inv(s) && OrdinaryNames(s.issued) && OnePosition(s.issued)
    ensures !Misled(s.issued, j, k, m)
  {
    if Misled(s.issued, j, k, m) {
      var ins := s.issued[m];
      assert Preceded(s, m) && Ordinary(s.issued[k].name);
      var i :| 0 <= i < |s.issued| && s.issued[i].name == ins.pre.value && Before(s.issued[i].id, ins.id);
      BeforeTotal(s.issued[k].id, ins.id);
      assert false;
    }
  }

  lemma OrdinarySettled(n: nat, steps: seq<Step>)
    requires OrdinaryNames(Exec(n, steps).issued)
    ensures Settled(Exec(n, steps).issued) <==> OnePosition(Exec(n, steps).issued)
  {
    var s := Exec(n, steps);
    ExecKeepsInv(n, steps);
    if OnePosition(s.issued) {
      forall j, k, m ensures !Misled(s.issued, j, k, m) { OrdinaryNotMisled(s, j, k, m); }
    }
  }

  /******* Names with two positions *******/

  ghost predicate DistinctNames(l: seq<Entry>) { forall i, j | 0 <= i < j < |l| :: l[i].name != l[j].name }

  lemma PlaceKeepsNamesDistinct(l: seq<Entry>, after: Name, e: Entry)
    requires DistinctNames(l)
    ensures DistinctNames(Place(l, after, e))
  {
    if !Has(l, e.name) {
      forall i | 0 <= i < |l| ensures l[i].name != e.name {
        if e.name != HEAD {
          assert l[i] in l;
          HasMember(l, e.name);
        }
      }
    }
  }

  lemma {:induction false} LinkedNamesDistinct(issued: seq<Insert>, order: seq<nat>)
    requires InRange(issued, order)
    ensures DistinctNames(LinkAll(issued, order))
  {
    if order != [] {
      var k := |order| - 1;
      LinkedNamesDistinct(issued, order[..k]);
      PlaceKeepsNamesDistinct(LinkAll(issued, order[..k]), issued[order[k]].after, EntryOf(issued[order[k]]));
    }
  }

  lemma OneEntryPerName(l: seq<Entry>, x: Entry, y: Entry)
    requires DistinctNames(l) && x in l && y in l && x.name == y.name
    ensures x == y
  {
    var i :| 0 <= i < |l| && l[i] == x;
    var j :| 0 <= j < |l| && l[j] == y;
    assert i == j;
  }

  ghost predicate HasFirst(s: State, r: nat, k: nat)
    requires r < |s.replicas|
  {
    forall m | 0 <= m < k :: m in s.replicas[r].log
  }

  // After other deliveries, delivers the first k inserts to replica r.
  lemma {:induction false} DeliverFirst(s: State, before: seq<Step>, r: nat, k: nat) returns (more: seq<Step>)
    requires r < |s.replicas| && k <= |s.issued| && Deliveries(before)
    ensures Deliveries(more) && HasFirst(RunAll(s, more), r, k) && Further(RunAll(s, before), RunAll(s, more))
  {
    if k == 0 {
      more := before;
    } else {
      var m := DeliverFirst(s, before, r, k - 1);
      RunAllFurther(s, m);
      RunAllSnoc(s, m, Deliver(r, k - 1));
      DeliverFurther(RunAll(s, m), r, k - 1);
      more := m + [Deliver(r, k - 1)];
      OneFurther(RunAll(s, before), RunAll(s, m), RunAll(s, more), r, k);
    }
  }

  lemma OneFurther(a: State, b: State, c: State, r: nat, k: nat)
    requires Further(a, b) && Further(b, c) && r < |a.replicas| && 0 < k && HasFirst(b, r, k - 1)
    requires k - 1 in c.replicas[r].log
    ensures Further(a, c) && HasFirst(c, r, k)
  {
  }

  // Delivers everything to replicas p and q.
  lemma DeliverToBoth(s: State, p: nat, q: nat) returns (more: seq<Step>)
    requires p < |s.replicas| && q < |s.replicas|
    ensures Deliveries(more) && HasFirst(RunAll(s, more), p, |s.issued|) && HasFirst(RunAll(s, more), q, |s.issued|)
  {
    var first := DeliverFirst(s, [], p, |s.issued|);
    more := DeliverFirst(s, first, q, |s.issued|);
  }

  // Two positions of a name stay with those who issued them, even when they have heard everything.
  lemma TwoPositionsDisagree(n: nat, steps: seq<Step>, m: nat, k: nat)
    requires m < |Exec(n, steps).issued| && k < |Exec(n, steps).issued|
    requires Exec(n, steps).issued[m].name == Exec(n, steps).issued[k].name != HEAD
    requires Exec(n, steps).issued[m].id != Exec(n, steps).issued[k].id
    ensures !AlwaysAgreeing(n, steps)
  {
    ExecKeepsInv(n, steps);
    var s := Exec(n, steps);
    assert Kept(s, m) && Kept(s, k);
    var more := DeliverToBoth(s, s.issued[m].origin, s.issued[k].origin);
    RunAllFurther(s, more);
    ExecJoin(n, steps, more);
    ExecKeepsInv(n, steps + more);
    DifferForGood(Exec(n, steps + more), m, k);
  }

  lemma DifferForGood(s: State, m: nat, k: nat)
    requires Inv(s) && m < |s.issued| && k < |s.issued|
    requires s.issued[m].name == s.issued[k].name != HEAD && s.issued[m].id != s.issued[k].id
    requires s.issued[m].origin < |s.replicas| && HasFirst(s, s.issued[m].origin, |s.issued|)
    requires s.issued[k].origin < |s.replicas| && HasFirst(s, s.issued[k].origin, |s.issued|)
    ensures !Agreeing(s)
  {
    var a, b := s.issued[m], s.issued[k];
    assert Kept(s, m) && Kept(s, k) && Heard(s, a.origin) && Heard(s, b.origin);
    assert SameLog(s, a.origin, b.origin);
    var l := s.replicas[a.origin].list;
    LinkedNamesDistinct(s.issued, s.replicas[a.origin].log);
    if l == s.replicas[b.origin].list {
      OneEntryPerName(l, EntryOf(a), EntryOf(b));
      assert false;
    }
  }

  /**
   After any run in which all elements have ordinary names: however the inserts are delivered, replicas that
   have the same ones hold the same list, exactly if no name has been inserted at two positions.
   */
  lemma AgreeExactlyWithOnePosition(n: nat, steps: seq<Step>)
    requires OrdinaryNames(Exec(n, steps).issued)
    ensures AlwaysAgreeing(n, steps) <==> OnePosition(Exec(n, steps).issued)
  {
    var s := Exec(n, steps);
    OrdinarySettled(n, steps);
    if OnePosition(s.issued) {
      SettledAlwaysAgrees(n, steps);
    } else {
      var m, k :| 0 <= m < |s.issued| && 0 <= k < |s.issued|
                  && s.issued[m].name == s.issued[k].name && s.issued[m].id != s.issued[k].id;
      TwoPositionsDisagree(n, steps, m, k);
    }
  }
}
