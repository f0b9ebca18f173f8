/** Runs of two replicas that end with the same inserts and different lists, one for each way to fail. */
module ListRuns {
  import opened Options
  import opened Words
  import opened ListPositions
  import opened SortedSequences
  import opened ListLinks
  import opened ReplicatedList

  const START := State([Replica([], 0, []), Replica([], 0, [])], [])

  lemma Starts()
    ensures Exec(2, []) == START
  {
    assert Exec(2, []).replicas == START.replicas;
  }

  // One more step of a run.
  lemma Extend(steps: seq<Step>, s: State, step: Step, t: State) returns (more: seq<Step>)
    requires Exec(2, steps) == s && Next(s, step) == t
    ensures Exec(2, more) == t
  {
    more := steps + [step];
    assert more[..|more| - 1] == steps;
  }

  // A client's insert leads from s to t.
  lemma ClientTo(s: State, word: string, ins: Insert, list: seq<Entry>, log: seq<nat>, t: State)
    requires Issues(s, ins, true)
    requires ins == NewInsert(s.replicas[ins.origin].list, ins.origin, word, ins.name, ins.id)
    requires Place(s.replicas[ins.origin].list, ins.after, EntryOf(ins)) == list
    requires s.replicas[ins.origin].log + [|s.issued|] == log && s.issued + [ins] == t.issued
    requires s.replicas[ins.origin := Replica(list, s.replicas[ins.origin].count + 1, log)] == t.replicas
    ensures Next(s, Client(ins.origin, word, ins.name, ins.id)) == t
  {
    var s1 := Announced(s, ins, true);
    assert s1.issued[|s.issued|] == ins;
    assert RunAt(s1, ins.origin, |s.issued|).replicas == t.replicas;
  }

  lemma DeliverTo(s: State, r: nat, m: nat, list: seq<Entry>, log: seq<nat>, t: State)
    requires r < |s.replicas| && m < |s.issued| && m !in s.replicas[r].log && s.issued == t.issued
    requires Place(s.replicas[r].list, s.issued[m].after, EntryOf(s.issued[m])) == list
    requires s.replicas[r].log + [m] == log && s.replicas[r := Replica(list, s.replicas[r].count, log)] == t.replicas
    ensures Next(s, Deliver(r, m)) == t
  {
    assert RunAt(s, r, m).replicas == t.replicas;
  }

  lemma PlaceAlone(after: Name, e: Entry)
    ensures !Has([], e.name) && Place([], after, e) == [e]
  {
    assert PlaceOf([], after, e.id) == 0;
  }

  lemma PlaceAgain(l: seq<Entry>, i: nat, after: Name, e: Entry)
    requires i < |l| && l[i].name == e.name
    ensures Place(l, after, e) == l
  {
    assert l[i] in l;
    if e.name != HEAD {
      HasMember(l, e.name);
    }
  }

  // The word that clients use for the front, where no element has that name.
  lemma FrontWord(l: seq<Entry>)
    requires forall x | x in l :: x.name != "null"
    ensures !Has(l, "null") && Sent(l, "null") == "null" && MeansFront("null") && Usable("null")
  {
    assert "null" != HEAD;
    HasMember(l, "null");
    assert Lower("null") == "null";
    assert UpToZero("null") == "null";
  }

  // An insert at the front of a list.
  lemma FrontIssues(s: State, r: nat, name: Name, id: Leid)
    requires r < |s.replicas| && Usable(name) && !Has(s.replicas[r].list, name)
    requires forall x | x in s.replicas[r].list :: x.name != "null"
    requires WellFormed(id) && Last(id).pid == r && Last(id).count == s.replicas[r].count
    requires s.replicas[r].list == [] || Before(id, s.replicas[r].list[0].id)
    ensures Issues(s, Insert(r, None, "null", name, id), true)
    ensures NewInsert(s.replicas[r].list, r, "null", name, id) == Insert(r, None, "null", name, id)
  {
    FrontWord(s.replicas[r].list);
  }

  lemma PlaceInFront(l: seq<Entry>, after: Name, e: Entry)
    requires !Has(l, e.name) && (l == [] || Before(e.id, l[0].id))
    ensures Place(l, after, e) == [e] + l
  {
    assert l[..0] + [e] + l[0..] == [e] + l;
  }

  // What an insert at the front leads to.
  lemma FrontTo(s: State, r: nat, name: Name, id: Leid, list: seq<Entry>, log: seq<nat>, t: State)
    requires r < |s.replicas| && Usable(name) && !Has(s.replicas[r].list, name)
    requires forall x | x in s.replicas[r].list :: x.name != "null"
    requires WellFormed(id) && Last(id).pid == r && Last(id).count == s.replicas[r].count
    requires s.replicas[r].list == [] || Before(id, s.replicas[r].list[0].id)
    requires s.issued + [Insert(r, None, "null", name, id)] == t.issued
    requires [Entry(name, id)] + s.replicas[r].list == list && s.replicas[r].log + [|s.issued|] == log
    requires s.replicas[r := Replica(list, s.replicas[r].count + 1, log)] == t.replicas
    ensures Next(s, Client(r, "null", name, id)) == t
  {
    var rep, ins := s.replicas[r], Insert(r, None, "null", name, id);
    FrontIssues(s, r, name, id);
    PlaceInFront(rep.list, "null", EntryOf(ins));
    ClientTo(s, "null", ins, list, log, t);
  }

  // What a delivery to an empty list leads to.
  lemma DeliverAlone(s: State, r: nat, m: nat, log: seq<nat>, t: State)
    requires r < |s.replicas| && m < |s.issued| && m !in s.replicas[r].log && s.issued == t.issued
    requires s.replicas[r].list == [] && s.replicas[r].log + [m] == log
    requires s.replicas[r := Replica([EntryOf(s.issued[m])], s.replicas[r].count, log)] == t.replicas
    ensures Next(s, Deliver(r, m)) == t
  {
    PlaceAlone(s.issued[m].after, EntryOf(s.issued[m]));
    DeliverTo(s, r, m, [EntryOf(s.issued[m])], log, t);
  }

  /******* One name at two positions *******/

  const A5: Leid := [Position(5, 0, 0)]
  const X6: Leid := [Position(6, 0, 1)]
  const X1: Leid := [Position(1, 1, 0)]

  lemma PositionsOrdered()
    ensures Before(A5, X6) && Before(X1, A5) && !Before(X6, A5) && WellFormed(A5) && WellFormed(X6) && WellFormed(X1)
  {
    DecidedAt(A5, X6, 0);
    DecidedAt(X1, A5, 0);
    BeforeTotal(A5, X6);
  }

  const INSERT_A := Insert(0, None, "null", "a", A5)
  const INSERT_X6 := Insert(0, Some("a"), "a", "x", X6)
  const INSERT_X1 := Insert(1, None, "null", "x", X1)

  const A := Entry("a", A5)
  const AT6 := Entry("x", X6)
  const AT1 := Entry("x", X1)

  const ONE_HAS_A := State([Replica([A], 1, [0]), Replica([], 0, [])], [INSERT_A])
  const BOTH_HAVE_A := State([Replica([A], 1, [0]), Replica([A], 0, [0])], [INSERT_A])

  // Then each inserts x, one after a and the other at the front, before it hears of the other.
  const ONE_HAS_X := State([Replica([A, AT6], 2, [0, 1]), Replica([A], 0, [0])], [INSERT_A, INSERT_X6])
  const BOTH_HAVE_X := State([Replica([A, AT6], 2, [0, 1]), Replica([AT1, A], 1, [0, 2])],
                             [INSERT_A, INSERT_X6, INSERT_X1])

  const ONE_HAS_ALL := State([Replica([A, AT6], 2, [0, 1]), Replica([AT1, A], 1, [0, 2, 1])],
                             [INSERT_A, INSERT_X6, INSERT_X1])
  const X_DELIVERED := State([Replica([A, AT6], 2, [0, 1, 2]), Replica([AT1, A], 1, [0, 2, 1])],
                             [INSERT_A, INSERT_X6, INSERT_X1])

  lemma InsertA()
    ensures Next(START, Client(0, "null", "a", A5)) == ONE_HAS_A
  {
    PositionsOrdered();
    FrontTo(START, 0, "a", A5, [A], [0], ONE_HAS_A);
  }

  lemma DeliverA()
    ensures Next(ONE_HAS_A, Deliver(1, 0)) == BOTH_HAVE_A
  {
    DeliverAlone(ONE_HAS_A, 1, 0, [0], BOTH_HAVE_A);
  }

  lemma InsertAfterA()
    ensures Next(BOTH_HAVE_A, Client(0, "a", "x", X6)) == ONE_HAS_X
  {
    PositionsOrdered();
    FoundAlone(A, "a");
    FoundAlone(A, "x");
    PlaceSecond(A, "a", AT6);
    assert UpToZero("a") == "a";
    ClientTo(BOTH_HAVE_A, "a", INSERT_X6, [A, AT6], [0, 1], ONE_HAS_X);
  }

  lemma InsertBeforeA()
    ensures Next(ONE_HAS_X, Client(1, "null", "x", X1)) == BOTH_HAVE_X
  {
    PositionsOrdered();
    FoundAlone(A, "x");
    FrontTo(ONE_HAS_X, 1, "x", X1, [AT1, A], [0, 2], BOTH_HAVE_X);
  }

  lemma DeliverX6()
    ensures Next(BOTH_HAVE_X, Deliver(1, 1)) == ONE_HAS_ALL
  {
    PlaceAgain([AT1, A], 0, "a", AT6);
    DeliverTo(BOTH_HAVE_X, 1, 1, [AT1, A], [0, 2, 1], ONE_HAS_ALL);
  }

  lemma DeliverX1()
    ensures Next(ONE_HAS_ALL, Deliver(0, 2)) == X_DELIVERED
  {
    PlaceAgain([A, AT6], 1, "null", AT1);
    DeliverTo(ONE_HAS_ALL, 0, 2, [A, AT6], [0, 1, 2], X_DELIVERED);
  }

  lemma ReachBothHaveX() returns (steps: seq<Step>)
    ensures Exec(2, steps) == BOTH_HAVE_X
  {
    Starts();
    InsertA();
    steps := Extend([], START, Client(0, "null", "a", A5), ONE_HAS_A);
    DeliverA();
    steps := Extend(steps, ONE_HAS_A, Deliver(1, 0), BOTH_HAVE_A);
    InsertAfterA();
    steps := Extend(steps, BOTH_HAVE_A, Client(0, "a", "x", X6), ONE_HAS_X);
    InsertBeforeA();
    steps := Extend(steps, ONE_HAS_X, Client(1, "null", "x", X1), BOTH_HAVE_X);
  }

  /** Two replicas that insert one name at the same time have the same inserts and show two different lists. */
  lemma ConcurrentNameDisagrees() returns (steps: seq<Step>)
    ensures Exec(2, steps) == X_DELIVERED && SameLog(X_DELIVERED, 0, 1)
    ensures X_DELIVERED.replicas[0].list == [A, AT6] && X_DELIVERED.replicas[1].list == [AT1, A]
  {
    steps := ReachBothHaveX();
    DeliverX6();
    steps := Extend(steps, BOTH_HAVE_X, Deliver(1, 1), ONE_HAS_ALL);
    DeliverX1();
    steps := Extend(steps, ONE_HAS_ALL, Deliver(0, 2), X_DELIVERED);
  }

  /******* An element named like the word for the front *******/

  const B2: Leid := [Position(2, 0, 0)]
  const C1: Leid := [Position(1, 0, 1)]
  const N9: Leid := [Position(9, 1, 0)]

  lemma NullOrdered()
    ensures Before(C1, B2) && Before(B2, N9) && Before(C1, N9) && WellFormed(B2) && WellFormed(C1) && WellFormed(N9)
  {
    DecidedAt(C1, B2, 0);
    DecidedAt(B2, N9, 0);
    DecidedAt(C1, N9, 0);
  }

  const INSERT_B := Insert(0, None, "null", "b", B2)
  const INSERT_C := Insert(0, None, "null", "c", C1)
  const INSERT_NULL := Insert(1, None, "null", "null", N9)

  const B := Entry("b", B2)
  const C := Entry("c", C1)
  const N := Entry("null", N9)

  const HAS_B := State([Replica([B], 1, [0]), Replica([], 0, [])], [INSERT_B])
  const HAS_C := State([Replica([C, B], 2, [0, 1]), Replica([], 0, [])], [INSERT_B, INSERT_C])
  const HAS_NULL := State([Replica([C, B], 2, [0, 1]), Replica([N], 1, [2])], [INSERT_B, INSERT_C, INSERT_NULL])
  const NULL_AND_C := State([Replica([C, B], 2, [0, 1]), Replica([C, N], 1, [2, 1])], [INSERT_B, INSERT_C, INSERT_NULL])
  const NULL_AND_B := State([Replica([C, B], 2, [0, 1]), Replica([C, N, B], 1, [2, 1, 0])],
                            [INSERT_B, INSERT_C, INSERT_NULL])
  const NULL_DELIVERED := State([Replica([C, B, N], 2, [0, 1, 2]), Replica([C, N, B], 1, [2, 1, 0])],
                                [INSERT_B, INSERT_C, INSERT_NULL])

  lemma InsertB()
    ensures Next(START, Client(0, "null", "b", B2)) == HAS_B
  {
    NullOrdered();
    FrontTo(START, 0, "b", B2, [B], [0], HAS_B);
  }

  lemma InsertC()
    ensures Next(HAS_B, Client(0, "null", "c", C1)) == HAS_C
  {
    NullOrdered();
    FoundAlone(B, "c");
    FrontTo(HAS_B, 0, "c", C1, [C, B], [0, 1], HAS_C);
  }

  lemma InsertNull()
    ensures Next(HAS_C, Client(1, "null", "null", N9)) == HAS_NULL
  {
    NullOrdered();
    FrontTo(HAS_C, 1, "null", N9, [N], [2], HAS_NULL);
  }

  lemma DeliverC()
    ensures Next(HAS_NULL, Deliver(1, 1)) == NULL_AND_C
  {
    NullOrdered();
    PlaceSecond(N, "null", C);
    DeliverTo(HAS_NULL, 1, 1, [C, N], [2, 1], NULL_AND_C);
  }

  lemma DeliverB()
    ensures Next(NULL_AND_C, Deliver(1, 0)) == NULL_AND_B
  {
    NullOrdered();
    PlaceMisled(C, N, B);
    DeliverTo(NULL_AND_C, 1, 0, [C, N, B], [2, 1, 0], NULL_AND_B);
  }

  lemma DeliverNull()
    ensures Next(NULL_AND_B, Deliver(0, 2)) == NULL_DELIVERED
  {
    NullOrdered();
    PlaceThird(C, B, "null", N);
    DeliverTo(NULL_AND_B, 0, 2, [C, B, N], [0, 1, 2], NULL_DELIVERED);
  }

  lemma ReachHasNull() returns (steps: seq<Step>)
    ensures Exec(2, steps) == HAS_NULL
  {
    Starts();
    InsertB();
    steps := Extend([], START, Client(0, "null", "b", B2), HAS_B);
    InsertC();
    steps := Extend(steps, HAS_B, Client(0, "null", "c", C1), HAS_C);
    InsertNull();
    steps := Extend(steps, HAS_C, Client(1, "null", "null", N9), HAS_NULL);
  }

  lemma ReachNullAndB() returns (steps: seq<Step>)
    ensures Exec(2, steps) == NULL_AND_B
  {
    steps := ReachHasNull();
    DeliverC();
    steps := Extend(steps, HAS_NULL, Deliver(1, 1), NULL_AND_C);
    DeliverB();
    steps := Extend(steps, NULL_AND_C, Deliver(1, 0), NULL_AND_B);
  }

  /**
   With an element named "null", every name has one position, but an insert at the front is linked behind that
   element where it is already there and something else stands before it.
   */
  lemma NullNameDisagrees() returns (steps: seq<Step>)
    ensures Exec(2, steps) == NULL_DELIVERED && SameLog(NULL_DELIVERED, 0, 1) && OnePosition(NULL_DELIVERED.issued)
    ensures NULL_DELIVERED.replicas[0].list == [C, B, N] && NULL_DELIVERED.replicas[1].list == [C, N, B]
  {
    steps := ReachNullAndB();
    DeliverNull();
    steps := Extend(steps, NULL_AND_B, Deliver(0, 2), NULL_DELIVERED);
  }

  /******* An element named like the head *******/

  const Y5: Leid := [Position(5, 0, 0)]
  const H1: Leid := [Position(1, 1, 0)]

  const INSERT_Y := Insert(0, None, "null", "y", Y5)
  const INSERT_HEAD := Insert(1, None, "null", "head", H1)

  const Y := Entry("y", Y5)
  const H := Entry("head", H1)

  const HAS_Y := State([Replica([Y], 1, [0]), Replica([], 0, [])], [INSERT_Y])
  const HAS_HEAD := State([Replica([Y], 1, [0]), Replica([H], 1, [1])], [INSERT_Y, INSERT_HEAD])
  const HEAD_AND_Y := State([Replica([Y], 1, [0]), Replica([H, Y], 1, [1, 0])], [INSERT_Y, INSERT_HEAD])
  const HEAD_DELIVERED := State([Replica([Y], 1, [0, 1]), Replica([H, Y], 1, [1, 0])], [INSERT_Y, INSERT_HEAD])

  lemma InsertY()
    ensures Next(START, Client(0, "null", "y", Y5)) == HAS_Y
  {
    FrontTo(START, 0, "y", Y5, [Y], [0], HAS_Y);
  }

  lemma InsertHead()
    ensures Next(HAS_Y, Client(1, "null", "head", H1)) == HAS_HEAD
  {
    FrontTo(HAS_Y, 1, "head", H1, [H], [1], HAS_HEAD);
  }

  lemma DeliverY()
    ensures Next(HAS_HEAD, Deliver(1, 0)) == HEAD_AND_Y
  {
    DecidedAt(H1, Y5, 0);
    BeforeTotal(H1, Y5);
    PlaceSecond(H, "null", Y);
    DeliverTo(HAS_HEAD, 1, 0, [H, Y], [1, 0], HEAD_AND_Y);
  }

  lemma DeliverHead()
    ensures Next(HEAD_AND_Y, Deliver(0, 1)) == HEAD_DELIVERED
  {
    FoundAlone(Y, "head");
    DeliverTo(HEAD_AND_Y, 0, 1, [Y], [0, 1], HEAD_DELIVERED);
  }

  lemma ReachHasHead() returns (steps: seq<Step>)
    ensures Exec(2, steps) == HAS_HEAD
  {
    Starts();
    InsertY();
    steps := Extend([], START, Client(0, "null", "y", Y5), HAS_Y);
    InsertHead();
    steps := Extend(steps, HAS_Y, Client(1, "null", "head", H1), HAS_HEAD);
  }

  /** An element named "head" is linked where the list is empty, and taken for the first element where it is not. */
  lemma HeadNameDisagrees() returns (steps: seq<Step>)
    ensures Exec(2, steps) == HEAD_DELIVERED && SameLog(HEAD_DELIVERED, 0, 1) && OnePosition(HEAD_DELIVERED.issued)
    ensures HEAD_DELIVERED.replicas[0].list == [Y] && HEAD_DELIVERED.replicas[1].list == [H, Y]
  {
    steps := ReachHasHead();
    DeliverY();
    steps := Extend(steps, HAS_HEAD, Deliver(1, 0), HEAD_AND_Y);
    DeliverHead();
    steps := Extend(steps, HEAD_AND_Y, Deliver(0, 1), HEAD_DELIVERED);
  }
}
