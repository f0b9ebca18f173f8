/** Sorted sequences under any strict total order. */
module SortedSequences {

  ghost predicate StrictTotal<T(!new)>(less: (T, T) -> bool) {
    && (forall x :: !less(x, x))
    && (forall x, y :: x != y ==> less(x, y) || less(y, x))
    && (forall x, y, z {:trigger less(x, y), less(y, z)} :: less(x, y) && less(y, z) ==> less(x, z))
  }

  ghost predicate Sorted<T>(less: (T, T) -> bool, l: seq<T>) {
    forall i, j | 0 <= i < j < |l| :: less(l[i], l[j])
  }

  // l with e in its place.
  function Inserted<T>(less: (T, T) -> bool, l: seq<T>, e: T): seq<T> {
    if l == [] || less(e, l[0]) then [e] + l else [l[0]] + Inserted(less, l[1..], e)
  }

  lemma {:induction false} InsertedMembers<T>(less: (T, T) -> bool, l: seq<T>, e: T, x: T)
    ensures x in Inserted(less, l, e) <==> x == e || x in l
  {
    if l != [] && !less(e, l[0]) {
      InsertedMembers(less, l[1..], e, x);
      assert l == [l[0]] + l[1..];
    }
  }

  // Linking e at the place that keeps the list sorted is inserting it.
  lemma {:induction false} InsertedAt<T(!new)>(less: (T, T) -> bool, l: seq<T>, e: T, i: nat)
    requires StrictTotal(less) && i <= |l|
    requires forall j | 0 <= j < i :: less(l[j], e)
    requires i < |l| ==> less(e, l[i])
    ensures Inserted(less, l, e) == l[..i] + [e] + l[i..]
  {
    if i > 0 {
      InsertedAt(less, l[1..], e, i - 1);
      assert l[..i] + [e] + l[i..] == [l[0]] + (l[1..][..i - 1] + [e] + l[1..][i - 1..]);
    }
  }

  // The first index from q on whose element does not come before e.
  function ScanFrom<T>(less: (T, T) -> bool, l: seq<T>, q: nat, e: T): (r: nat)
    requires q <= |l|
    ensures q <= r <= |l| && (forall j | q <= j < r :: less(l[j], e)) && (r < |l| ==> !less(l[r], e))
    decreases |l| - q
  {
    if q < |l| && less(l[q], e) then ScanFrom(less, l, q + 1, e) else q
  }

  /** A scan that starts at the head, or at an element that comes before e, ends at the place of e. */
  lemma ScanInserts<T(!new)>(less: (T, T) -> bool, l: seq<T>, start: nat, e: T)
    requires StrictTotal(less) && Sorted(less, l) && e !in l && start < |l|
    requires if start == 0 then !less(e, l[0]) else less(l[start], e)
    ensures var q := ScanFrom(less, l, start + 1, e); Inserted(less, l, e) == l[..q] + [e] + l[q..]
  {
    var q := ScanFrom(less, l, start + 1, e);
    assert l[0] in l && l[0] != e;
    assert less(l[start], e);
    forall j | 0 <= j < q ensures less(l[j], e) {
      assert j < start ==> less(l[j], l[start]);
    }
    assert q < |l| ==> l[q] in l;
    InsertedAt(less, l, e, q);
  }

  lemma {:induction false} InsertedSorted<T(!new)>(less: (T, T) -> bool, l: seq<T>, e: T)
    requires StrictTotal(less) && Sorted(less, l) && e !in l
    ensures Sorted(less, Inserted(less, l, e))
  {
    if l != [] && !less(e, l[0]) {
      InsertedSorted(less, l[1..], e);
      var rest := Inserted(less, l[1..], e);
      forall j | 0 <= j < |rest| ensures less(l[0], rest[j]) {
        InsertedMembers(less, l[1..], e, rest[j]);
      }
    }
  }

  /** A set has one sorted list. */
  lemma {:induction false} SortedUnique<T(!new)>(less: (T, T) -> bool, a: seq<T>, b: seq<T>)
    requires StrictTotal(less) && Sorted(less, a) && Sorted(less, b) && forall x :: x in a <==> x in b
    ensures a == b
    decreases |a|
  {
    if b != [] {
      assert b[0] in b;
      assert a != [];
    }
    if a != [] {
      assert a[0] in a;
      SameHead(less, a, b);
      forall x ensures x in a[1..] <==> x in b[1..] {
        TailMembers(less, a, x);
        TailMembers(less, b, x);
      }
      SortedUnique(less, a[1..], b[1..]);
    }
  }

  lemma SameHead<T(!new)>(less: (T, T) -> bool, a: seq<T>, b: seq<T>)
    requires StrictTotal(less) && Sorted(less, a) && Sorted(less, b) && (forall x :: x in a <==> x in b) && a != []
    ensures b != [] && a[0] == b[0]
  {
    assert a[0] in b;
    assert b[0] in a;
    var i :| 0 <= i < |b| && b[i] == a[0];
    var j :| 0 <= j < |a| && a[j] == b[0];
  }

  lemma TailMembers<T(!new)>(less: (T, T) -> bool, a: seq<T>, x: T)
    requires StrictTotal(less) && Sorted(less, a) && a != []
    ensures x in a[1..] <==> x in a && x != a[0]
  {
    if x in a && x != a[0] {
      var i :| 0 <= i < |a| && a[i] == x;
      assert a[1..][i - 1] == x;
    }
  }
}

/**
 How one replica of the list links elements. Elements have names and positions; an insert carries the name of
 its predecessor as a word, which every replica looks up for itself. Two words stand for no predecessor, and one
 word finds the head of the list, whatever it is called. All orders of a set of inserts lead to one list exactly
 when positions and names belong together one to one, nothing is named like the head, and no word leads behind
 the place it is used for.
 */
module ListLinks {
  import opened Options
  import opened ListPositions
  import opened SortedSequences

  type Name = string

  datatype Entry = Entry(name: Name, id: Leid)

  // What the replicas are sent: `after` is the word for the predecessor. The issuer and the name of the
  // predecessor it found are not sent.
  datatype Insert = Insert(origin: nat, pre: Option<Name>, after: Name, name: Name, id: Leid)

  function EntryOf(ins: Insert): Entry { Entry(ins.name, ins.id) }

  /** Position identifiers are strictly and totally ordered. */
  lemma BeforeStrictTotal()
    ensures StrictTotal(Before)
  {
    forall x, y ensures !Before(x, x) && (x != y ==> Before(x, y) || Before(y, x)) { BeforeTotal(x, y); }
    forall x, y, z | Before(x, y) && Before(y, z) ensures Before(x, z) { BeforeTransitive(x, y, z); }
  }

  /******* Linking *******/

  function IndexOf(l: seq<Entry>, name: Name): (i: nat)
    ensures i <= |l| && (i < |l| ==> l[i].name == name) && forall j | 0 <= j < i :: l[j].name != name
  {
    if l == [] || l[0].name == name then 0 else 1 + IndexOf(l[1..], name)
  }

  // Elements share a table with the reference to the first one, which is kept under this word.
  const HEAD := "head"

  // What the table has under a word.
  function Lookup(l: seq<Entry>, w: Name): (i: nat)
    ensures i <= |l|
  {
    if w == HEAD then 0 else IndexOf(l, w)
  }

  predicate Has(l: seq<Entry>, w: Name) { Lookup(l, w) < |l| }

  // Where the search for a place begins: at the predecessor if this replica finds one.
  function StartOf(l: seq<Entry>, after: Name): nat { if Has(l, after) then Lookup(l, after) else 0 }

  function Ids(l: seq<Entry>): (ids: seq<Leid>)
    ensures |ids| == |l| && forall i | 0 <= i < |l| :: ids[i] == l[i].id
  {
    seq(|l|, i requires 0 <= i < |l| => l[i].id)
  }

  // The index at which a new element is linked.
  function PlaceOf(l: seq<Entry>, after: Name, id: Leid): (q: nat)
    ensures q <= |l|
  {
    if l == [] || Before(id, l[0].id) then 0 else ScanFrom(Before, Ids(l), StartOf(l, after) + 1, id)
  }

  function Place(l: seq<Entry>, after: Name, e: Entry): seq<Entry> {
    if Has(l, e.name) then l
    else var q := PlaceOf(l, after, e.id); l[..q] + [e] + l[q..]
  }

  lemma FlipDifference(a: Leid, b: Leid)
    ensures LeidCmp(a, b) == 0 - LeidCmp(b, a)
  {
    assert FirstDifference(a, b, 0) == FirstDifference(b, a, 0);
  }

  /** The linking part of rwflinsert: nothing for a name that is found, else the scan from the predecessor. */
  method Link(l: seq<Entry>, after: Name, e: Entry) returns (r: seq<Entry>)
    ensures r == Place(l, after, e)
  {
    if Has(l, e.name) {
      return l;
    }
    if l == [] {
      return [e];
    }
    var c := CompareLeid(e.id, l[0].id);
    if c < 0 {
      return [e] + l;
    }
    var q := ScanList(l, StartOf(l, after) + 1, e.id);
    r := l[..q] + [e] + l[q..];
  }

  method ScanList(l: seq<Entry>, start: nat, id: Leid) returns (q: nat)
    requires start <= |l|
    ensures q == ScanFrom(Before, Ids(l), start, id)
  {
    q := start;
    while q < |l|
      invariant start <= q <= |l| && ScanFrom(Before, Ids(l), start, id) == ScanFrom(Before, Ids(l), q, id)
    {
      var c := CompareLeid(id, l[q].id);
      FlipDifference(id, l[q].id);
      if c <= 0 {
        return;
      }
      q := q + 1;
    }
  }

  lemma IdsOfLinked(l: seq<Entry>, q: nat, e: Entry)
    requires q <= |l|
    ensures Ids(l[..q] + [e] + l[q..]) == Ids(l)[..q] + [e.id] + Ids(l)[q..]
  {
    var x, y := l[..q] + [e] + l[q..], Ids(l)[..q] + [e.id] + Ids(l)[q..];
    assert |x| == |y| && forall i | 0 <= i < |x| :: Ids(x)[i] == x[i].id == y[i];
  }

  // The word does not lead past the place of the new element.
  predicate LedRight(l: seq<Entry>, after: Name, id: Leid) {
    l == [] || Before(id, l[0].id) || StartOf(l, after) == 0 || Before(l[StartOf(l, after)].id, id)
  }

  /** In a sorted list a new element gets its sorted place, if the word does not lead past it. */
  lemma PlaceInserts(l: seq<Entry>, after: Name, e: Entry)
    requires Sorted(Before, Ids(l)) && e.id !in Ids(l) && !Has(l, e.name) && LedRight(l, after, e.id)
    ensures Ids(Place(l, after, e)) == Inserted(Before, Ids(l), e.id)
  {
    IdsOfLinked(l, PlaceOf(l, after, e.id), e);
    PlaceOfInserts(l, after, e.id);
  }

  lemma PlaceOfInserts(l: seq<Entry>, after: Name, id: Leid)
    requires Sorted(Before, Ids(l)) && id !in Ids(l) && LedRight(l, after, id)
    ensures var ids, q := Ids(l), PlaceOf(l, after, id); Inserted(Before, ids, id) == ids[..q] + [id] + ids[q..]
  {
    var ids := Ids(l);
    if l == [] || Before(id, l[0].id) {
      assert ids[..0] + [id] + ids[0..] == [id] + ids;
    } else {
      ScanInsertsPosition(ids, StartOf(l, after), id);
    }
  }

  lemma ScanInsertsPosition(ids: seq<Leid>, start: nat, id: Leid)
    requires Sorted(Before, ids) && id !in ids && start < |ids|
    requires if start == 0 then !Before(id, ids[0]) else Before(ids[start], id)
    ensures var q := ScanFrom(Before, ids, start + 1, id); Inserted(Before, ids, id) == ids[..q] + [id] + ids[q..]
  {
    BeforeStrictTotal();
    ScanInserts(Before, ids, start, id);
  }

  /** A word that leads past the place of a new element has it linked out of order. */
  lemma ScanFromBehindUnsorts(l: seq<Entry>, after: Name, e: Entry)
    requires !Has(l, e.name) && !LedRight(l, after, e.id) && e.id != l[StartOf(l, after)].id
    ensures !Sorted(Before, Ids(Place(l, after, e)))
  {
    var i, q := StartOf(l, after), PlaceOf(l, after, e.id);
    var r := Place(l, after, e);
    assert i < q && r[i] == l[i] && r[q] == e && Ids(r)[i] == l[i].id && Ids(r)[q] == e.id;
    BeforeTotal(l[i].id, e.id);
  }

  lemma PlaceMembers(l: seq<Entry>, after: Name, e: Entry, x: Entry)
    ensures x in Place(l, after, e) <==> x in l || (x == e && !Has(l, e.name))
  {
    if !Has(l, e.name) {
      var q := PlaceOf(l, after, e.id);
      assert l == l[..q] + l[q..];
    }
  }

  lemma HasMember(l: seq<Entry>, name: Name)
    requires name != HEAD
    ensures Has(l, name) <==> exists x :: x in l && x.name == name
  {
    if Has(l, name) {
      assert l[IndexOf(l, name)] in l;
    }
  }

  /******* Inserts in some order *******/

  ghost predicate InRange(issued: seq<Insert>, order: seq<nat>) { forall i | 0 <= i < |order| :: order[i] < |issued| }

  // The list of a replica that has run these inserts in this order.
  function LinkAll(issued: seq<Insert>, order: seq<nat>): seq<Entry>
    requires InRange(issued, order)
  {
    if order == [] then []
    else
      var k := |order| - 1;
      Place(LinkAll(issued, order[..k]), issued[order[k]].after, EntryOf(issued[order[k]]))
  }

  lemma LinkOne(issued: seq<Insert>, order: seq<nat>, m: nat)
    requires InRange(issued, order) && m < |issued|
    ensures LinkAll(issued, order + [m]) == Place(LinkAll(issued, order), issued[m].after, EntryOf(issued[m]))
  {
    assert (order + [m])[..|order|] == order;
  }

  // Later inserts do not matter to those who have not run them.
  lemma {:induction false} LinkAllGrows(issued: seq<Insert>, more: seq<Insert>, order: seq<nat>)
    requires InRange(issued, order)
    ensures InRange(issued + more, order) && LinkAll(issued + more, order) == LinkAll(issued, order)
  {
    if order != [] {
      LinkAllGrows(issued, more, order[..|order| - 1]);
    }
  }

  ghost predicate SameInserts(a: seq<nat>, b: seq<nat>) { forall m :: m in a <==> m in b }

  /******* Which inserts lead to one list *******/

  ghost predicate OnePosition(issued: seq<Insert>) {
    forall m, k | 0 <= m < |issued| && 0 <= k < |issued| && issued[m].name == issued[k].name ::
      issued[m].id == issued[k].id
  }

  ghost predicate OneName(issued: seq<Insert>) {
    forall m, k | 0 <= m < |issued| && 0 <= k < |issued| && issued[m].id == issued[k].id ::
      issued[m].name == issued[k].name
  }

  // If anything is named like the head, everything is.
  ghost predicate HeadAlone(issued: seq<Insert>) {
    forall m, k | 0 <= m < |issued| && 0 <= k < |issued| && issued[m].name == HEAD :: issued[k].name == HEAD
  }

  // The word of m finds k, which belongs behind m, and j belongs in front of both.
  ghost predicate Misled(issued: seq<Insert>, j: nat, k: nat, m: nat) {
    && j < |issued| && k < |issued| && m < |issued| && issued[m].after == issued[k].name != HEAD
    && Before(issued[j].id, issued[m].id) && Before(issued[m].id, issued[k].id)
  }

  ghost predicate Settled(issued: seq<Insert>) {
    OnePosition(issued) && OneName(issued) && HeadAlone(issued) && !exists j, k, m :: Misled(issued, j, k, m)
  }

  ghost predicate FromIssued(issued: seq<Insert>, x: Entry) {
    exists m :: 0 <= m < |issued| && x == EntryOf(issued[m])
  }

  ghost predicate AllFrom(issued: seq<Insert>, l: seq<Entry>) { forall x | x in l :: FromIssued(issued, x) }

  lemma FoundIsThere(issued: seq<Insert>, l: seq<Entry>, m: nat)
    requires Settled(issued) && AllFrom(issued, l) && m < |issued|
    ensures Has(l, issued[m].name) <==> EntryOf(issued[m]) in l
  {
    var e := EntryOf(issued[m]);
    if Has(l, e.name) {
      var x := l[Lookup(l, e.name)];
      assert x in l && FromIssued(issued, x);
      var k :| 0 <= k < |issued| && x == EntryOf(issued[k]);
      assert x == e;
    }
    if e in l && e.name != HEAD {
      HasMember(l, e.name);
    }
  }

  lemma NotYetThere(issued: seq<Insert>, l: seq<Entry>, m: nat)
    requires Settled(issued) && AllFrom(issued, l) && m < |issued| && EntryOf(issued[m]) !in l
    ensures issued[m].id !in Ids(l)
  {
    forall i | 0 <= i < |l| ensures l[i].id != issued[m].id {
      assert l[i] in l && FromIssued(issued, l[i]);
      var k :| 0 <= k < |issued| && l[i] == EntryOf(issued[k]);
    }
  }

  lemma WordsLeadRight(issued: seq<Insert>, l: seq<Entry>, m: nat)
    requires Settled(issued) && AllFrom(issued, l) && m < |issued| && issued[m].id !in Ids(l)
    ensures LedRight(l, issued[m].after, issued[m].id)
  {
    var i, id := StartOf(l, issued[m].after), issued[m].id;
    if l != [] && i > 0 {
      assert l[0] in l && l[i] in l && FromIssued(issued, l[0]) && FromIssued(issued, l[i]);
      assert Ids(l)[0] == l[0].id && Ids(l)[i] == l[i].id;
      var j: nat :| j < |issued| && l[0] == EntryOf(issued[j]);
      var k: nat :| k < |issued| && l[i] == EntryOf(issued[k]);
      BeforeTotal(id, l[0].id);
      BeforeTotal(id, l[i].id);
      assert !Misled(issued, j, k, m);
    }
  }

  lemma PlaceSettled(issued: seq<Insert>, l: seq<Entry>, m: nat)
    requires Settled(issued) && AllFrom(issued, l) && Sorted(Before, Ids(l)) && m < |issued|
    ensures Sorted(Before, Ids(Place(l, issued[m].after, EntryOf(issued[m]))))
  {
    FoundIsThere(issued, l, m);
    if !Has(l, issued[m].name) {
      NotYetThere(issued, l, m);
      WordsLeadRight(issued, l, m);
      PlaceInserts(l, issued[m].after, EntryOf(issued[m]));
      BeforeStrictTotal();
      InsertedSorted(Before, Ids(l), issued[m].id);
    }
  }

  // An element is there exactly if one of the inserts has been run.
  ghost predicate Ran(issued: seq<Insert>, order: seq<nat>, x: Entry) {
    exists m :: m in order && m < |issued| && x == EntryOf(issued[m])
  }

  lemma RanMore(issued: seq<Insert>, order: seq<nat>, m: nat, x: Entry)
    requires m < |issued|
    ensures Ran(issued, order + [m], x) <==> Ran(issued, order, x) || x == EntryOf(issued[m])
  {
    assert m in order + [m];
    if Ran(issued, order, x) {
      var k :| k in order && k < |issued| && x == EntryOf(issued[k]);
      assert k in order + [m];
    }
  }

  // The sorted list of exactly the elements inserted.
  ghost predicate Lists(issued: seq<Insert>, order: seq<nat>, l: seq<Entry>) {
    Sorted(Before, Ids(l)) && forall x :: x in l <==> Ran(issued, order, x)
  }

  lemma PlaceLists(issued: seq<Insert>, order: seq<nat>, l: seq<Entry>, m: nat)
    requires Settled(issued) && Lists(issued, order, l) && m < |issued|
    ensures Lists(issued, order + [m], Place(l, issued[m].after, EntryOf(issued[m])))
  {
    assert AllFrom(issued, l);
    PlaceSettled(issued, l, m);
    FoundIsThere(issued, l, m);
    forall x ensures x in Place(l, issued[m].after, EntryOf(issued[m])) <==> Ran(issued, order + [m], x) {
      PlaceMembers(l, issued[m].after, EntryOf(issued[m]), x);
      RanMore(issued, order, m, x);
    }
  }

  /** While the inserts are settled, every order of them gives the sorted list of exactly the elements inserted. */
  lemma {:induction false} LinkAllSorted(issued: seq<Insert>, order: seq<nat>)
    requires Settled(issued) && InRange(issued, order)
    ensures Lists(issued, order, LinkAll(issued, order))
  {
    if order != [] {
      var k := |order| - 1;
      LinkAllSorted(issued, order[..k]);
      PlaceLists(issued, order[..k], LinkAll(issued, order[..k]), order[k]);
      assert order == order[..k] + [order[k]];
    }
  }

  lemma IdsMembers(l: seq<Entry>, id: Leid)
    ensures id in Ids(l) <==> exists x :: x in l && x.id == id
  {
    if id in Ids(l) {
      var i :| 0 <= i < |l| && Ids(l)[i] == id;
      assert l[i] in l;
    }
    if exists x :: x in l && x.id == id {
      var x :| x in l && x.id == id;
      var i :| 0 <= i < |l| && l[i] == x;
      assert Ids(l)[i] == id;
    }
  }

  lemma SameEntriesSameList(issued: seq<Insert>, a: seq<Entry>, b: seq<Entry>)
    requires OneName(issued) && AllFrom(issued, a) && Sorted(Before, Ids(a)) && Sorted(Before, Ids(b))
    requires forall x :: x in a <==> x in b
    ensures a == b
  {
    BeforeStrictTotal();
    forall id ensures id in Ids(a) <==> id in Ids(b) {
      IdsMembers(a, id);
      IdsMembers(b, id);
    }
    SortedUnique(Before, Ids(a), Ids(b));
    assert |a| == |Ids(a)| == |Ids(b)| == |b|;
    forall i | 0 <= i < |a| ensures a[i] == b[i] {
      assert a[i].id == Ids(a)[i] == Ids(b)[i] == b[i].id && a[i] in a && b[i] in b;
      assert FromIssued(issued, a[i]) && FromIssued(issued, b[i]);
    }
  }

  lemma SettledOrdersAgree(issued: seq<Insert>, a: seq<nat>, b: seq<nat>)
    requires Settled(issued) && InRange(issued, a) && InRange(issued, b) && SameInserts(a, b)
    ensures LinkAll(issued, a) == LinkAll(issued, b)
  {
    LinkAllSorted(issued, a);
    LinkAllSorted(issued, b);
    assert AllFrom(issued, LinkAll(issued, a));
    forall x ensures x in LinkAll(issued, a) <==> x in LinkAll(issued, b) {
      assert Ran(issued, a, x) <==> Ran(issued, b, x);
    }
    SameEntriesSameList(issued, LinkAll(issued, a), LinkAll(issued, b));
  }

  /******* And which do not *******/

  lemma LinkFirst(issued: seq<Insert>, m: nat)
    requires m < |issued|
    ensures LinkAll(issued, [m]) == [EntryOf(issued[m])]
  {
    LinkOne(issued, [], m);
    assert [] + [m] == [m];
  }

  lemma LinkTwo(issued: seq<Insert>, m: nat, k: nat)
    requires m < |issued| && k < |issued|
    ensures LinkAll(issued, [m, k]) == Place([EntryOf(issued[m])], issued[k].after, EntryOf(issued[k]))
  {
    LinkFirst(issued, m);
    LinkOne(issued, [m], k);
    assert [m] + [k] == [m, k];
  }

  lemma LinkThree(issued: seq<Insert>, j: nat, m: nat, k: nat)
    requires j < |issued| && m < |issued| && k < |issued|
    ensures LinkAll(issued, [j, m, k]) == Place(LinkAll(issued, [j, m]), issued[k].after, EntryOf(issued[k]))
  {
    LinkOne(issued, [j, m], k);
    assert [j, m] + [k] == [j, m, k];
  }

  lemma FoundAlone(x: Entry, w: Name)
    ensures Has([x], w) <==> w == HEAD || w == x.name
  {
  }

  // A second element that is not found goes in front of the first or behind it, whatever its word.
  lemma PlaceSecond(x: Entry, after: Name, e: Entry)
    requires e.name != HEAD && e.name != x.name
    ensures Place([x], after, e) == if Before(e.id, x.id) then [e, x] else [x, e]
  {
    FoundAlone(x, e.name);
    var q := PlaceOf([x], after, e.id);
    assert q == if Before(e.id, x.id) then 0 else 1;
    assert [x][..0] + [e] + [x][0..] == [e, x] && [x][..1] + [e] + [x][1..] == [x, e];
  }

  // Two orders without repetitions that end differently.
  ghost predicate Disagree(issued: seq<Insert>, a: seq<nat>, b: seq<nat>) {
    && InRange(issued, a) && InRange(issued, b) && SameInserts(a, b) && Distinct(a) && Distinct(b)
    && LinkAll(issued, a) != LinkAll(issued, b)
  }

  ghost predicate Distinct(a: seq<nat>) { forall i, j | 0 <= i < j < |a| :: a[i] != a[j] }

  lemma TwoOrders(issued: seq<Insert>, m: nat, k: nat)
    requires m < |issued| && k < |issued| && m != k
    requires Place([EntryOf(issued[m])], issued[k].after, EntryOf(issued[k]))
          != Place([EntryOf(issued[k])], issued[m].after, EntryOf(issued[m]))
    ensures Disagree(issued, [m, k], [k, m])
  {
    LinkTwo(issued, m, k);
    LinkTwo(issued, k, m);
  }

  lemma TwoPositionsOrders(issued: seq<Insert>, m: nat, k: nat)
    requires m < |issued| && k < |issued| && issued[m].name == issued[k].name && issued[m].id != issued[k].id
    ensures Disagree(issued, [m, k], [k, m])
  {
    FoundAlone(EntryOf(issued[m]), issued[k].name);
    FoundAlone(EntryOf(issued[k]), issued[m].name);
    TwoOrders(issued, m, k);
  }

  // Two elements at one place stand in the order in which they came, or one of them is taken for the head.
  lemma TwoNamesDiffer(x: Entry, w: Name, y: Entry, v: Name)
    requires x.id == y.id && x.name != y.name
    ensures Place([x], w, y) != Place([y], v, x)
  {
    FoundAlone(x, y.name);
    FoundAlone(y, x.name);
    BeforeTotal(x.id, y.id);
    if y.name != HEAD {
      PlaceSecond(x, w, y);
    }
    if x.name != HEAD {
      PlaceSecond(y, v, x);
    }
  }

  lemma HeadDiffers(h: Entry, w: Name, x: Entry, v: Name)
    requires h.name == HEAD != x.name
    ensures Place([h], v, x) != Place([x], w, h)
  {
    FoundAlone(x, h.name);
    PlaceSecond(h, v, x);
  }

  lemma PlaceMisled(x: Entry, y: Entry, e: Entry)
    requires Before(x.id, e.id) && x.name != y.name && e.name != x.name && e.name != y.name
    requires y.name != HEAD && e.name != HEAD
    ensures Place([x, y], y.name, e) == [x, y, e]
  {
    BeforeTotal(x.id, e.id);
    assert IndexOf([x, y], y.name) == 1 && IndexOf([x, y], e.name) == 2;
    assert PlaceOf([x, y], y.name, e.id) == 2;
    assert [x, y][..2] + [e] + [x, y][2..] == [x, y, e];
  }

  lemma PlaceThird(x: Entry, y: Entry, after: Name, e: Entry)
    requires Before(x.id, e.id) && Before(y.id, e.id) && e.name != x.name && e.name != y.name && e.name != HEAD
    ensures Place([x, y], after, e) == [x, y, e]
  {
    BeforeTotal(x.id, e.id);
    assert IndexOf([x, y], e.name) == 2;
    assert Ids([x, y]) == [x.id, y.id];
    assert PlaceOf([x, y], after, e.id) == 2;
    assert [x, y][..2] + [e] + [x, y][2..] == [x, y, e];
  }

  // j, k and m are three elements of which none is named like the head.
  lemma MisledApart(issued: seq<Insert>, j: nat, k: nat, m: nat)
    requires OnePosition(issued) && HeadAlone(issued) && Misled(issued, j, k, m)
    ensures Before(issued[j].id, issued[k].id)
    ensures issued[j].name != issued[k].name && issued[j].name != issued[m].name && issued[k].name != issued[m].name
    ensures issued[j].name != HEAD && issued[k].name != HEAD && issued[m].name != HEAD
  {
    BeforeTransitive(issued[j].id, issued[m].id, issued[k].id);
    BeforeTotal(issued[j].id, issued[k].id);
    BeforeTotal(issued[j].id, issued[m].id);
    BeforeTotal(issued[m].id, issued[k].id);
  }

  // An order of j, k and m.
  ghost predicate OrderOf(issued: seq<Insert>, a: seq<nat>, j: nat, k: nat, m: nat) {
    InRange(issued, a) && Distinct(a) && forall i :: i in a <==> i == j || i == k || i == m
  }

  lemma MisledLast(issued: seq<Insert>, j: nat, k: nat, m: nat) returns (a: seq<nat>)
    requires OnePosition(issued) && HeadAlone(issued) && Misled(issued, j, k, m)
    ensures OrderOf(issued, a, j, k, m)
    ensures LinkAll(issued, a) == [EntryOf(issued[j]), EntryOf(issued[k]), EntryOf(issued[m])]
  {
    MisledApart(issued, j, k, m);
    BeforeTotal(issued[j].id, issued[k].id);
    LinkTwo(issued, j, k);
    PlaceSecond(EntryOf(issued[j]), issued[k].after, EntryOf(issued[k]));
    LinkThree(issued, j, k, m);
    PlaceMisled(EntryOf(issued[j]), EntryOf(issued[k]), EntryOf(issued[m]));
    a := [j, k, m];
  }

  lemma MisledFirst(issued: seq<Insert>, j: nat, k: nat, m: nat) returns (a: seq<nat>)
    requires OnePosition(issued) && HeadAlone(issued) && Misled(issued, j, k, m)
    ensures OrderOf(issued, a, j, k, m)
    ensures LinkAll(issued, a) == [EntryOf(issued[j]), EntryOf(issued[m]), EntryOf(issued[k])]
  {
    MisledApart(issued, j, k, m);
    LinkTwo(issued, m, j);
    PlaceSecond(EntryOf(issued[m]), issued[j].after, EntryOf(issued[j]));
    LinkThree(issued, m, j, k);
    PlaceThird(EntryOf(issued[j]), EntryOf(issued[m]), issued[k].after, EntryOf(issued[k]));
    a := [m, j, k];
  }

  lemma MisledOrders(issued: seq<Insert>, j: nat, k: nat, m: nat) returns (a: seq<nat>, b: seq<nat>)
    requires OnePosition(issued) && HeadAlone(issued) && Misled(issued, j, k, m)
    ensures Disagree(issued, a, b)
  {
    MisledApart(issued, j, k, m);
    a := MisledLast(issued, j, k, m);
    b := MisledFirst(issued, j, k, m);
    assert LinkAll(issued, a)[1].name != LinkAll(issued, b)[1].name;
  }

  lemma UnsettledOrders(issued: seq<Insert>) returns (a: seq<nat>, b: seq<nat>)
    requires !Settled(issued)
    ensures Disagree(issued, a, b)
  {
    if m: nat, k: nat :|
      m < |issued| && k < |issued| && issued[m].name == issued[k].name && issued[m].id != issued[k].id
    {
      TwoPositionsOrders(issued, m, k);
      a, b := [m, k], [k, m];
    } else if m: nat, k: nat :|
      m < |issued| && k < |issued| && issued[m].id == issued[k].id && issued[m].name != issued[k].name
    {
      TwoNamesDiffer(EntryOf(issued[m]), issued[k].after, EntryOf(issued[k]), issued[m].after);
      TwoOrders(issued, m, k);
      a, b := [m, k], [k, m];
    } else if m: nat, k: nat :| m < |issued| && k < |issued| && issued[m].name == HEAD && issued[k].name != HEAD {
      HeadDiffers(EntryOf(issued[m]), issued[m].after, EntryOf(issued[k]), issued[k].after);
      TwoOrders(issued, m, k);
      a, b := [m, k], [k, m];
    } else {
      var j: nat, k: nat, m: nat :| Misled(issued, j, k, m);
      a, b := MisledOrders(issued, j, k, m);
    }
  }

  /** All orders of any part of a set of inserts give one list each, exactly if the inserts are settled. */
  lemma OrdersAgreeExactly(issued: seq<Insert>)
    ensures (forall a, b | InRange(issued, a) && InRange(issued, b) && SameInserts(a, b) ::
               LinkAll(issued, a) == LinkAll(issued, b)) <==> Settled(issued)
  {
    if Settled(issued) {
      forall a, b | InRange(issued, a) && InRange(issued, b) && SameInserts(a, b)
        ensures LinkAll(issued, a) == LinkAll(issued, b)
      {
        SettledOrdersAgree(issued, a, b);
      }
    } else {
      var a, b := UnsettledOrders(issued);
    }
  }
}
