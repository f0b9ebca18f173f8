/** Which node serves which slot, as values: what a claim does and what all claims together lead to. */
module SlotOwners {
  import opened Options
  import opened ClusterNode

  type Owners = seq<Option<Id>>

  // How many slots node n serves.
  function Count(owner: Owners, n: Id): (c: nat)
    ensures c == 0 <==> Some(n) !in owner
  {
    if owner == [] then 0
    else Count(owner[..|owner| - 1], n) + if owner[|owner| - 1] == Some(n) then 1 else 0
  }

  lemma {:induction false} CountUpdate(owner: Owners, j: nat, v: Option<Id>, n: Id)
    requires j < |owner|
    ensures Count(owner[j := v], n)
         == Count(owner, n) - (if owner[j] == Some(n) then 1 else 0) + (if v == Some(n) then 1 else 0)
  {
    var last := |owner| - 1;
    if j == last {
      assert owner[j := v][..last] == owner[..last];
    } else {
      assert owner[j := v][..last] == owner[..last][j := v];
      CountUpdate(owner[..last], j, v, n);
    }
  }

  // A slot goes to whoever claims it with a greater configEpoch than its owner has.
  function Rebound(o: Option<Id>, imported: bool, epochs: seq<nat>, sender: Id, epoch: nat, claimed: bool): Option<Id> {
    if claimed && o != Some(sender) && !imported && (o.None? || (o.value < |epochs| && epochs[o.value] < epoch))
    then Some(sender) else o
  }

  /******* Where all claims lead *******/

  // A stable configuration: what each node claims, and under which epoch.
  datatype Claim = Claim(epoch: nat, slots: set<nat>)

  // What one node makes of the headers it has seen, for one slot: the owner and the recorded epochs.
  datatype View = View(owner: Option<Id>, epochs: seq<nat>)

  function See(v: View, claims: seq<Claim>, n: Id, slot: nat): (r: View)
    requires n < |claims| == |v.epochs|
    ensures |r.epochs| == |claims|
  {
    var epochs := v.epochs[n := Max(v.epochs[n], claims[n].epoch)];
    View(Rebound(v.owner, false, epochs, n, claims[n].epoch, slot in claims[n].slots), epochs)
  }

  predicate Known(claims: seq<Claim>, order: seq<Id>) {
    forall i | 0 <= i < |order| :: order[i] < |claims|
  }

  function SeeAll(claims: seq<Claim>, order: seq<Id>, slot: nat): (r: View)
    requires Known(claims, order)
    ensures |r.epochs| == |claims|
  {
    if order == [] then View(None, seq(|claims|, _ => 0))
    else See(SeeAll(claims, order[..|order| - 1], slot), claims, order[|order| - 1], slot)
  }

  function Heard(order: seq<Id>): set<Id> { set n | n in order }

  lemma HeardLast(order: seq<Id>)
    requires order != []
    ensures Heard(order) == Heard(order[..|order| - 1]) + {order[|order| - 1]}
  {
    assert order == order[..|order| - 1] + [order[|order| - 1]];
  }

  predicate Claims(claims: seq<Claim>, n: Id, slot: nat) { n < |claims| && slot in claims[n].slots }

  // A claimant among those heard that none of them exceeds, or nobody.
  ghost predicate Greatest(claims: seq<Claim>, heard: set<Id>, slot: nat, o: Option<Id>) {
    match o
    case None => forall n | n in heard :: !Claims(claims, n, slot)
    case Some(m) =>
      && m in heard && Claims(claims, m, slot)
      && forall n | n in heard && Claims(claims, n, slot) :: claims[n].epoch <= claims[m].epoch
  }

  /** However often and in whichever order claims arrive, a slot is served by a claimant none exceeds. */
  lemma {:induction false} OwnerHasGreatestEpoch(claims: seq<Claim>, order: seq<Id>, slot: nat)
    requires Known(claims, order)
    ensures forall n: Id | n < |claims| ::
      SeeAll(claims, order, slot).epochs[n] == if n in Heard(order) then claims[n].epoch else 0
    ensures Greatest(claims, Heard(order), slot, SeeAll(claims, order, slot).owner)
  {
    if order != [] {
      OwnerHasGreatestEpoch(claims, order[..|order| - 1], slot);
      HeardLast(order);
    }
  }

  // Two claimants that nobody exceeds.
  ghost predicate Tie(claims: seq<Claim>, heard: set<Id>, slot: nat, m: Id, n: Id) {
    m != n && Greatest(claims, heard, slot, Some(m)) && Greatest(claims, heard, slot, Some(n))
  }

  // The same claims, heard in two orders, with different outcomes.
  ghost predicate Disagree(claims: seq<Claim>, heard: set<Id>, slot: nat, a: seq<Id>, b: seq<Id>) {
    && Known(claims, a) && Known(claims, b) && Heard(a) == heard == Heard(b)
    && SeeAll(claims, a, slot).owner != SeeAll(claims, b, slot).owner
  }

  lemma {:induction false} FirstKeepsSlot(claims: seq<Claim>, order: seq<Id>, slot: nat, m: Id)
    requires Known(claims, order) && Greatest(claims, Heard(order) + {m}, slot, Some(m))
    ensures SeeAll(claims, [m] + order, slot).owner == Some(m)
  {
    var all := [m] + order;
    if order == [] {
      assert all[..0] == [];
    } else {
      var last := order[|order| - 1];
      assert all[..|all| - 1] == [m] + order[..|order| - 1];
      HeardLast(order);
      FirstKeepsSlot(claims, order[..|order| - 1], slot, m);
      OwnerHasGreatestEpoch(claims, all[..|all| - 1], slot);
      assert m in Heard(all[..|all| - 1]) by {
        assert all[..|all| - 1][0] == m;
      }
      assert last in Heard(order);
    }
  }

  lemma {:induction false} Listed(claims: seq<Claim>, heard: set<Id>) returns (order: seq<Id>)
    requires forall n | n in heard :: n < |claims|
    ensures Heard(order) == heard && Known(claims, order)
  {
    if heard == {} {
      order := [];
    } else {
      var n :| n in heard;
      var rest := Listed(claims, heard - {n});
      order := rest + [n];
      HeardLast(order);
      assert order[..|rest|] == rest;
    }
  }

  lemma TieMakesOrderMatter(claims: seq<Claim>, heard: set<Id>, slot: nat, m: Id, n: Id)
    returns (a: seq<Id>, b: seq<Id>)
    requires (forall k | k in heard :: k < |claims|) && Tie(claims, heard, slot, m, n)
    ensures Disagree(claims, heard, slot, a, b)
  {
    var order := Listed(claims, heard);
    a, b := [m] + order, [n] + order;
    assert heard + {m} == heard == heard + {n};
    FirstKeepsSlot(claims, order, slot, m);
    FirstKeepsSlot(claims, order, slot, n);
    assert Heard(a) == Heard(order) + {m} && Heard(b) == Heard(order) + {n};
  }

  /** Nodes that have heard the same claims agree on a slot, whatever the order, exactly when no tie is at its top. */
  lemma AgreeExactlyWithoutTies(claims: seq<Claim>, heard: set<Id>, slot: nat)
    requires forall n | n in heard :: n < |claims|
    ensures (exists a, b :: Disagree(claims, heard, slot, a, b)) <==> (exists m, n :: Tie(claims, heard, slot, m, n))
  {
    if a, b :| Disagree(claims, heard, slot, a, b) {
      OwnerHasGreatestEpoch(claims, a, slot);
      OwnerHasGreatestEpoch(claims, b, slot);
      assert Tie(claims, heard, slot, SeeAll(claims, a, slot).owner.value, SeeAll(claims, b, slot).owner.value);
    }
    if m, n :| Tie(claims, heard, slot, m, n) {
      var a, b := TieMakesOrderMatter(claims, heard, slot, m, n);
    }
  }
}

/** The slot table as the server updates it: owners, bitmaps and counters always agree. */
module ClusterSlots {
  import opened Options
  import opened ClusterNode
  import opened SlotOwners

  const CLUSTER_SLOTS := 16384

  class SlotTable {
    const nodes: nat
    const slots: array<Option<Id>>
    const bitmap: array2<bool>             // bitmap[n, j] is bit j of node n's slots
    const numslots: array<nat>
    const importingFrom: array<Option<Id>>
    const migratingTo: array<Option<Id>>
    var known: set<Id>                     // the nodes in the node table

    ghost predicate Shaped()
      reads this
    {
      && slots.Length == importingFrom.Length == migratingTo.Length == bitmap.Length1 == CLUSTER_SLOTS
      && numslots.Length == bitmap.Length0 == nodes
      && slots != importingFrom && slots != migratingTo && importingFrom != migratingTo
    }

    ghost predicate Valid()
      reads this, slots, bitmap, numslots
    {
      && Shaped()
      && (forall n | n in known :: n < nodes)
      && (forall j | 0 <= j < slots.Length && slots[j].Some? :: slots[j].value in known)
      && (forall n, j | 0 <= n < nodes && 0 <= j < slots.Length :: bitmap[n, j] <==> slots[j] == Some(n))
      && (forall n: Id | n < nodes :: numslots[n] == Count(slots[..], n))
    }

    ghost function Repr(): set<object>
      reads this
    {
      {slots, bitmap, numslots}
    }

    constructor (nodes: nat, known: set<Id>)
      requires forall n | n in known :: n < nodes
      ensures Valid() && this.nodes == nodes && this.known == known
      ensures forall j: nat | j < CLUSTER_SLOTS :: slots[j].None?
      ensures fresh(slots) && fresh(bitmap) && fresh(numslots) && fresh(importingFrom) && fresh(migratingTo)
    {
      this.nodes, this.known := nodes, known;
      slots := new Option<Id>[CLUSTER_SLOTS](_ => None);
      bitmap := new bool[nodes, CLUSTER_SLOTS]((_, _) => false);
      numslots := new nat[nodes](_ => 0);
      importingFrom := new Option<Id>[CLUSTER_SLOTS](_ => None);
      migratingTo := new Option<Id>[CLUSTER_SLOTS](_ => None);
      new;
      assert forall n: Id :: Some(n) !in slots[..];
    }

    method AddSlot(n: Id, slot: nat) returns (ok: bool)
      requires Valid() && n in known && slot < CLUSTER_SLOTS
      modifies Repr()
      ensures Valid()
      ensures ok <==> old(slots[slot]).None?
      ensures slots[..] == if ok then old(slots[..])[slot := Some(n)] else old(slots[..])
    {
      if slots[slot].Some? {
        return false;
      }
      forall m: Id | m < nodes
        ensures Count(slots[..][slot := Some(n)], m) == Count(slots[..], m) + if m == n then 1 else 0
      {
        CountUpdate(slots[..], slot, Some(n), m);
      }
      ghost var now := slots[..][slot := Some(n)];
      if !bitmap[n, slot] {
        bitmap[n, slot] := true;
        numslots[n] := numslots[n] + 1;
      }
      slots[slot] := Some(n);
      assert slots[..] == now;
      return true;
    }

    method DelSlot(slot: nat) returns (ok: bool)
      requires Valid() && slot < CLUSTER_SLOTS
      modifies Repr()
      ensures Valid()
      ensures ok <==> old(slots[slot]).Some?
      ensures slots[..] == old(slots[..])[slot := None]
    {
      if slots[slot].None? {
        return false;
      }
      var n := slots[slot].value;
      forall m: Id | m < nodes
        ensures Count(slots[..][slot := None], m) == Count(slots[..], m) - if m == n then 1 else 0
      {
        CountUpdate(slots[..], slot, None, m);
      }
      ghost var now := slots[..][slot := None];
      assert bitmap[n, slot];   // the server stops here when the bit is clear
      bitmap[n, slot] := false;
      numslots[n] := numslots[n] - 1;
      slots[slot] := None;
      assert slots[..] == now;
      return true;
    }

    method DelNodeSlots(n: Id) returns (deleted: nat)
      requires Valid() && n in known
      modifies Repr()
      ensures Valid() && deleted == Count(old(slots[..]), n)
      ensures forall j: nat | j < CLUSTER_SLOTS :: slots[j] == if old(slots[j]) == Some(n) then None else old(slots[j])
    {
      deleted := 0;
      for j := 0 to CLUSTER_SLOTS
        invariant Valid()
        invariant forall i: nat | i < j :: slots[i] == if old(slots[i]) == Some(n) then None else old(slots[i])
        invariant forall i: nat | j <= i < CLUSTER_SLOTS :: slots[i] == old(slots[i])
        invariant deleted + Count(slots[..], n) == Count(old(slots[..]), n)
      {
        if bitmap[n, j] {
          CountUpdate(slots[..], j, None, n);
          var _ := DelSlot(j);
          deleted := deleted + 1;
        }
      }
    }

    method DelNode(n: Id)
      requires Valid() && n in known
      modifies Repr(), importingFrom, migratingTo, this`known
      ensures Valid() && known == old(known) - {n}
      ensures forall j: nat | j < CLUSTER_SLOTS ::
        && slots[j] == (if old(slots[j]) == Some(n) then None else old(slots[j]))
        && importingFrom[j] == (if old(importingFrom[j]) == Some(n) then None else old(importingFrom[j]))
        && migratingTo[j] == (if old(migratingTo[j]) == Some(n) then None else old(migratingTo[j]))
    {
      for j := 0 to CLUSTER_SLOTS
        invariant Valid() && known == old(known)
        invariant forall i: nat | i < j ::
          && slots[i] == (if old(slots[i]) == Some(n) then None else old(slots[i]))
          && importingFrom[i] == (if old(importingFrom[i]) == Some(n) then None else old(importingFrom[i]))
          && migratingTo[i] == (if old(migratingTo[i]) == Some(n) then None else old(migratingTo[i]))
        invariant forall i: nat | j <= i < CLUSTER_SLOTS ::
          && slots[i] == old(slots[i])
          && importingFrom[i] == old(importingFrom[i]) && migratingTo[i] == old(migratingTo[i])
      {
        if importingFrom[j] == Some(n) {
          importingFrom[j] := None;
        }
        if migratingTo[j] == Some(n) {
          migratingTo[j] := None;
        }
        if slots[j] == Some(n) {
          var _ := DelSlot(j);
        }
      }
      known := known - {n};
    }

    // A replica that won its election takes every slot of its master.
    method FailoverReplaceYourMaster(self: Id, master: Id)
      requires Valid() && self in known && master in known && self != master
      modifies Repr()
      ensures Valid()
      ensures forall j: nat | j < CLUSTER_SLOTS ::
        slots[j] == if old(slots[j]) == Some(master) then Some(self) else old(slots[j])
      ensures numslots[master] == 0
    {
      for j := 0 to CLUSTER_SLOTS
        invariant Valid()
        invariant forall i: nat | i < j ::
          slots[i] == if old(slots[i]) == Some(master) then Some(self) else old(slots[i])
        invariant forall i: nat | j <= i < CLUSTER_SLOTS :: slots[i] == old(slots[i])
      {
        if bitmap[master, j] {
          var _ := DelSlot(j);
          var _ := AddSlot(self, j);
        }
      }
      assert Some(master) !in slots[..];
    }

    // One slot of a claim.
    method RebindSlot(j: nat, sender: Id, epoch: nat, claimed: bool, epochs: seq<nat>) returns (moved: bool)
      requires Valid() && sender in known && |epochs| == nodes && j < CLUSTER_SLOTS
      modifies Repr()
      ensures Valid()
      ensures slots[..]
        == old(slots[..])[j := Rebound(old(slots[j]), importingFrom[j].Some?, epochs, sender, epoch, claimed)]
      ensures moved <==> slots[j] != old(slots[j])
      ensures importingFrom[j].Some? || !claimed ==> !moved
    {
      if claimed && slots[j] != Some(sender) && importingFrom[j].None?
         && (slots[j].None? || epochs[slots[j].value] < epoch)
      {
        var _ := DelSlot(j);
        var _ := AddSlot(sender, j);
        return true;
      }
      return false;
    }

    // All slots of a claim: which of them held keys here, and whether the master lost one.
    method RebindSlots(self: Id, curmaster: Option<Id>, sender: Id, epoch: nat, claimed: seq<bool>,
                       epochs: seq<nat>, keys: seq<bool>) returns (dirty: seq<nat>, newmaster: bool)
      requires Valid() && sender in known && sender != self && |epochs| == nodes
      requires |claimed| == |keys| == CLUSTER_SLOTS
      modifies Repr()
      ensures Valid()
      ensures forall j: nat | j < CLUSTER_SLOTS ::
        slots[j] == Rebound(old(slots[j]), importingFrom[j].Some?, epochs, sender, epoch, claimed[j])
      ensures forall j: nat | j < CLUSTER_SLOTS && importingFrom[j].Some? :: slots[j] == old(slots[j])
      ensures newmaster <==> exists j: nat ::
        j < CLUSTER_SLOTS && old(slots[j]) == curmaster && slots[j] != old(slots[j])
      ensures forall j: nat :: j in dirty <==>
        j < CLUSTER_SLOTS && keys[j] && old(slots[j]) == Some(self) && slots[j] != Some(self)
    {
      dirty, newmaster := [], false;
      for j := 0 to CLUSTER_SLOTS
        invariant Valid()
        invariant forall i: nat | i < j ::
          slots[i] == Rebound(old(slots[i]), importingFrom[i].Some?, epochs, sender, epoch, claimed[i])
        invariant forall i: nat | j <= i < CLUSTER_SLOTS :: slots[i] == old(slots[i])
        invariant newmaster <==> exists i: nat :: i < j && old(slots[i]) == curmaster && slots[i] != old(slots[i])
        invariant forall i: nat ::
          i in dirty <==> i < j && keys[i] && old(slots[i]) == Some(self) && slots[i] != Some(self)
      {
        var owner := slots[j];
        ghost var before := slots[..];
        var moved := RebindSlot(j, sender, epoch, claimed[j], epochs);
        assert forall i: nat | i < CLUSTER_SLOTS && i != j :: slots[i] == slots[..][i] == before[i];
        if moved {
          if owner == Some(self) && keys[j] {
            dirty := dirty + [j];
          }
          if owner == curmaster {
            newmaster := true;
          }
        }
      }
    }

    /**
     A claim by another master: `curmaster` is this node or the master it replicates, which a replica may not
     know; `epochs` are the recorded configEpochs, `keys` says which slots hold keys here, `quiet` that a module
     has switched redirections off.
     */
    method UpdateSlotsConfigWith(self: Id, curmaster: Option<Id>, sender: Id, epoch: nat, claimed: seq<bool>,
                                 epochs: seq<nat>, keys: seq<bool>, quiet: bool) returns (next: Reaction)
      requires Valid() && sender in known && (curmaster.Some? ==> curmaster.value in known) && |epochs| == nodes
      requires |claimed| == |keys| == CLUSTER_SLOTS
      modifies Repr()
      ensures Valid()
      ensures sender == self ==> slots[..] == old(slots[..]) && next == Nothing
      ensures sender != self ==>
        (forall j: nat | j < CLUSTER_SLOTS ::
           slots[j] == Rebound(old(slots[j]), importingFrom[j].Some?, epochs, sender, epoch, claimed[j]))
        && (forall j: nat | j < CLUSTER_SLOTS && slots[j] != old(slots[j]) ::
              && slots[j] == Some(sender) && claimed[j] && importingFrom[j].None?
              && (old(slots[j]).None? || (old(slots[j]).value < nodes && epochs[old(slots[j]).value] < epoch)))
        && (forall j: nat | j < CLUSTER_SLOTS && claimed[j] && importingFrom[j].None? ::
              (old(slots[j]).None? || (old(slots[j]).value < nodes && epochs[old(slots[j]).value] < epoch))
              ==> slots[j] == Some(sender))
        && (next.Replicate? <==> !quiet && curmaster.Some? && curmaster !in slots[..] && (curmaster in old(slots[..])))
        && (next.Fault? <==> !quiet && curmaster.None? && exists j: nat ::
              j < CLUSTER_SLOTS && old(slots[j]).None? && slots[j].Some?)
        && (next.Replicate? ==> next.master == sender)
        && (next.DropKeys? ==> forall j: nat :: j in next.slots <==>
              j < CLUSTER_SLOTS && keys[j] && old(slots[j]) == Some(self) && slots[j] != Some(self))
        && (next.Nothing? && !quiet ==> forall j: nat ::
              j < CLUSTER_SLOTS && keys[j] && old(slots[j]) == Some(self) ==> slots[j] == Some(self))
    {
      if sender == self {
        return Nothing;
      }
      var dirty, newmaster := RebindSlots(self, curmaster, sender, epoch, claimed, epochs, keys);
      if quiet {
        return Nothing;
      }
      if newmaster && curmaster.None? {
        return Fault;
      }
      if newmaster && numslots[curmaster.value] == 0 {
        return Replicate(sender);
      } else if dirty != [] {
        return DropKeys(dirty);
      }
      return Nothing;
    }
  }

  // What the server does after a claim has changed its table; Fault is the use of a master that is not known.
  datatype Reaction = Nothing | Replicate(master: Id) | DropKeys(slots: seq<nat>) | Fault
}
