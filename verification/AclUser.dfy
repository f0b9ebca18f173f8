/** A user's command rules as the server keeps them, changed in place and described in a loop. */
module AclUserObjects {
  import opened Words
  import opened AclUsers
  import opened AclDescriptions
  import opened AclRuleWords

  /** The numbers of commands: one per name whatever its case, never taken back, never the reserved one. */
  class CommandIds {
    var ids: map<string, nat>
    var nextId: nat

    ghost predicate Valid()
      reads this
    {
      && nextId != RESERVED
      && (forall name | name in ids :: ids[name] < nextId && ids[name] != RESERVED)
      && (forall a, b | a in ids && b in ids && a != b :: ids[a] != ids[b])
    }

    constructor ()
      ensures Valid() && ids == map[]
    {
      ids, nextId := map[], 0;
    }

    method GetCommandID(name: string) returns (id: nat)
      requires Valid()
      modifies this
      ensures Valid() && id != RESERVED
      ensures ids == old(ids)[Lower(name) := id]
      ensures Lower(name) in old(ids) ==> id == old(ids)[Lower(name)]
      ensures Lower(name) !in old(ids) ==> id !in old(ids).Values
    {
      var key := Lower(name);
      if key in ids {
        assert ids == ids[key := ids[key]];
        return ids[key];
      }
      id := nextId;
      ids := ids[key := id];
      nextId := nextId + 1;
      if nextId == RESERVED {
        nextId := nextId + 1;
      }
    }
  }

  lemma ObeySnoc(t: Table, u: User, ops: seq<string>, op: string)
    ensures ObeyAll(t, u, ops + [op]).user == Obey(t, ObeyAll(t, u, ops).user, op).user
  {
    ObeyMore(t, u, ops, [op]);
    assert [op][1..] == [];
  }

  lemma NextCommand(cs: seq<CommandInfo>, k: nat, u: User, fake: User, words: seq<string>)
    requires k < |cs|
    ensures (words + OneCommand(cs[k], u, fake)) + CommandRules(cs[k + 1..], u, Fixed(cs[k], u, fake))
         == words + CommandRules(cs[k..], u, fake)
    ensures AllFixed(cs[k + 1..], u, Fixed(cs[k], u, fake)) == AllFixed(cs[k..], u, fake)
  {
    assert cs[k..][1..] == cs[k + 1..];
  }

  lemma NextCategory(cs: seq<CommandInfo>, u: User, categories: seq<string>, j: nat, words: seq<string>)
    requires j < |categories|
    ensures (words + CategoryRule(cs, u, categories[j])) + CategoryRules(cs, u, categories[j + 1..])
         == words + CategoryRules(cs, u, categories[j..])
  {
    assert categories[j..][1..] == categories[j + 1..];
  }

  class AclUser {
    const bits: array<bool>             // allowed_commands
    var all: bool                       // USER_FLAG_ALLCOMMANDS
    const subs: array<seq<string>>      // allowed_subcommands

    ghost predicate Valid()
      reads this
    {
      bits.Length == subs.Length == BITS
    }

    ghost function Snapshot(): User
      reads this, bits, subs
    {
      User(bits[..], all, subs[..])
    }

    constructor ()
      ensures Valid() && Snapshot() == Fresh() && fresh(bits) && fresh(subs)
    {
      bits := new bool[BITS](_ => false);
      subs := new seq<string>[BITS](_ => []);
      all := false;
      new;
      assert bits[..] == seq(BITS, _ => false) && subs[..] == NoSubs();
    }

    method SetCommandBit(id: nat, on: bool)
      requires Valid()
      modifies this`all, bits
      ensures Snapshot() == SetBit(old(Snapshot()), id, on)
      ensures all == (old(all) && (on || id >= BITS))
      ensures forall j: nat | j < BITS :: bits[j] == if j == id then on else old(bits[j])
    {
      if id >= BITS {
        return;
      }
      if on {
        bits[id] := true;
      } else {
        bits[id] := false;
        all := false;
      }
    }

    method ResetSubcommandsForCommand(id: nat)
      requires Valid()
      modifies subs
      ensures Snapshot() == ResetSubs(old(Snapshot()), id)
      ensures forall j: nat | j < BITS :: subs[j] == if j == id then [] else old(subs[j])
    {
      if id < BITS {
        subs[id] := [];
      }
    }

    method AddAllowedSubcommand(id: nat, sub: string)
      requires Valid() && id < BITS
      modifies subs
      ensures Snapshot() == AddAllowedSub(old(Snapshot()), id, sub)
      ensures subs[id] == old(subs[id]) + if Listed(old(subs[id]), sub) then [] else [sub]
      ensures forall j: nat | j < BITS && j != id :: subs[j] == old(subs[j])
    {
      var items := subs[id];
      for j := 0 to |items|
        invariant forall i | 0 <= i < j :: Lower(items[i]) != Lower(sub)
      {
        if Lower(items[j]) == Lower(sub) {
          return;
        }
      }
      subs[id] := items + [sub];
    }

    // memset of the bitmap, with the flag and the subcommands.
    method SetAll(on: bool)
      requires Valid()
      modifies this`all, bits, subs
      ensures Snapshot() == User(seq(BITS, _ => on), on, NoSubs())
      ensures all == on && forall j: nat | j < BITS :: bits[j] == on && subs[j] == []
    {
      for j := 0 to BITS
        invariant forall i | 0 <= i < j :: bits[i] == on && subs[i] == []
      {
        bits[j] := on;
        subs[j] := [];
      }
      all := on;
      assert bits[..] == seq(BITS, _ => on) && subs[..] == NoSubs();
    }

    method SetBitsForCategory(t: Table, category: string, on: bool) returns (ok: bool)
      requires Valid()
      modifies this`all, bits, subs
      ensures ok == (Lower(category) in t.categories)
      ensures Snapshot()
        == if ok then SetCategory(t.commands, old(Snapshot()), Lower(category), on) else old(Snapshot())
      ensures if ok then CategorySet(t.commands, old(Snapshot()), Snapshot(), Lower(category), on)
              else Snapshot() == old(Snapshot())
    {
      if Lower(category) !in t.categories {
        return false;
      }
      ghost var goal := SetCategory(t.commands, Snapshot(), Lower(category), on);
      SetCategorySets(t.commands, Snapshot(), Lower(category), on);
      assert t.commands[0..] == t.commands;
      for k := 0 to |t.commands|
        invariant Valid() && SetCategory(t.commands[k..], Snapshot(), Lower(category), on) == goal
      {
        var c := t.commands[k];
        assert t.commands[k..][0] == c && t.commands[k..][1..] == t.commands[k + 1..];
        if !c.isModule && Lower(category) in c.categories {
          SetCommandBit(c.id, on);
          ResetSubcommandsForCommand(c.id);
        }
      }
      return true;
    }

    // ACLSetUser on the command part.
    method SetUser(t: Table, op: string) returns (ok: bool)
      requires Valid() && ValidTable(t)
      modifies this`all, bits, subs
      ensures Obey(t, old(Snapshot()), op) == Result(Snapshot(), ok)
    {
      var rule := Parse(op);
      ok := Follow(t, rule);
    }

    method Follow(t: Table, rule: Rule) returns (ok: bool)
      requires Valid() && ValidTable(t)
      modifies this`all, bits, subs
      ensures Apply(t, old(Snapshot()), rule) == Result(Snapshot(), ok)
    {
      match rule {
        case AddAll => SetAll(true); return true;
        case DropAll => SetAll(false); return true;
        case AddCommand(name) => ok := AllowCommand(t, name, true);
        case DropCommand(name) => ok := AllowCommand(t, name, false);
        case AddSub(name, sub) =>
          var found := LookupCommand(t.commands, name);
          if found.Absent? || sub == "" || bits[found.id] {
            return false;
          }
          AddAllowedSubcommand(found.id, sub);
          SetCommandBit(found.id, false);
          return true;
        case Category(name, on) => ok := SetBitsForCategory(t, name, on);
        case Elsewhere => return true;
        case Invalid => return false;
      }
    }

    method AllowCommand(t: Table, name: string, on: bool) returns (ok: bool)
      requires Valid()
      modifies this`all, bits, subs
      ensures Apply(t, old(Snapshot()), if on then AddCommand(name) else DropCommand(name)) == Result(Snapshot(), ok)
      ensures if ok then CommandSet(t, old(Snapshot()), Snapshot(), name, on)
              else Snapshot() == old(Snapshot()) && forall i: nat :: !HasName(t, i, name)
    {
      CommandRuleSets(t, Snapshot(), name, on);
      var found := LookupCommand(t.commands, name);
      if found.Absent? {
        return false;
      }
      SetCommandBit(found.id, on);
      ResetSubcommandsForCommand(found.id);
      return true;
    }

    method CountCategoryBits(cs: seq<CommandInfo>, category: string) returns (on: nat, off: nat)
      requires Valid()
      ensures (on, off) == CountCategory(cs, Snapshot(), category)
      ensures on == |Among(cs, 0, Snapshot(), category, true)| && off == |Among(cs, 0, Snapshot(), category, false)|
    {
      on, off := 0, 0;
      CountsAmong(cs, 0, Snapshot(), category);
      assert cs[0..] == cs;
      for k := 0 to |cs|
        invariant var rest := CountCategory(cs[k..], Snapshot(), category);
          (on + rest.0, off + rest.1) == CountCategory(cs, Snapshot(), category)
      {
        assert cs[k..][0] == cs[k] && cs[k..][1..] == cs[k + 1..];
        if category in cs[k].categories {
          if cs[k].id < BITS && bits[cs[k].id] {
            on := on + 1;
          } else {
            off := off + 1;
          }
        }
      }
    }

    // A rule tried on the fake user, which has followed `ops` so far.
    method Try(t: Table, op: string, ghost ops: seq<string>)
      requires Valid() && ValidTable(t) && Snapshot() == ObeyAll(t, Fresh(), ops).user
      modifies this`all, bits, subs
      ensures Snapshot() == ObeyAll(t, Fresh(), ops + [op]).user
    {
      ObeySnoc(t, Fresh(), ops, op);
      var _ := SetUser(t, op);
    }

    method DescribeCategory(t: Table, category: string, fake: AclUser, text: string, ghost words: seq<string>)
      returns (more: string, ghost all: seq<string>)
      requires Valid() && ValidTable(t) && fake.Valid() && fake != this && fake.bits != bits && fake.subs != subs
      requires text == Ended(words, ' ') && fake.Snapshot() == ObeyAll(t, Fresh(), words).user
      modifies fake`all, fake.bits, fake.subs
      ensures all == words + CategoryRule(t.commands, Snapshot(), category) && more == Ended(all, ' ')
      ensures fake.Snapshot() == ObeyAll(t, Fresh(), all).user
    {
      more, all := text, words;
      var on, off := CountCategoryBits(t.commands, category);
      if (!bits[RESERVED] && on > off) || (bits[RESERVED] && off > on) {
        var op := (if bits[RESERVED] then "-@" else "+@") + category;
        fake.Try(t, op, words);
        EndedSnoc(words, op, ' ');
        more := text + op + [' '];
        all := words + [op];
      }
    }

    method DescribeCategories(t: Table, fake: AclUser, text: string, ghost words: seq<string>)
      returns (more: string, ghost all: seq<string>)
      requires Valid() && ValidTable(t) && fake.Valid() && fake != this && fake.bits != bits && fake.subs != subs
      requires text == Ended(words, ' ') && fake.Snapshot() == ObeyAll(t, Fresh(), words).user
      modifies fake`all, fake.bits, fake.subs
      ensures all == words + CategoryRules(t.commands, Snapshot(), t.categories) && more == Ended(all, ' ')
      ensures fake.Snapshot() == ObeyAll(t, Fresh(), all).user
    {
      ghost var u := Snapshot();
      ghost var goal := words + CategoryRules(t.commands, u, t.categories);
      more, all := text, words;
      assert t.categories[0..] == t.categories;
      for j := 0 to |t.categories|
        invariant fake.Valid() && Snapshot() == u && more == Ended(all, ' ')
        invariant all + CategoryRules(t.commands, u, t.categories[j..]) == goal
        invariant fake.Snapshot() == ObeyAll(t, Fresh(), all).user
      {
        NextCategory(t.commands, u, t.categories, j, all);
        more, all := DescribeCategory(t, t.categories[j], fake, more, all);
      }
      assert t.categories[|t.categories|..] == [] && all + [] == all;
    }

    // The opening rules, tried on the fake user as they are written.
    method DescribeOpening(t: Table, fake: AclUser) returns (text: string)
      requires Valid() && ValidTable(t) && fake.Valid() && fake.Snapshot() == Fresh()
      requires fake != this && fake.bits != bits && fake.subs != subs
      modifies fake`all, fake.bits, fake.subs
      ensures text == Ended(Opening(t, Snapshot()), ' ') && fake.Snapshot() == Draft(t, Snapshot())
    {
      var first := if bits[RESERVED] then "+@all" else "-@all";
      EndedSnoc([], first, ' ');
      fake.Try(t, first, []);
      assert [] + [first] == [first] && Ended([], ' ') + first + [' '] == first + [' '];
      ghost var words;
      text, words := DescribeCategories(t, fake, first + [' '], [first]);
    }

    method DescribeSubs(name: string, items: seq<string>, text: string, ghost words: seq<string>)
      returns (more: string, ghost all: seq<string>)
      requires text == Ended(words, ' ')
      ensures all == words + SubRules(name, items) && more == Ended(all, ' ')
    {
      more, all := text, words;
      assert items[0..] == items;
      for j := 0 to |items|
        invariant all + SubRules(name, items[j..]) == words + SubRules(name, items) && more == Ended(all, ' ')
      {
        assert items[j..][1..] == items[j + 1..];
        var op := "+" + name + "|" + items[j];
        EndedSnoc(all, op, ' ');
        more := more + op + [' '];
        all := all + [op];
      }
    }

    // The rule for the command itself, where the fake user differs.
    method DescribeBit(c: CommandInfo, fake: AclUser, text: string, ghost words: seq<string>)
      returns (more: string, ghost all: seq<string>)
      requires Valid() && c.id < BITS && fake.Valid() && fake != this && fake.bits != bits && fake.subs != subs
      requires text == Ended(words, ' ')
      modifies fake`all, fake.bits
      ensures all == words + BitRule(c, Snapshot(), old(fake.Snapshot())) && more == Ended(all, ' ')
      ensures fake.Snapshot() == Fixed(c, Snapshot(), old(fake.Snapshot()))
    {
      more, all := text, words;
      if bits[c.id] != fake.bits[c.id] {
        var op := (if bits[c.id] then "+" else "-") + c.name;
        EndedSnoc(words, op, ' ');
        more := text + op + [' '];
        all := words + [op];
        fake.SetCommandBit(c.id, bits[c.id]);
      }
    }

    method DescribeCommand(c: CommandInfo, fake: AclUser, text: string, ghost words: seq<string>)
      returns (more: string, ghost all: seq<string>)
      requires Valid() && c.id < BITS && fake.Valid() && fake != this && fake.bits != bits && fake.subs != subs
      requires text == Ended(words, ' ')
      modifies fake`all, fake.bits
      ensures all == words + OneCommand(c, Snapshot(), old(fake.Snapshot())) && more == Ended(all, ' ')
      ensures fake.Snapshot() == Fixed(c, Snapshot(), old(fake.Snapshot()))
    {
      more, all := DescribeBit(c, fake, text, words);
      if !bits[c.id] {
        more, all := DescribeSubs(c.name, subs[c.id], more, all);
      }
    }

    method DescribeCommands(cs: seq<CommandInfo>, fake: AclUser, text: string, ghost words: seq<string>)
      returns (more: string, ghost all: seq<string>)
      requires Valid() && fake.Valid() && fake != this && fake.bits != bits && fake.subs != subs
      requires text == Ended(words, ' ') && forall i | 0 <= i < |cs| :: cs[i].id < BITS
      modifies fake`all, fake.bits
      ensures all == words + CommandRules(cs, Snapshot(), old(fake.Snapshot())) && more == Ended(all, ' ')
      ensures fake.Snapshot() == AllFixed(cs, Snapshot(), old(fake.Snapshot()))
    {
      ghost var u := Snapshot();
      ghost var goal, end := words + CommandRules(cs, u, fake.Snapshot()), AllFixed(cs, u, fake.Snapshot());
      more, all := text, words;
      assert cs[0..] == cs;
      for k := 0 to |cs|
        invariant fake.Valid() && Snapshot() == u && more == Ended(all, ' ')
        invariant all + CommandRules(cs[k..], u, fake.Snapshot()) == goal
        invariant AllFixed(cs[k..], u, fake.Snapshot()) == end
      {
        NextCommand(cs, k, u, fake.Snapshot(), all);
        more, all := DescribeCommand(cs[k], fake, more, all);
      }
      assert cs[|cs|..] == [] && all + [] == all;
    }

    // ACLDescribeUserCommandRules; `panics` says that the prediction was wrong.
    method DescribeCommandRules(t: Table) returns (rules: string, panics: bool)
      requires Valid() && ValidTable(t)
      ensures rules == Join(Description(t, Snapshot()), ' ')
      ensures panics <==> Predicted(t, Snapshot()) != Snapshot().bits
    {
      var fake := new AclUser();
      var text := DescribeOpening(t, fake);
      ghost var words;
      text, words := DescribeCommands(t.commands, fake, text, Opening(t, Snapshot()));
      EndedJoin(words, ' ');
      rules := text[..|text| - 1];
      panics := fake.bits[..] != bits[..];
    }
  }
}
