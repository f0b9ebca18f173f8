/** What each word of a user's command rules does to the user, bit by bit. */
module AclRuleWords {
  import opened Words
  import opened AclUsers
  import opened AclDescriptions

  predicate Sized(u: User) { |u.bits| == |u.subs| == BITS }

  // r is u but for one command, which is allowed or not and has the given subcommands.
  ghost predicate OnlySet(u: User, r: User, id: nat, on: bool, subs: seq<string>) {
    && Sized(u) && Sized(r) && id < BITS && r.bits[id] == on && r.subs[id] == subs
    && forall j: nat | j < BITS && j != id :: r.bits[j] == u.bits[j] && r.subs[j] == u.subs[j]
  }

  /******* Categories *******/

  predicate Belongs(c: CommandInfo, category: string) { !c.isModule && category in c.categories }

  // Some command of the category, not a module's, has this number.
  ghost predicate InCategory(cs: seq<CommandInfo>, category: string, id: nat) {
    exists i :: 0 <= i < |cs| && cs[i].id == id && Belongs(cs[i], category)
  }

  ghost predicate Touches(cs: seq<CommandInfo>, category: string) {
    exists i :: 0 <= i < |cs| && cs[i].id < BITS && Belongs(cs[i], category)
  }

  // r is u with all the commands of a category allowed or not, and the subcommands of these forgotten.
  ghost predicate CategorySet(cs: seq<CommandInfo>, u: User, r: User, category: string, on: bool) {
    && Sized(u) && Sized(r)
    && (forall id: nat | id < BITS ::
          if InCategory(cs, category, id) then r.bits[id] == on && r.subs[id] == []
          else r.bits[id] == u.bits[id] && r.subs[id] == u.subs[id])
    && (r.all <==> u.all && (on || !Touches(cs, category)))
  }

  lemma FirstOrRest(cs: seq<CommandInfo>, category: string, id: nat)
    requires cs != []
    ensures InCategory(cs, category, id)
       <==> (cs[0].id == id && Belongs(cs[0], category)) || InCategory(cs[1..], category, id)
    ensures Touches(cs, category) <==> (cs[0].id < BITS && Belongs(cs[0], category)) || Touches(cs[1..], category)
  {
    assert forall i | 1 <= i < |cs| :: cs[i] == cs[1..][i - 1];
    assert forall i | 0 <= i < |cs| - 1 :: cs[1..][i] == cs[i + 1];
  }

  /** Whatever the order of the table, and with however many commands of the same number. */
  lemma {:induction false} SetCategorySets(cs: seq<CommandInfo>, u: User, category: string, on: bool)
    requires Sized(u)
    ensures CategorySet(cs, u, SetCategory(cs, u, category, on), category, on)
  {
    if cs != [] {
      var first := cs[0];
      FirstOrRest(cs, category, first.id);
      var v := if Belongs(first, category) then ResetSubs(SetBit(u, first.id, on), first.id) else u;
      SetCategorySets(cs[1..], v, category, on);
      forall id: nat
        ensures InCategory(cs, category, id)
           <==> (first.id == id && Belongs(first, category)) || InCategory(cs[1..], category, id)
      {
        FirstOrRest(cs, category, id);
      }
    }
  }

  /**
   +@category and -@category set exactly the commands of the category, and are refused exactly for a category
   that there is not.
   */
  lemma CategoryWordMeans(t: Table, u: User, name: string, on: bool)
    requires Sized(u) && Lower(name) != "all"
    ensures var r := Obey(t, u, (if on then "+@" else "-@") + name);
      && (r.ok <==> Lower(name) in t.categories)
      && (if r.ok then CategorySet(t.commands, u, r.user, Lower(name), on) else r.user == u)
  {
    ParseCategory(name, on);
    SetCategorySets(t.commands, u, Lower(name), on);
  }

  /******* Commands and subcommands *******/

  ghost predicate HasName(t: Table, i: nat, name: string) {
    i < |t.commands| && Lower(t.commands[i].name) == Lower(name)
  }

  lemma {:induction false} LookupAbsent(cs: seq<CommandInfo>, name: string)
    ensures LookupCommand(cs, name).Absent? <==> forall i | 0 <= i < |cs| :: Lower(cs[i].name) != Lower(name)
  {
    if cs != [] {
      LookupAbsent(cs[1..], name);
      assert forall i | 1 <= i < |cs| :: cs[i] == cs[1..][i - 1];
    }
  }

  // r is u but for a command of that name.
  ghost predicate CommandSet(t: Table, u: User, r: User, name: string, on: bool) {
    exists i: nat :: HasName(t, i, name) && (t.commands[i].id < BITS ==> OnlySet(u, r, t.commands[i].id, on, []))
  }

  lemma SetAndResetSets(u: User, id: nat, on: bool)
    requires Sized(u) && id < BITS
    ensures OnlySet(u, ResetSubs(SetBit(u, id, on), id), id, on, [])
  {
  }

  lemma CommandRuleSets(t: Table, u: User, name: string, on: bool)
    requires Sized(u)
    ensures var r := Apply(t, u, if on then AddCommand(name) else DropCommand(name));
      if r.ok then CommandSet(t, u, r.user, name, on) else r.user == u && forall i: nat :: !HasName(t, i, name)
  {
    LookupAbsent(t.commands, name);
    var found := LookupCommand(t.commands, name);
    if found.Present? {
      var i :| 0 <= i < |t.commands| && t.commands[i].id == found.id && Lower(t.commands[i].name) == Lower(name);
      assert HasName(t, i, name);
      if found.id < BITS {
        SetAndResetSets(u, found.id, on);
      }
    }
  }

  // A valid table has one command of a name.
  lemma LookupFindsIt(t: Table, i: nat, name: string)
    requires ValidTable(t) && HasName(t, i, name)
    ensures LookupCommand(t.commands, name) == Present(t.commands[i].id) && t.commands[i].id < BITS
  {
    LookupAbsent(t.commands, name);
    var r := LookupCommand(t.commands, name);
    var k :| 0 <= k < |t.commands| && t.commands[k].id == r.id && Lower(t.commands[k].name) == Lower(name);
  }

  /** +command and -command set just that command. */
  lemma CommandWordMeans(t: Table, u: User, name: string, on: bool, i: nat)
    requires ValidTable(t) && Sized(u) && HasName(t, i, name)
    requires (name != "" ==> name[0] != '@') && (on ==> '|' !in name)
    ensures var r := Obey(t, u, (if on then "+" else "-") + name);
      r.ok && OnlySet(u, r.user, t.commands[i].id, on, []) && (r.user.all <==> u.all && on)
  {
    ParseCommand(name, on);
    LookupFindsIt(t, i, name);
  }

  /**
   +command|sub adds the subcommand unless it is listed in some case already. It is refused exactly for no subcommand
   and for a command that is allowed as a whole.
   */
  lemma SubWordMeans(t: Table, u: User, name: string, sub: string, i: nat)
    requires ValidTable(t) && Sized(u) && HasName(t, i, name) && '|' !in name && (name != "" ==> name[0] != '@')
    ensures var r, id := Obey(t, u, "+" + name + "|" + sub), t.commands[i].id;
      && id < BITS && (r.ok <==> sub != "" && !u.bits[id])
      && (if r.ok
          then OnlySet(u, r.user, id, false, u.subs[id] + if Listed(u.subs[id], sub) then [] else [sub]) && !r.user.all
          else r.user == u)
  {
    ParseSub(name, sub);
    LookupFindsIt(t, i, name);
    assert u.subs[t.commands[i].id] + [] == u.subs[t.commands[i].id];
  }

  /** All three are refused for a name that there is not, and then change nothing. */
  lemma UnknownCommandRefused(t: Table, u: User, name: string, sub: string)
    requires '|' !in name && (name != "" ==> name[0] != '@')
    requires forall i | 0 <= i < |t.commands| :: Lower(t.commands[i].name) != Lower(name)
    ensures Obey(t, u, "+" + name) == Obey(t, u, "-" + name) == Obey(t, u, "+" + name + "|" + sub) == Result(u, false)
  {
    LookupAbsent(t.commands, name);
    ParseCommand(name, true);
    ParseCommand(name, false);
    ParseSub(name, sub);
  }

  /******* The other words *******/

  /** The words for all commands and for none, in any case, leave no subcommands. */
  lemma AllWordsMean(t: Table, u: User, op: string)
    ensures var r := Obey(t, u, op);
      Lower(op) == "allcommands" || Lower(op) == "+@all" ==>
        r.ok && Sized(r.user) && r.user.all && forall id: nat | id < BITS :: r.user.bits[id] && r.user.subs[id] == []
    ensures var r := Obey(t, u, op);
      Lower(op) == "nocommands" || Lower(op) == "-@all" || Lower(op) == "reset" ==>
        r.ok && Sized(r.user) && !r.user.all && forall id: nat | id < BITS :: !r.user.bits[id] && r.user.subs[id] == []
  {
  }

  /** Every word that does not begin with a sign and is none of these leaves the command rules as they are. */
  lemma OtherWordsKeep(t: Table, u: User, op: string)
    requires op != "" ==> op[0] != '+' && op[0] != '-'
    requires Lower(op) != "allcommands" && Lower(op) != "nocommands" && Lower(op) != "reset"
    ensures Obey(t, u, op).user == u
    ensures Obey(t, u, op).ok
       <==> op == "" || op[0] in ">#<!~" || Lower(op) in ["on", "off", "allkeys", "resetkeys", "nopass", "resetpass"]
  {
    KeywordsAre(Lower(op));
    if op != "" {
      assert Lower(op)[0] == LowerChar(op[0]);
      assert !MeansAll(Lower(op)) && !MeansNone(Lower(op));
    }
  }

  lemma KeywordsAre(word: string)
    ensures IsKeyword(word) <==> word in ["on", "off", "allkeys", "resetkeys", "nopass", "resetpass"] || word == "~*"
  {
  }

  /******* Which categories a description names *******/

  // The commands of a category, from place k on, that the user may or may not run.
  ghost function Among(cs: seq<CommandInfo>, k: nat, u: User, category: string, on: bool): set<nat> {
    set i: nat | k <= i < |cs| && category in cs[i].categories && GetBit(u, cs[i].id) == on
  }

  lemma AmongFirst(cs: seq<CommandInfo>, k: nat, u: User, category: string, on: bool)
    requires k < |cs|
    ensures |Among(cs, k, u, category, on)| == |Among(cs, k + 1, u, category, on)|
      + if category in cs[k].categories && GetBit(u, cs[k].id) == on then 1 else 0
  {
    var first := if category in cs[k].categories && GetBit(u, cs[k].id) == on then {k} else {};
    assert Among(cs, k, u, category, on) == first + Among(cs, k + 1, u, category, on);
  }

  lemma {:induction false} CountsAmong(cs: seq<CommandInfo>, k: nat, u: User, category: string)
    requires k <= |cs|
    ensures CountCategory(cs[k..], u, category)
         == (|Among(cs, k, u, category, true)|, |Among(cs, k, u, category, false)|)
    decreases |cs| - k
  {
    if k < |cs| {
      assert cs[k..][1..] == cs[k + 1..] && cs[k..][0] == cs[k];
      CountsAmong(cs, k + 1, u, category);
      AmongFirst(cs, k, u, category, true);
      AmongFirst(cs, k, u, category, false);
    }
  }

  /** A category is named exactly if it changes more commands for the better than for the worse. */
  lemma CategoryNamedExactly(cs: seq<CommandInfo>, u: User, category: string)
    requires Sized(u)
    ensures var on, off := |Among(cs, 0, u, category, true)|, |Among(cs, 0, u, category, false)|;
      CategoryRule(cs, u, category)
        == (if !u.bits[RESERVED] && on > off then ["+@" + category]
            else if u.bits[RESERVED] && off > on then ["-@" + category] else [])
  {
    CountsAmong(cs, 0, u, category);
    assert cs[0..] == cs;
  }
}
