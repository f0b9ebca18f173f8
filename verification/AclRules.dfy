/** Words without spaces, joined and split again; strings compared without regard to case. */
module Words {

  function LowerChar(c: char): char { if 'A' <= c <= 'Z' then c + ('a' - 'A') else c }

  function Lower(s: string): (r: string)
    ensures |r| == |s| && forall i | 0 <= i < |s| :: r[i] == LowerChar(s[i])
  {
    seq(|s|, i requires 0 <= i < |s| => LowerChar(s[i]))
  }

  // Where c occurs first, or the length of s.
  function Find(s: string, c: char): (k: nat)
    ensures k <= |s| && (k < |s| ==> s[k] == c) && forall i | 0 <= i < k :: s[i] != c
  {
    if s == "" || s[0] == c then 0 else 1 + Find(s[1..], c)
  }

  lemma {:induction false} FindIn(a: string, c: char, b: string)
    requires c !in a
    ensures Find(a + [c] + b, c) == |a|
  {
    if a == "" {
      assert "" + [c] + b == [c] + b;
    } else {
      assert (a + [c] + b)[1..] == a[1..] + [c] + b;
      assert forall i | 0 <= i < |a| - 1 :: a[1..][i] == a[i + 1];
      FindIn(a[1..], c, b);
    }
  }

  function Join(words: seq<string>, sep: char): string {
    if words == [] then "" else if |words| == 1 then words[0] else words[0] + [sep] + Join(words[1..], sep)
  }

  // Every word followed by the separator.
  function Ended(words: seq<string>, sep: char): string {
    if words == [] then "" else words[0] + [sep] + Ended(words[1..], sep)
  }

  // sdssplitlen at single separators: always at least one word, possibly empty.
  function Split(s: string, sep: char): (words: seq<string>)
    ensures |words| >= 1 && forall i | 0 <= i < |words| :: sep !in words[i]
    decreases |s|
  {
    var k := Find(s, sep);
    if k == |s| then [s] else [s[..k]] + Split(s[k + 1..], sep)
  }

  lemma {:induction false} NotInNoFind(s: string, sep: char)
    requires sep !in s
    ensures Find(s, sep) == |s|
  {
  }

  lemma SplitFirst(a: string, sep: char, rest: string)
    requires sep !in a
    ensures Split(a + [sep] + rest, sep) == [a] + Split(rest, sep)
  {
    FindIn(a, sep, rest);
    assert (a + [sep] + rest)[..|a|] == a && (a + [sep] + rest)[|a| + 1..] == rest;
  }

  /** Joining words and splitting the line gives the words back exactly when none of them has the separator. */
  lemma {:induction false} SplitJoin(words: seq<string>, sep: char)
    requires words != []
    ensures Split(Join(words, sep), sep) == words <==> forall i | 0 <= i < |words| :: sep !in words[i]
  {
    if forall i | 0 <= i < |words| :: sep !in words[i] {
      if |words| == 1 {
        NotInNoFind(words[0], sep);
      } else {
        SplitFirst(words[0], sep, Join(words[1..], sep));
        SplitJoin(words[1..], sep);
      }
    }
  }

  lemma {:induction false} EndedSnoc(words: seq<string>, w: string, sep: char)
    ensures Ended(words + [w], sep) == Ended(words, sep) + w + [sep]
  {
    if words == [] {
      assert [w][1..] == [];
      assert Ended([w], sep) == w + [sep] + "";
    } else {
      assert (words + [w])[1..] == words[1..] + [w];
      EndedSnoc(words[1..], w, sep);
    }
  }

  lemma {:induction false} EndedJoin(words: seq<string>, sep: char)
    requires words != []
    ensures Ended(words, sep) != "" && Ended(words, sep)[..|Ended(words, sep)| - 1] == Join(words, sep)
  {
    if |words| == 1 {
      assert Ended(words, sep) == words[0] + [sep] + "";
    } else {
      EndedJoin(words[1..], sep);
    }
  }

  // Lines that are ended, not separated: one empty word is left at the end.
  lemma {:induction false} SplitEnded(words: seq<string>, sep: char)
    ensures Split(Ended(words, sep), sep) == words + [""] <==> forall i | 0 <= i < |words| :: sep !in words[i]
  {
    if forall i | 0 <= i < |words| :: sep !in words[i] {
      if words != [] {
        SplitFirst(words[0], sep, Ended(words[1..], sep));
        SplitEnded(words[1..], sep);
        assert [words[0]] + (words[1..] + [""]) == words + [""];
      }
    } else {
      var i :| 0 <= i < |words| && sep in words[i];
      assert (words + [""])[i] == words[i];
    }
  }
}

/** The command part of a user: which commands and subcommands the user may run. */
module AclUsers {
  import opened Words

  const BITS := 1024      // USER_COMMAND_BITS_COUNT
  const RESERVED := 1023  // the bit no command has; set only by +@all

  datatype CommandInfo = CommandInfo(name: string, id: nat, categories: set<string>, isModule: bool)

  // The original command table, in the order it is walked, and the categories in theirs.
  datatype Table = Table(commands: seq<CommandInfo>, categories: seq<string>)

  predicate IsBlank(c: char) { c == ' ' || c == '\t' || c == '\r' || c == '\n' }

  predicate Blankless(s: string) { forall i | 0 <= i < |s| :: !IsBlank(s[i]) }

  predicate GoodName(s: string) { s != "" && s[0] != '@' && '|' !in s && Blankless(s) }

  predicate GoodCategory(s: string) { s != "" && Lower(s) == s != "all" && Blankless(s) }

  ghost predicate ValidCommands(cs: seq<CommandInfo>) {
    && (forall i | 0 <= i < |cs| :: GoodName(cs[i].name) && cs[i].id < RESERVED)
    && (forall i, j | 0 <= i < j < |cs| :: cs[i].id != cs[j].id && Lower(cs[i].name) != Lower(cs[j].name))
  }

  ghost predicate ValidTable(t: Table) {
    && ValidCommands(t.commands)
    && forall i | 0 <= i < |t.categories| :: GoodCategory(t.categories[i])
  }

  // subs[id] are the allowed subcommands of a command that is not allowed as a whole.
  datatype User = User(bits: seq<bool>, all: bool, subs: seq<seq<string>>)

  function NoSubs(): seq<seq<string>> { seq(BITS, _ => []) }

  function Fresh(): User { User(seq(BITS, _ => false), false, NoSubs()) }

  /******* Rules *******/

  datatype Rule =
    | AddAll
    | DropAll
    | AddCommand(name: string)
    | AddSub(name: string, sub: string)
    | DropCommand(name: string)
    | Category(name: string, on: bool)
    | Elsewhere     // about passwords, keys and flags
    | Invalid

  predicate MeansAll(word: string) { word == "allcommands" || word == "+@all" }

  predicate MeansNone(word: string) { word == "nocommands" || word == "-@all" || word == "reset" }

  predicate IsKeyword(word: string) {
    || word == "on" || word == "off" || word == "allkeys" || word == "~*" || word == "resetkeys"
    || word == "nopass" || word == "resetpass"
  }

  function Parse(op: string): Rule {
    if op == "" || IsKeyword(Lower(op)) then Elsewhere
    else if MeansAll(Lower(op)) then AddAll
    else if MeansNone(Lower(op)) then DropAll
    else if op[0] == '+' || op[0] == '-' then ParseSigned(op)
    else if op[0] == '>' || op[0] == '#' || op[0] == '<' || op[0] == '!' || op[0] == '~' then Elsewhere
    else Invalid
  }

  function ParseSigned(op: string): Rule
    requires op != ""
  {
    if |op| > 1 && op[1] == '@' then Category(op[2..], op[0] == '+')
    else if op[0] == '-' then DropCommand(op[1..])
    else
      var k := Find(op, '|');
      if k == 0 || k == |op| then AddCommand(op[1..]) else AddSub(op[1..k], op[k + 1..])
  }

  datatype Lookup = Absent | Present(id: nat)

  function LookupCommand(cs: seq<CommandInfo>, name: string): (r: Lookup)
    ensures r.Present? ==> exists i :: 0 <= i < |cs| && cs[i].id == r.id && Lower(cs[i].name) == Lower(name)
  {
    if cs == [] then Absent
    else if Lower(cs[0].name) == Lower(name) then Present(cs[0].id)
    else LookupCommand(cs[1..], name)
  }

  function SetBit(u: User, id: nat, on: bool): User {
    if id >= |u.bits| then u
    else if on then u.(bits := u.bits[id := true])
    else u.(bits := u.bits[id := false], all := false)
  }

  function ResetSubs(u: User, id: nat): User { if id >= |u.subs| then u else u.(subs := u.subs[id := []]) }

  function SubsOf(u: User, id: nat): seq<string> { if id >= |u.subs| then [] else u.subs[id] }

  predicate Listed(subs: seq<string>, sub: string) {
    exists i :: 0 <= i < |subs| && Lower(subs[i]) == Lower(sub)
  }

  function AddAllowedSub(u: User, id: nat, sub: string): User {
    if id >= |u.subs| || Listed(SubsOf(u, id), sub) then u else u.(subs := u.subs[id := SubsOf(u, id) + [sub]])
  }

  function SetCategory(cs: seq<CommandInfo>, u: User, category: string, on: bool): User {
    if cs == [] then u
    else
      var first := cs[0];
      SetCategory(cs[1..],
                  if !first.isModule && category in first.categories then ResetSubs(SetBit(u, first.id, on), first.id)
                  else u,
                  category, on)
  }

  datatype Result = Result(user: User, ok: bool)

  // ACLSetUser on the command part.
  function Obey(t: Table, u: User, op: string): Result { Apply(t, u, Parse(op)) }

  function Apply(t: Table, u: User, rule: Rule): Result {
    match rule
    case AddAll => Result(User(seq(BITS, _ => true), true, NoSubs()), true)
    case DropAll => Result(User(seq(BITS, _ => false), false, NoSubs()), true)
    case AddCommand(name) =>
      (match LookupCommand(t.commands, name)
       case Absent => Result(u, false)
       case Present(id) => Result(ResetSubs(SetBit(u, id, true), id), true))
    case DropCommand(name) =>
      (match LookupCommand(t.commands, name)
       case Absent => Result(u, false)
       case Present(id) => Result(ResetSubs(SetBit(u, id, false), id), true))
    case AddSub(name, sub) =>
      (match LookupCommand(t.commands, name)
       case Absent => Result(u, false)
       case Present(id) =>
         if sub == "" || (id < |u.bits| && u.bits[id]) then Result(u, false)
         else Result(SetBit(AddAllowedSub(u, id, sub), id, false), true))
    case Category(name, on) =>
      if Lower(name) in t.categories then Result(SetCategory(t.commands, u, Lower(name), on), true)
      else Result(u, false)
    case Elsewhere => Result(u, true)
    case Invalid => Result(u, false)
  }

  function ObeyAll(t: Table, u: User, ops: seq<string>): Result
    decreases |ops|
  {
    if ops == [] then Result(u, true)
    else
      var first := Obey(t, u, ops[0]);
      var rest := ObeyAll(t, first.user, ops[1..]);
      Result(rest.user, first.ok && rest.ok)
  }

  /******* What every rule keeps *******/

  predicate Assigned(cs: seq<CommandInfo>, id: nat) { exists i :: 0 <= i < |cs| && cs[i].id == id }

  ghost predicate Distinct(subs: seq<string>) {
    && (forall i | 0 <= i < |subs| :: subs[i] != "")
    && forall i, j | 0 <= i < j < |subs| :: Lower(subs[i]) != Lower(subs[j])
  }

  // A bit no command has is as the reserved one.
  ghost predicate Uniform(t: Table, u: User) {
    |u.bits| == BITS && forall id: nat | id < BITS && !Assigned(t.commands, id) :: u.bits[id] == u.bits[RESERVED]
  }

  ghost predicate SubsGood(t: Table, u: User) {
    |u.bits| == |u.subs| == BITS && forall id: nat | id < BITS ::
      Distinct(u.subs[id]) && (u.subs[id] != [] ==> Assigned(t.commands, id) && !u.bits[id])
  }

  ghost predicate AllMeansAll(u: User) { u.all ==> forall id | 0 <= id < |u.bits| :: u.bits[id] }

  ghost predicate Inv(t: Table, u: User) { Uniform(t, u) && SubsGood(t, u) && AllMeansAll(u) }

  lemma SetAndResetKeepsInv(t: Table, u: User, i: nat, on: bool)
    requires ValidTable(t) && Inv(t, u) && i < |t.commands|
    ensures Inv(t, ResetSubs(SetBit(u, t.commands[i].id, on), t.commands[i].id))
  {
    assert Assigned(t.commands, t.commands[i].id);
    assert !Assigned(t.commands, RESERVED);
  }

  lemma {:induction false} CategoryKeepsInv(t: Table, u: User, k: nat, category: string, on: bool)
    requires ValidTable(t) && Inv(t, u) && k <= |t.commands|
    ensures Inv(t, SetCategory(t.commands[k..], u, category, on))
    decreases |t.commands| - k
  {
    if k < |t.commands| {
      var c := t.commands[k];
      assert t.commands[k..][1..] == t.commands[k + 1..];
      if !c.isModule && category in c.categories {
        SetAndResetKeepsInv(t, u, k, on);
        CategoryKeepsInv(t, ResetSubs(SetBit(u, c.id, on), c.id), k + 1, category, on);
      } else {
        CategoryKeepsInv(t, u, k + 1, category, on);
      }
    }
  }

  lemma AddSubKeepsInv(t: Table, u: User, i: nat, sub: string)
    requires ValidTable(t) && Inv(t, u) && i < |t.commands| && sub != "" && !u.bits[t.commands[i].id]
    ensures Inv(t, SetBit(AddAllowedSub(u, t.commands[i].id, sub), t.commands[i].id, false))
  {
    var id := t.commands[i].id;
    assert Assigned(t.commands, id) && !Assigned(t.commands, RESERVED);
    var subs := SubsOf(u, id);
    if !Listed(subs, sub) {
      assert Distinct(subs + [sub]);
    }
  }

  lemma ApplyKeepsInv(t: Table, u: User, rule: Rule)
    requires ValidTable(t) && Inv(t, u)
    ensures Inv(t, Apply(t, u, rule).user)
  {
    match rule {
      case AddCommand(name) => KeepForCommand(t, u, name, true);
      case DropCommand(name) => KeepForCommand(t, u, name, false);
      case AddSub(name, sub) =>
        var r := LookupCommand(t.commands, name);
        if r.Present? && sub != "" && !u.bits[r.id] {
          var i :| 0 <= i < |t.commands| && t.commands[i].id == r.id;
          AddSubKeepsInv(t, u, i, sub);
        }
      case Category(name, on) =>
        CategoryKeepsInv(t, u, 0, Lower(name), on);
        assert t.commands[0..] == t.commands;
      case _ =>
    }
  }

  lemma KeepForCommand(t: Table, u: User, name: string, on: bool)
    requires ValidTable(t) && Inv(t, u)
    ensures var r := LookupCommand(t.commands, name); r.Present? ==> Inv(t, ResetSubs(SetBit(u, r.id, on), r.id))
  {
    var r := LookupCommand(t.commands, name);
    if r.Present? {
      var i :| 0 <= i < |t.commands| && t.commands[i].id == r.id;
      SetAndResetKeepsInv(t, u, i, on);
    }
  }

  /** Every sequence of rule strings, valid or not, keeps the invariant. */
  lemma {:induction false} ObeyAllKeepsInv(t: Table, u: User, ops: seq<string>)
    requires ValidTable(t) && Inv(t, u)
    ensures Inv(t, ObeyAll(t, u, ops).user)
    decreases |ops|
  {
    if ops != [] {
      ApplyKeepsInv(t, u, Parse(ops[0]));
      ObeyAllKeepsInv(t, Obey(t, u, ops[0]).user, ops[1..]);
    }
  }

  /** A sequence of rules is accepted exactly if each is, by the user that those before it have made. */
  lemma {:induction false} ObeyAllExactly(t: Table, u: User, ops: seq<string>)
    ensures ObeyAll(t, u, ops).ok <==> forall i | 0 <= i < |ops| :: Obey(t, ObeyAll(t, u, ops[..i]).user, ops[i]).ok
    decreases |ops|
  {
    if ops != [] {
      var v, rest := Obey(t, u, ops[0]).user, ops[1..];
      ObeyAllExactly(t, v, rest);
      forall i | 0 <= i < |rest|
        ensures ObeyAll(t, u, ops[..i + 1]).user == ObeyAll(t, v, rest[..i]).user && ops[i + 1] == rest[i]
      {
        assert ops[..i + 1][1..] == rest[..i];
      }
      assert ops[..0] == [];
      assert forall i | 1 <= i < |ops| :: ops[i] == rest[i - 1] && ops[..i] == ops[..(i - 1) + 1];
    }
  }

  lemma {:induction false} ObeyMore(t: Table, u: User, a: seq<string>, b: seq<string>)
    ensures ObeyAll(t, u, a + b) == var first := ObeyAll(t, u, a);
      var rest := ObeyAll(t, first.user, b); Result(rest.user, first.ok && rest.ok)
    decreases |a|
  {
    if a == [] {
      assert a + b == b;
    } else {
      assert (a + b)[1..] == a[1..] + b;
      ObeyMore(t, Obey(t, u, a[0]).user, a[1..], b);
    }
  }
}

/** Describing a user's command rules, and reading the description back. */
module AclDescriptions {
  import opened Words
  import opened AclUsers

  function GetBit(u: User, id: nat): bool { id < |u.bits| && u.bits[id] }

  // ACLCountCategoryBitsForUser: allowed and denied commands of a category.
  function CountCategory(cs: seq<CommandInfo>, u: User, category: string): (nat, nat) {
    if cs == [] then (0, 0)
    else
      var rest := CountCategory(cs[1..], u, category);
      if category !in cs[0].categories then rest
      else if GetBit(u, cs[0].id) then (rest.0 + 1, rest.1) else (rest.0, rest.1 + 1)
  }

  function AllRule(u: User): string { if GetBit(u, RESERVED) then "+@all" else "-@all" }

  // A category that is mostly allowed is added, or one mostly denied is removed, as a whole.
  function CategoryRule(cs: seq<CommandInfo>, u: User, category: string): seq<string> {
    var count := CountCategory(cs, u, category);
    var additive := !GetBit(u, RESERVED);
    if additive && count.0 > count.1 then ["+@" + category]
    else if !additive && count.1 > count.0 then ["-@" + category]
    else []
  }

  function CategoryRules(cs: seq<CommandInfo>, u: User, categories: seq<string>): seq<string> {
    if categories == [] then [] else CategoryRule(cs, u, categories[0]) + CategoryRules(cs, u, categories[1..])
  }

  function SubRules(name: string, subs: seq<string>): seq<string> {
    if subs == [] then [] else ["+" + name + "|" + subs[0]] + SubRules(name, subs[1..])
  }

  function BitRule(c: CommandInfo, u: User, fake: User): seq<string> {
    if GetBit(u, c.id) == GetBit(fake, c.id) then [] else [(if GetBit(u, c.id) then "+" else "-") + c.name]
  }

  function OneCommand(c: CommandInfo, u: User, fake: User): seq<string> {
    BitRule(c, u, fake) + if GetBit(u, c.id) then [] else SubRules(c.name, SubsOf(u, c.id))
  }

  function Fixed(c: CommandInfo, u: User, fake: User): User {
    if GetBit(u, c.id) == GetBit(fake, c.id) then fake else SetBit(fake, c.id, GetBit(u, c.id))
  }

  function CommandRules(cs: seq<CommandInfo>, u: User, fake: User): seq<string> {
    if cs == [] then [] else OneCommand(cs[0], u, fake) + CommandRules(cs[1..], u, Fixed(cs[0], u, fake))
  }

  function AllFixed(cs: seq<CommandInfo>, u: User, fake: User): User {
    if cs == [] then fake else AllFixed(cs[1..], u, Fixed(cs[0], u, fake))
  }

  function Opening(t: Table, u: User): seq<string> { [AllRule(u)] + CategoryRules(t.commands, u, t.categories) }

  // The fake user after the categories, and at the end.
  function Draft(t: Table, u: User): User { ObeyAll(t, Fresh(), Opening(t, u)).user }

  function Description(t: Table, u: User): seq<string> { Opening(t, u) + CommandRules(t.commands, u, Draft(t, u)) }

  // What the describer compares with the user before it returns; it panics when they differ.
  function Predicted(t: Table, u: User): seq<bool> { AllFixed(t.commands, u, Draft(t, u)).bits }

  /******* Single rules *******/

  lemma ParseAll(u: User)
    ensures Parse(AllRule(u)) == if GetBit(u, RESERVED) then AddAll else DropAll
  {
    assert Lower("+@all") == "+@all" && Lower("-@all") == "-@all";
  }

  lemma SignedWord(word: string)
    requires word != "" && (word[0] == '+' || word[0] == '-')
    ensures !IsKeyword(word) && (MeansAll(word) ==> word == "+@all") && (MeansNone(word) ==> word == "-@all")
  {
  }

  lemma NotAWord(op: string)
    requires op != "" && (op[0] == '+' || op[0] == '-') && Lower(op) != "+@all" && Lower(op) != "-@all"
    ensures Parse(op) == ParseSigned(op)
  {
    SignedWord(Lower(op));
  }

  lemma ParseCategory(name: string, on: bool)
    requires Lower(name) != "all"
    ensures Parse((if on then "+@" else "-@") + name) == Category(name, on)
  {
    var op := (if on then "+@" else "-@") + name;
    assert Lower(op)[2..] == Lower(name) && op[2..] == name;
    NotAWord(op);
  }

  lemma ParseCommand(name: string, on: bool)
    requires (name != "" ==> name[0] != '@') && (on ==> '|' !in name)
    ensures Parse((if on then "+" else "-") + name) == if on then AddCommand(name) else DropCommand(name)
  {
    var op := (if on then "+" else "-") + name;
    assert name != "" ==> op[1] == name[0] && Lower(op)[1] == LowerChar(name[0]) != '@';
    assert op[1..] == name && forall i | 1 <= i < |op| :: op[i] == name[i - 1];
    NotAWord(op);
  }

  lemma ParseSub(name: string, sub: string)
    requires (name != "" ==> name[0] != '@') && '|' !in name
    ensures Parse("+" + name + "|" + sub) == AddSub(name, sub)
  {
    var op := "+" + name + "|" + sub;
    assert op == ("+" + name) + ['|'] + sub;
    FindIn("+" + name, '|', sub);
    assert name != "" ==> op[1] == name[0];
    assert Lower(op)[1] == LowerChar(op[1]) && op[1] != '@';
    assert op[1..|name| + 1] == name && op[|name| + 2..] == sub;
    NotAWord(op);
  }

  lemma {:induction false} LookupFinds(cs: seq<CommandInfo>, i: nat)
    requires ValidCommands(cs) && i < |cs|
    ensures LookupCommand(cs, cs[i].name) == Present(cs[i].id)
  {
    if i > 0 {
      LookupFinds(cs[1..], i - 1);
    }
  }

  /******* The opening rules *******/

  // Rules about all commands and categories leave no subcommands behind and agree on the reserved bit.
  ghost predicate Opened(t: Table, u: User, r: User) {
    Inv(t, r) && r.subs == NoSubs() && r.bits[RESERVED] == GetBit(u, RESERVED)
  }

  lemma {:induction false} CategoryOpens(t: Table, u: User, r: User, k: nat, category: string, on: bool)
    requires ValidTable(t) && Opened(t, u, r) && k <= |t.commands|
    ensures Opened(t, u, SetCategory(t.commands[k..], r, category, on))
    decreases |t.commands| - k
  {
    if k < |t.commands| {
      var c := t.commands[k];
      assert t.commands[k..][1..] == t.commands[k + 1..];
      if !c.isModule && category in c.categories {
        var r' := ResetSubs(SetBit(r, c.id, on), c.id);
        SetAndResetKeepsInv(t, r, k, on);
        assert r'.subs == NoSubs();
        CategoryOpens(t, u, r', k + 1, category, on);
      } else {
        CategoryOpens(t, u, r, k + 1, category, on);
      }
    }
  }

  // The rule of one category, with more to follow.
  lemma CategoryRuleOpens(t: Table, u: User, r: User, name: string, on: bool, rest: seq<string>)
    requires ValidTable(t) && Opened(t, u, r) && name in t.categories && on == !GetBit(u, RESERVED)
    ensures Opened(t, u, SetCategory(t.commands, r, name, on))
    ensures ObeyAll(t, r, [(if on then "+@" else "-@") + name] + rest)
         == ObeyAll(t, SetCategory(t.commands, r, name, on), rest)
  {
    var rules := [(if on then "+@" else "-@") + name] + rest;
    ParseCategory(name, on);
    CategoryOpens(t, u, r, 0, name, on);
    assert t.commands[0..] == t.commands;
    assert rules[1..] == rest;
  }

  lemma {:induction false} CategoriesOpen(t: Table, u: User, r: User, k: nat)
    requires ValidTable(t) && Opened(t, u, r) && k <= |t.categories|
    ensures var e := ObeyAll(t, r, CategoryRules(t.commands, u, t.categories[k..])); e.ok && Opened(t, u, e.user)
    decreases |t.categories| - k
  {
    if k < |t.categories| {
      var name := t.categories[k];
      assert t.categories[k..][1..] == t.categories[k + 1..];
      var rest := CategoryRules(t.commands, u, t.categories[k + 1..]);
      var rules := CategoryRules(t.commands, u, t.categories[k..]);
      if rules == rest {
        CategoriesOpen(t, u, r, k + 1);
      } else {
        var on := !GetBit(u, RESERVED);
        assert rules == [(if on then "+@" else "-@") + name] + rest;
        CategoryRuleOpens(t, u, r, name, on, rest);
        CategoriesOpen(t, u, SetCategory(t.commands, r, name, on), k + 1);
      }
    } else {
      assert t.categories[k..] == [];
    }
  }

  lemma OpeningOpens(t: Table, u: User)
    requires ValidTable(t)
    ensures ObeyAll(t, Fresh(), Opening(t, u)).ok && Opened(t, u, Draft(t, u))
  {
    ParseAll(u);
    var ops := Opening(t, u);
    assert ops[0] == AllRule(u) && ops[1..] == CategoryRules(t.commands, u, t.categories);
    assert t.categories[0..] == t.categories;
    CategoriesOpen(t, u, Obey(t, Fresh(), ops[0]).user, 0);
  }

  /******* The rules for single commands *******/

  lemma SubRuleAdds(t: Table, r: User, i: nat, sub: string, rest: seq<string>) returns (r': User)
    requires ValidTable(t) && i < |t.commands| && |r.bits| == |r.subs| == BITS && !r.bits[t.commands[i].id]
    requires sub != "" && !Listed(r.subs[t.commands[i].id], sub)
    ensures r'.bits == r.bits && r'.subs == r.subs[t.commands[i].id := r.subs[t.commands[i].id] + [sub]]
    ensures ObeyAll(t, r, ["+" + t.commands[i].name + "|" + sub] + rest) == ObeyAll(t, r', rest)
  {
    var op := "+" + t.commands[i].name + "|" + sub;
    ParseSub(t.commands[i].name, sub);
    LookupFinds(t.commands, i);
    assert ([op] + rest)[1..] == rest;
    r' := Obey(t, r, op).user;
  }

  lemma NextIsNew(done: seq<string>, todo: seq<string>)
    requires todo != [] && Distinct(done + todo)
    ensures todo[0] != "" && !Listed(done, todo[0]) && (done + [todo[0]]) + todo[1..] == done + todo
  {
    assert (done + todo)[|done|] == todo[0];
    assert forall j | 0 <= j < |done| :: done[j] == (done + todo)[j];
  }

  lemma {:induction false} SubRulesAdd(t: Table, r: User, i: nat, todo: seq<string>)
    requires ValidTable(t) && i < |t.commands| && |r.bits| == |r.subs| == BITS && !r.bits[t.commands[i].id]
    requires Distinct(r.subs[t.commands[i].id] + todo)
    ensures var id := t.commands[i].id;
      var e := ObeyAll(t, r, SubRules(t.commands[i].name, todo));
      e.ok && e.user.bits == r.bits && e.user.subs == r.subs[id := r.subs[id] + todo]
    decreases |todo|
  {
    var name, id := t.commands[i].name, t.commands[i].id;
    var done := r.subs[id];
    if todo == [] {
      assert done + todo == done;
    } else {
      NextIsNew(done, todo);
      var r' := SubRuleAdds(t, r, i, todo[0], SubRules(name, todo[1..]));
      SubRulesAdd(t, r', i, todo[1..]);
    }
  }

  lemma BitRuleSets(t: Table, u: User, r: User, fake: User, i: nat)
    requires ValidTable(t) && i < |t.commands| && |u.bits| == |r.bits| == |r.subs| == BITS && r.bits == fake.bits
    requires r.subs[t.commands[i].id] == []
    ensures var id := t.commands[i].id;
      var e := ObeyAll(t, r, BitRule(t.commands[i], u, fake));
      e.ok && e.user.bits == r.bits[id := u.bits[id]] == Fixed(t.commands[i], u, fake).bits && e.user.subs == r.subs
  {
    var c := t.commands[i];
    var rules := BitRule(c, u, fake);
    if rules != [] {
      assert rules[1..] == [];
      ParseCommand(c.name, u.bits[c.id]);
      LookupFinds(t.commands, i);
    }
  }

  lemma OneCommandRestores(t: Table, u: User, r: User, fake: User, i: nat)
    requires ValidTable(t) && Inv(t, u) && i < |t.commands| && |r.bits| == |r.subs| == BITS && r.bits == fake.bits
    requires r.subs[t.commands[i].id] == []
    ensures var id := t.commands[i].id;
      var e := ObeyAll(t, r, OneCommand(t.commands[i], u, fake));
      && e.ok && e.user.bits == r.bits[id := u.bits[id]] == Fixed(t.commands[i], u, fake).bits
      && e.user.subs == r.subs[id := u.subs[id]]
  {
    var c := t.commands[i];
    var first := BitRule(c, u, fake);
    var more := if GetBit(u, c.id) then [] else SubRules(c.name, SubsOf(u, c.id));
    BitRuleSets(t, u, r, fake, i);
    ObeyMore(t, r, first, more);
    if !u.bits[c.id] {
      assert [] + u.subs[c.id] == u.subs[c.id];
      SubRulesAdd(t, ObeyAll(t, r, first).user, i, u.subs[c.id]);
    }
  }

  // The replayed user agrees with the described one, but for the commands still to come, which
  // have no subcommands yet.
  ghost predicate Restored(cs: seq<CommandInfo>, u: User, r: User) {
    && |r.bits| == |u.bits| == |r.subs| == |u.subs| == BITS
    && forall id: nat | id < BITS ::
         if Assigned(cs, id) then r.subs[id] == [] else r.bits[id] == u.bits[id] && r.subs[id] == u.subs[id]
  }

  lemma RestoredNext(cs: seq<CommandInfo>, u: User, r: User, r': User)
    requires ValidCommands(cs) && cs != [] && Restored(cs, u, r)
    requires r'.bits == r.bits[cs[0].id := u.bits[cs[0].id]] && r'.subs == r.subs[cs[0].id := u.subs[cs[0].id]]
    ensures Restored(cs[1..], u, r')
  {
    forall id: nat | id < BITS
      ensures Assigned(cs, id) <==> id == cs[0].id || Assigned(cs[1..], id)
    {
      AssignedFirst(cs, id);
    }
    assert !Assigned(cs[1..], cs[0].id);
  }

  lemma {:induction false} CommandRulesRestore(t: Table, u: User, r: User, fake: User, k: nat)
    requires ValidTable(t) && Inv(t, u) && k <= |t.commands| && Restored(t.commands[k..], u, r) && r.bits == fake.bits
    ensures var e := ObeyAll(t, r, CommandRules(t.commands[k..], u, fake));
      e.ok && Restored([], u, e.user) && e.user.bits == AllFixed(t.commands[k..], u, fake).bits
    decreases |t.commands| - k
  {
    var cs := t.commands[k..];
    if cs != [] {
      var c := t.commands[k];
      assert cs[0] == c && cs[1..] == t.commands[k + 1..] && Assigned(cs, c.id);
      OneCommandRestores(t, u, r, fake, k);
      var one, rest := OneCommand(c, u, fake), CommandRules(cs[1..], u, Fixed(c, u, fake));
      ObeyMore(t, r, one, rest);
      var r' := ObeyAll(t, r, one).user;
      RestoredNext(cs, u, r, r');
      CommandRulesRestore(t, u, r', Fixed(c, u, fake), k + 1);
    }
  }

  /******* The round trip *******/

  lemma DraftRestored(t: Table, u: User)
    requires ValidTable(t) && Inv(t, u)
    ensures Restored(t.commands, u, Draft(t, u))
  {
    OpeningOpens(t, u);
    assert !Assigned(t.commands, RESERVED);
  }

  lemma {:induction false} FixedBits(cs: seq<CommandInfo>, u: User, fake: User)
    requires |u.bits| == |fake.bits| == BITS
    ensures |AllFixed(cs, u, fake).bits| == BITS
    ensures forall id: nat | id < BITS ::
      AllFixed(cs, u, fake).bits[id] == if Assigned(cs, id) then u.bits[id] else fake.bits[id]
    decreases |cs|
  {
    if cs != [] {
      FixedBits(cs[1..], u, Fixed(cs[0], u, fake));
      forall id: nat | id < BITS
        ensures Assigned(cs, id) <==> id == cs[0].id || Assigned(cs[1..], id)
      {
        AssignedFirst(cs, id);
      }
    }
  }

  lemma AssignedFirst(cs: seq<CommandInfo>, id: nat)
    requires cs != []
    ensures Assigned(cs, id) <==> id == cs[0].id || Assigned(cs[1..], id)
  {
    if i :| 0 <= i < |cs| && cs[i].id == id {
      assert i > 0 ==> cs[1..][i - 1].id == id;
    }
    if i :| 0 <= i < |cs| - 1 && cs[1..][i].id == id {
      assert cs[i + 1].id == id;
    }
  }

  /** The describer finds the bitmap it predicted exactly when no bit has outlived its command; else it panics. */
  lemma PanicsExactlyWhenBitsOutlive(t: Table, u: User)
    requires ValidTable(t) && |u.bits| == BITS
    ensures Predicted(t, u) == u.bits <==> Uniform(t, u)
  {
    OpeningOpens(t, u);
    FixedBits(t.commands, u, Draft(t, u));
    assert !Assigned(t.commands, RESERVED);
    if Uniform(t, u) {
      assert forall id: nat | id < BITS :: Predicted(t, u)[id] == u.bits[id];
    }
  }

  function Without(t: Table, i: nat): Table
    requires i < |t.commands|
  {
    t.(commands := t.commands[..i] + t.commands[i + 1..])
  }

  lemma OutlivedBitPanics(t: Table, i: nat, u: User)
    requires ValidTable(t) && i < |t.commands| && |u.bits| == BITS && u.bits[t.commands[i].id] != u.bits[RESERVED]
    ensures Predicted(Without(t, i), u) != u.bits
  {
    var rest := Without(t, i).commands;
    assert forall j | 0 <= j < |rest| :: rest[j] == if j < i then t.commands[j] else t.commands[j + 1];
    assert !Assigned(rest, t.commands[i].id);
    PanicsExactlyWhenBitsOutlive(Without(t, i), u);
  }

  /** For one: a user who was given a module's command, once the module is gone. */
  lemma UnloadedCommandPanics(t: Table, i: nat)
    requires ValidTable(t) && i < |t.commands|
    ensures var u := Obey(t, Fresh(), "+" + t.commands[i].name).user; Predicted(Without(t, i), u) != u.bits
  {
    ParseCommand(t.commands[i].name, true);
    LookupFinds(t.commands, i);
    OutlivedBitPanics(t, i, Obey(t, Fresh(), "+" + t.commands[i].name).user);
  }

  /**
   A description applied to a new user restores every command bit and every allowed subcommand,
   and the bitmap the describer predicts is the user's own, so it does not panic.
   */
  lemma DescriptionRestores(t: Table, u: User)
    requires ValidTable(t) && Inv(t, u)
    ensures var e := ObeyAll(t, Fresh(), Description(t, u)); e.ok && e.user.bits == u.bits && e.user.subs == u.subs
    ensures Predicted(t, u) == u.bits
  {
    PanicsExactlyWhenBitsOutlive(t, u);
    OpeningOpens(t, u);
    DraftRestored(t, u);
    assert t.commands[0..] == t.commands;
    FromDraft(t, u, Draft(t, u));
    ObeyMore(t, Fresh(), Opening(t, u), CommandRules(t.commands, u, Draft(t, u)));
  }

  lemma FromDraft(t: Table, u: User, draft: User)
    requires ValidTable(t) && Inv(t, u) && Restored(t.commands, u, draft)
    ensures var e := ObeyAll(t, draft, CommandRules(t.commands, u, draft));
      e.ok && e.user.bits == u.bits && e.user.subs == u.subs
  {
    assert t.commands[0..] == t.commands;
    CommandRulesRestore(t, u, draft, draft, 0);
    var e := ObeyAll(t, draft, CommandRules(t.commands, u, draft)).user;
    assert forall id: nat | id < BITS :: e.bits[id] == u.bits[id] && e.subs[id] == u.subs[id];
  }

  // The permission check sees the bits unless the flag for all commands is set.
  predicate MayRun(u: User, id: nat) { u.all || GetBit(u, id) }

  /** Every user that rule strings can make may run the same commands after being described and read back. */
  lemma SavedUserMayRunTheSame(t: Table, ops: seq<string>, id: nat)
    requires ValidTable(t) && id < BITS
    ensures var u := ObeyAll(t, Fresh(), ops).user;
      var e := ObeyAll(t, Fresh(), Description(t, u));
      e.ok && (MayRun(e.user, id) <==> MayRun(u, id)) && e.user.subs == u.subs && Predicted(t, u) == u.bits
  {
    var u := ObeyAll(t, Fresh(), ops).user;
    ObeyAllKeepsInv(t, Fresh(), ops);
    DescriptionRestores(t, u);
    ObeyAllKeepsInv(t, Fresh(), Description(t, u));
  }

  lemma GivenSub(t: Table, i: nat, sub: string) returns (u: User)
    requires ValidTable(t) && i < |t.commands| && sub != ""
    ensures u == ObeyAll(t, Fresh(), ["+" + t.commands[i].name + "|" + sub]).user
    ensures SubsOf(u, t.commands[i].id) == [sub]
  {
    u := SubRuleAdds(t, Fresh(), i, sub, []);
    var op := "+" + t.commands[i].name + "|" + sub;
    assert [op] + [] == [op];
    assert ObeyAll(t, u, []).user == u;
  }

  /** Tables and consistent users exist: for one, a table of one command and the new user. */
  lemma SmallTable() returns (t: Table)
    ensures t == Table([CommandInfo("get", 0, {"read"}, false)], ["read"]) && ValidTable(t) && Inv(t, Fresh())
  {
    t := Table([CommandInfo("get", 0, {"read"}, false)], ["read"]);
    assert Lower("read") == "read";
  }
}
