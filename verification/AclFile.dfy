/** Trimming and splitting strings as the string library does it. */
module Trimming {
  import opened Words

  function TrimLeft(s: string, cset: set<char>): (r: string)
    ensures (r == "" || r[0] !in cset) && forall c | c in r :: c in s
  {
    if s != "" && s[0] in cset then TrimLeft(s[1..], cset) else s
  }

  function TrimRight(s: string, cset: set<char>): (r: string)
    ensures (r == "" || r[|r| - 1] !in cset) && r <= s
  {
    if s != "" && s[|s| - 1] in cset then TrimRight(s[..|s| - 1], cset) else s
  }

  function Trim(s: string, cset: set<char>): string { TrimRight(TrimLeft(s, cset), cset) }

  /** Trimming takes the characters of the set off both ends, and leaves a piece that has none of them at its ends. */
  lemma TrimmedPiece(s: string, cset: set<char>) returns (i: nat, j: nat)
    ensures i <= j <= |s| && Trim(s, cset) == s[i..j]
    ensures (forall k | 0 <= k < i :: s[k] in cset) && (forall k | j <= k < |s| :: s[k] in cset)
    ensures i < j ==> s[i] !in cset && s[j - 1] !in cset
  {
    i := LeftOff(s, cset);
    var l := TrimLeft(s, cset);
    var n := RightOff(l, cset);
    j := i + n;
    assert forall k | j <= k < |s| :: s[k] == l[k - i];
  }

  lemma {:induction false} LeftOff(s: string, cset: set<char>) returns (i: nat)
    ensures i <= |s| && TrimLeft(s, cset) == s[i..] && forall k | 0 <= k < i :: s[k] in cset
  {
    i := 0;
    if s != "" && s[0] in cset {
      var n := LeftOff(s[1..], cset);
      i := n + 1;
      assert forall k | 1 <= k < i :: s[k] == s[1..][k - 1];
    }
  }

  lemma {:induction false} RightOff(s: string, cset: set<char>) returns (j: nat)
    ensures j <= |s| && TrimRight(s, cset) == s[..j] && forall k | j <= k < |s| :: s[k] in cset
  {
    j := |s|;
    if s != "" && s[|s| - 1] in cset {
      j := RightOff(s[..|s| - 1], cset);
      assert s[..|s| - 1][..j] == s[..j];
    }
  }

  lemma TrimSolid(s: string, cset: set<char>)
    requires s != "" && s[0] !in cset && s[|s| - 1] !in cset
    ensures Trim(s, cset) == s
  {
  }

  lemma {:induction false} TrimLeftFrom(s: string, cset: set<char>, i: nat)
    requires i <= |s| && forall k | 0 <= k < i :: s[k] in cset
    ensures TrimLeft(s, cset) == TrimLeft(s[i..], cset)
  {
    if i > 0 {
      assert forall k | 0 <= k < i - 1 :: s[1..][k] == s[k + 1];
      TrimLeftFrom(s[1..], cset, i - 1);
      assert s[1..][i - 1..] == s[i..];
    }
  }

  lemma {:induction false} TrimRightFrom(s: string, cset: set<char>, j: nat)
    requires j <= |s| && forall k | j <= k < |s| :: s[k] in cset
    ensures TrimRight(s, cset) == TrimRight(s[..j], cset)
    decreases |s|
  {
    if j < |s| {
      TrimRightFrom(s[..|s| - 1], cset, j);
      assert s[..|s| - 1][..j] == s[..j];
    } else {
      assert s[..j] == s;
    }
  }

  lemma LeftBetween(s: string, cset: set<char>, n: nat)
    requires n <= |s| && forall k | 0 <= k < n :: s[k] in cset
    requires n < |s| ==> s[n] !in cset
    ensures TrimLeft(s, cset) == s[n..]
  {
    TrimLeftFrom(s, cset, n);
    assert n < |s| ==> s[n..][0] == s[n];
  }

  lemma RightBetween(s: string, cset: set<char>, n: nat)
    requires n <= |s| && forall k | n <= k < |s| :: s[k] in cset
    requires n > 0 ==> s[n - 1] !in cset
    ensures TrimRight(s, cset) == s[..n]
  {
    TrimRightFrom(s, cset, n);
    assert n > 0 ==> s[..n][n - 1] == s[n - 1];
  }

  // sdstrim: two cursors that walk towards each other.
  method SdsTrim(s: string, cset: set<char>) returns (r: string)
    ensures r == Trim(s, cset)
  {
    var sp, ep := 0, |s|;
    while sp < |s| && s[sp] in cset
      invariant sp <= |s| && forall k | 0 <= k < sp :: s[k] in cset
    {
      sp := sp + 1;
    }
    while ep > sp && s[ep - 1] in cset
      invariant sp <= ep <= |s| && forall k | ep <= k < |s| :: s[k] in cset
    {
      ep := ep - 1;
    }
    LeftBetween(s, cset, sp);
    r := s[sp..ep];
    RightBetween(s[sp..], cset, ep - sp);
    assert s[sp..][..ep - sp] == r;
  }

  // The words before `start` are taken, and the next one goes on at j.
  ghost predicate SplitSoFar(s: string, sep: char, start: nat, j: nat, words: seq<string>) {
    start <= j <= |s| && sep !in s[start..j] && words + Split(s[start..], sep) == Split(s, sep)
  }

  lemma SplitStarts(s: string, sep: char)
    ensures SplitSoFar(s, sep, 0, 0, [])
  {
    assert s[0..] == s && [] + Split(s, sep) == Split(s, sep);
  }

  lemma SplitHere(s: string, sep: char, start: nat, j: nat, words: seq<string>)
    requires SplitSoFar(s, sep, start, j, words) && j < |s| && s[j] == sep
    ensures SplitSoFar(s, sep, j + 1, j + 1, words + [s[start..j]])
  {
    var w, rest := s[start..j], s[j + 1..];
    assert s[start..] == w + [sep] + rest;
    SplitFirst(w, sep, rest);
    assert words + ([w] + Split(rest, sep)) == (words + [w]) + Split(rest, sep);
  }

  lemma SplitOn(s: string, sep: char, start: nat, j: nat, words: seq<string>)
    requires SplitSoFar(s, sep, start, j, words) && j < |s| && s[j] != sep
    ensures SplitSoFar(s, sep, start, j + 1, words)
  {
    assert s[start..j + 1] == s[start..j] + [s[j]];
  }

  lemma SplitLast(s: string, sep: char, start: nat, words: seq<string>)
    requires SplitSoFar(s, sep, start, |s|, words)
    ensures words + [s[start..]] == Split(s, sep)
  {
    assert s[start..|s|] == s[start..];
    NotInNoFind(s[start..], sep);
  }

  // sdssplitlen with a separator of one character: an empty string has no pieces.
  method SdsSplitLen(s: string, sep: char) returns (words: seq<string>)
    ensures words == if s == "" then [] else Split(s, sep)
  {
    words := [];
    if s == "" {
      return;
    }
    var start := 0;
    SplitStarts(s, sep);
    for j := 0 to |s|
      invariant SplitSoFar(s, sep, start, j, words)
    {
      if s[j] == sep {
        SplitHere(s, sep, start, j, words);
        words := words + [s[start..j]];
        start := j + 1;
      } else {
        SplitOn(s, sep, start, j, words);
      }
    }
    SplitLast(s, sep, start, words);
    words := words + [s[start..]];
  }
}

/** The file the users are saved to and loaded from: when everybody comes back as saved. */
module AclFiles {
  import opened Words
  import opened Trimming
  import opened AclUsers
  import opened AclDescriptions
  import opened Options

  const LINE_BLANKS: set<char> := {' ', '\t', '\r', '\n'}
  const WORD_BLANKS: set<char> := {'\t', '\r', '\n'}

  // A user with a name, and the words about flags, passwords and keys that come before the command rules.
  datatype Account = Account(name: string, others: seq<string>, user: User)

  // ACLStringHasSpaces.
  predicate HasSpaces(s: string) {
    exists i :: 0 <= i < |s| && (s[i] == ' ' || 9 <= s[i] as int <= 13 || s[i] as int == 0)
  }

  // A word that reads back as it was written, wherever it stands in a line.
  predicate Solid(w: string) {
    w != "" && ' ' !in w && '\n' !in w && w[0] !in WORD_BLANKS && w[|w| - 1] !in WORD_BLANKS
  }

  ghost predicate GoodAccount(t: Table, a: Account) {
    && !HasSpaces(a.name) && Inv(t, a.user)
    && forall i | 0 <= i < |a.others| :: Solid(a.others[i]) && Parse(a.others[i]).Elsewhere?
  }

  function LineWords(t: Table, a: Account): seq<string> { ["user", a.name] + a.others + Description(t, a.user) }

  function Line(t: Table, a: Account): string { Join(LineWords(t, a), ' ') }

  function Lines(t: Table, accounts: seq<Account>): (lines: seq<string>)
    ensures |lines| == |accounts| && forall i | 0 <= i < |lines| :: lines[i] == Line(t, accounts[i])
  {
    if accounts == [] then [] else [Line(t, accounts[0])] + Lines(t, accounts[1..])
  }

  function SavedFile(t: Table, accounts: seq<Account>): string { Ended(Lines(t, accounts), '\n') }

  function TrimAll(words: seq<string>): (r: seq<string>)
    ensures |r| == |words| && forall i | 0 <= i < |r| :: r[i] == Trim(words[i], WORD_BLANKS)
  {
    if words == [] then [] else [Trim(words[0], WORD_BLANKS)] + TrimAll(words[1..])
  }

  // The users so far, and whether there was no error.
  datatype Loading = Loading(users: map<string, User>, ok: bool)

  function LoadLine(t: Table, line: string, l: Loading): Loading {
    var trimmed := Trim(line, LINE_BLANKS);
    var argv := Split(trimmed, ' ');
    if trimmed == "" then l
    else if argv[0] != "user" || |argv| < 2 || HasSpaces(argv[1]) then l.(ok := false)
    else
      var r := ObeyAll(t, Fresh(), TrimAll(argv[2..]));
      if l.ok && r.ok then l.(users := l.users[argv[1] := r.user]) else l.(ok := false)
  }

  function LoadLines(t: Table, lines: seq<string>, l: Loading): Loading
    decreases |lines|
  {
    if lines == [] then l else LoadLines(t, lines[1..], LoadLine(t, lines[0], l))
  }

  // The default user is there before the file is read.
  function NewLoading(): Loading { Loading(map["default" := User(seq(BITS, _ => true), true, NoSubs())], true) }

  // ACLLoadFromFile: nothing is loaded if there is an error.
  function LoadedFile(t: Table, file: string): Option<map<string, User>> {
    var l := LoadLines(t, Split(file, '\n'), NewLoading());
    if l.ok then Some(l.users) else None
  }

  /******* Which files load *******/

  predicate Blank(line: string) { Trim(line, LINE_BLANKS) == "" }

  function Argv(line: string): (argv: seq<string>)
    ensures |argv| >= 1
  {
    Split(Trim(line, LINE_BLANKS), ' ')
  }

  // The rules of a line, as a new user follows them.
  function Followed(t: Table, line: string): Result {
    if |Argv(line)| < 2 then Result(Fresh(), false) else ObeyAll(t, Fresh(), TrimAll(Argv(line)[2..]))
  }

  // A line that names a user without blanks in the name, with rules that are all accepted; or nothing.
  predicate GoodLine(t: Table, line: string) {
    Blank(line) || (|Argv(line)| >= 2 && Argv(line)[0] == "user" && !HasSpaces(Argv(line)[1]) && Followed(t, line).ok)
  }

  predicate AllGood(t: Table, lines: seq<string>) { forall i | 0 <= i < |lines| :: GoodLine(t, lines[i]) }

  predicate Names(line: string, name: string) { !Blank(line) && |Argv(line)| >= 2 && Argv(line)[1] == name }

  predicate Mentioned(lines: seq<string>, name: string) { exists i :: 0 <= i < |lines| && Names(lines[i], name) }

  predicate LastNames(lines: seq<string>, i: int, name: string) {
    0 <= i < |lines| && Names(lines[i], name) && !Mentioned(lines[i + 1..], name)
  }

  // The users after all the lines: each as the last line that names it says, and otherwise as before.
  ghost predicate LoadedFrom(t: Table, lines: seq<string>, before: map<string, User>, users: map<string, User>) {
    && (forall name :: name in users <==> name in before || Mentioned(lines, name))
    && (forall name | name in before && !Mentioned(lines, name) :: users[name] == before[name])
    && forall i, name | LastNames(lines, i, name) :: name in users && users[name] == Followed(t, lines[i]).user
  }

  lemma MentionedMore(lines: seq<string>, line: string, name: string)
    ensures Mentioned(lines + [line], name) <==> Mentioned(lines, name) || Names(line, name)
  {
    var all := lines + [line];
    assert all[|lines|] == line && forall i | 0 <= i < |lines| :: all[i] == lines[i];
  }

  // What a good line does to the users.
  ghost predicate LineSets(t: Table, line: string, users: map<string, User>, users': map<string, User>) {
    && (forall name | Names(line, name) :: name in users' && users'[name] == Followed(t, line).user)
    && (forall name | !Names(line, name) ::
          (name in users' <==> name in users) && (name in users ==> users'[name] == users[name]))
  }

  lemma GoodLineSets(t: Table, line: string, l: Loading)
    requires l.ok && GoodLine(t, line)
    ensures LoadLine(t, line, l).ok && LineSets(t, line, l.users, LoadLine(t, line, l).users)
  {
  }

  lemma LastNamesMore(lines: seq<string>, line: string, i: int, name: string)
    requires LastNames(lines + [line], i, name)
    ensures if i == |lines| then Names(line, name) else LastNames(lines, i, name) && !Names(line, name)
  {
    if i < |lines| {
      assert (lines + [line])[i + 1..] == lines[i + 1..] + [line];
      MentionedMore(lines[i + 1..], line, name);
    }
  }

  lemma OneMoreLoaded(t: Table, lines: seq<string>, line: string, before: map<string, User>, users: map<string, User>,
                      users': map<string, User>)
    requires LoadedFrom(t, lines, before, users) && LineSets(t, line, users, users')
    ensures LoadedFrom(t, lines + [line], before, users')
  {
    var all := lines + [line];
    forall name ensures Mentioned(all, name) <==> Mentioned(lines, name) || Names(line, name) {
      MentionedMore(lines, line, name);
    }
    forall i, name | LastNames(all, i, name)
      ensures name in users' && users'[name] == Followed(t, all[i]).user
    {
      LastNamesMore(lines, line, i, name);
    }
  }

  /** The lines load exactly if each is good, and then each user is as the last line that names it says. */
  lemma {:induction false} LinesLoadExactly(t: Table, lines: seq<string>, l: Loading)
    ensures LoadLines(t, lines, l).ok <==> l.ok && AllGood(t, lines)
    ensures LoadLines(t, lines, l).ok ==> LoadedFrom(t, lines, l.users, LoadLines(t, lines, l).users)
    decreases |lines|
  {
    if lines != [] {
      var last := |lines| - 1;
      var first, line := lines[..last], lines[last];
      LinesLoadExactly(t, first, l);
      LastLine(t, first, line, l);
      assert lines == first + [line];
      assert AllGood(t, lines) <==> AllGood(t, first) && GoodLine(t, line);
      if LoadLines(t, first, l).ok && GoodLine(t, line) {
        GoodLineSets(t, line, LoadLines(t, first, l));
        OneMoreLoaded(t, first, line, l.users, LoadLines(t, first, l).users, LoadLines(t, lines, l).users);
      }
    }
  }

  lemma {:induction false} LastLine(t: Table, lines: seq<string>, line: string, l: Loading)
    ensures LoadLines(t, lines + [line], l) == LoadLine(t, line, LoadLines(t, lines, l))
    decreases |lines|
  {
    if lines == [] {
      assert [line][1..] == [] && [] + [line] == [line];
    } else {
      assert (lines + [line])[1..] == lines[1..] + [line];
      LastLine(t, lines[1..], line, LoadLine(t, lines[0], l));
    }
  }

  /**
   For every file: it loads exactly if every line is blank or good; then the users are the default user and those
   the lines name, each with the rules of the last line that names it. Otherwise nothing is loaded.
   */
  lemma FileLoadsExactly(t: Table, file: string)
    ensures LoadedFile(t, file).Some? <==> AllGood(t, Split(file, '\n'))
    ensures LoadedFile(t, file).Some? ==>
      LoadedFrom(t, Split(file, '\n'), NewLoading().users, LoadedFile(t, file).value)
  {
    LinesLoadExactly(t, Split(file, '\n'), NewLoading());
  }

  /******* The loops *******/

  method LoadOneLine(t: Table, line: string, l: Loading) returns (r: Loading)
    ensures r == LoadLine(t, line, l)
    ensures r.ok <==> if Blank(line) then l.ok else l.ok && GoodLine(t, line)
  {
    var trimmed := SdsTrim(line, LINE_BLANKS);
    if trimmed == "" {
      return l;
    }
    var argv := SdsSplitLen(trimmed, ' ');
    if argv[0] != "user" || |argv| < 2 || HasSpaces(argv[1]) {
      return l.(ok := false);
    }
    var fake, ok := Fresh(), true;
    assert argv[2..] == argv[2..][0..];
    for j := 2 to |argv|
      invariant var all := ObeyAll(t, Fresh(), TrimAll(argv[2..]));
                var rest := ObeyAll(t, fake, TrimAll(argv[j..]));
                all.user == rest.user && (all.ok <==> ok && rest.ok)
    {
      var op := SdsTrim(argv[j], WORD_BLANKS);
      assert argv[j..][0] == argv[j] && argv[j..][1..] == argv[j + 1..];
      var step := Obey(t, fake, op);
      fake := step.user;
      ok := ok && step.ok;
    }
    assert argv[|argv|..] == [];
    r := if l.ok && ok then l.(users := l.users[argv[1] := fake]) else l.(ok := false);
  }

  lemma NextLine(t: Table, lines: seq<string>, i: nat, l: Loading)
    requires i < |lines|
    ensures LoadLines(t, lines[i..], l) == LoadLines(t, lines[i + 1..], LoadLine(t, lines[i], l))
  {
    assert lines[i..][0] == lines[i] && lines[i..][1..] == lines[i + 1..];
  }

  method LoadAllLines(t: Table, lines: seq<string>, l0: Loading) returns (l: Loading)
    ensures l == LoadLines(t, lines, l0)
  {
    l := l0;
    ghost var all := LoadLines(t, lines, l0);
    assert lines[0..] == lines;
    for i := 0 to |lines|
      invariant all == LoadLines(t, lines[i..], l)
    {
      NextLine(t, lines, i, l);
      l := LoadOneLine(t, lines[i], l);
    }
    assert lines[|lines|..] == [];
  }

  method LoadFromFile(t: Table, file: string) returns (users: Option<map<string, User>>)
    ensures users == LoadedFile(t, file)
    ensures users.Some? <==> AllGood(t, Split(file, '\n'))
    ensures users.Some? ==> LoadedFrom(t, Split(file, '\n'), NewLoading().users, users.value)
  {
    FileLoadsExactly(t, file);
    var lines := SdsSplitLen(file, '\n');
    LastLineBlank(t, [], NewLoading());
    assert [] + [""] == Split("", '\n');
    var l := LoadAllLines(t, lines, NewLoading());
    users := if l.ok then Some(l.users) else None;
  }

  lemma EndedNext(lines: seq<string>, i: nat)
    requires i < |lines|
    ensures Ended(lines[..i + 1], '\n') == Ended(lines[..i], '\n') + lines[i] + ['\n']
  {
    EndedSnoc(lines[..i], lines[i], '\n');
    assert lines[..i] + [lines[i]] == lines[..i + 1];
  }

  method SaveToFile(t: Table, accounts: seq<Account>) returns (file: string)
    ensures file == SavedFile(t, accounts)
  {
    file := "";
    ghost var lines := Lines(t, accounts);
    assert Ended(lines[..0], '\n') == "";
    for i := 0 to |accounts|
      invariant file == Ended(lines[..i], '\n')
    {
      EndedNext(lines, i);
      file := file + Line(t, accounts[i]) + ['\n'];
    }
    assert lines[..|accounts|] == lines;
  }

  /******* Words that come back *******/

  // What trimming and splitting leave of a word.
  predicate Clean(w: string) { ' ' !in w && '\n' !in w && (w == "" || w[|w| - 1] !in WORD_BLANKS) }

  ghost predicate AllClean(words: seq<string>) { forall i | 0 <= i < |words| :: Clean(words[i]) }

  ghost predicate AllSolid(words: seq<string>) { forall i | 0 <= i < |words| :: Solid(words[i]) }

  ghost predicate SubsClean(u: User) { forall id | 0 <= id < |u.subs| :: AllClean(u.subs[id]) }

  // A rule made of a sign, a clean text and nothing else.
  lemma SignedSolid(sign: string, text: string)
    requires (sign == "+" || sign == "-" || sign == "+@" || sign == "-@") && text != "" && Clean(text)
    ensures Solid(sign + text)
  {
    var w := sign + text;
    assert w[|w| - 1] == text[|text| - 1];
  }

  lemma BlanklessClean(s: string)
    requires Blankless(s)
    ensures Clean(s)
  {
  }

  lemma {:induction false} CategoryRulesSolid(cs: seq<CommandInfo>, u: User, categories: seq<string>)
    requires forall i | 0 <= i < |categories| :: GoodCategory(categories[i])
    ensures AllSolid(CategoryRules(cs, u, categories))
  {
    if categories != [] {
      BlanklessClean(categories[0]);
      SignedSolid("+@", categories[0]);
      SignedSolid("-@", categories[0]);
      CategoryRulesSolid(cs, u, categories[1..]);
    }
  }

  lemma SubRuleSolid(name: string, sub: string)
    requires GoodName(name) && sub != "" && Clean(sub)
    ensures Solid("+" + name + "|" + sub)
  {
    var w := "+" + name + "|" + sub;
    assert w[|w| - 1] == sub[|sub| - 1] && w[0] == '+';
  }

  lemma {:induction false} SubRulesSolid(name: string, subs: seq<string>)
    requires GoodName(name) && AllClean(subs) && forall i | 0 <= i < |subs| :: subs[i] != ""
    ensures AllSolid(SubRules(name, subs))
  {
    if subs != [] {
      SubRuleSolid(name, subs[0]);
      SubRulesSolid(name, subs[1..]);
    }
  }

  ghost predicate SubsFilled(u: User) {
    forall id, i | 0 <= id < |u.subs| && 0 <= i < |u.subs[id]| :: u.subs[id][i] != ""
  }

  lemma OneCommandSolid(c: CommandInfo, u: User, fake: User)
    requires GoodName(c.name) && SubsClean(u) && SubsFilled(u)
    ensures AllSolid(OneCommand(c, u, fake))
  {
    BlanklessClean(c.name);
    SignedSolid("+", c.name);
    SignedSolid("-", c.name);
    SubRulesSolid(c.name, SubsOf(u, c.id));
  }

  lemma {:induction false} CommandRulesSolid(cs: seq<CommandInfo>, u: User, fake: User)
    requires ValidCommands(cs) && SubsClean(u) && SubsFilled(u)
    ensures AllSolid(CommandRules(cs, u, fake))
    decreases |cs|
  {
    if cs != [] {
      OneCommandSolid(cs[0], u, fake);
      CommandRulesSolid(cs[1..], u, Fixed(cs[0], u, fake));
    }
  }

  lemma DescriptionSolid(t: Table, u: User)
    requires ValidTable(t) && Inv(t, u) && SubsClean(u)
    ensures AllSolid(Description(t, u)) && Description(t, u) != []
  {
    assert SubsFilled(u) by {
      forall id, i | 0 <= id < |u.subs| && 0 <= i < |u.subs[id]| ensures u.subs[id][i] != "" {
        assert Distinct(u.subs[id]);
      }
    }
    CategoryRulesSolid(t.commands, u, t.categories);
    CommandRulesSolid(t.commands, u, Draft(t, u));
    assert Solid("+@all") && Solid("-@all");
  }

  /******* One line *******/

  lemma {:induction false} JoinEnds(words: seq<string>, sep: char)
    requires words != [] && words[0] != "" && words[|words| - 1] != ""
    ensures var s := Join(words, sep); s != "" && s[0] == words[0][0]
    ensures var s, w := Join(words, sep), words[|words| - 1]; s[|s| - 1] == w[|w| - 1]
  {
    if |words| > 1 {
      LastOfJoin(words, sep);
    }
  }

  lemma {:induction false} LastOfJoin(words: seq<string>, sep: char)
    requires words != [] && words[|words| - 1] != ""
    ensures var s, w := Join(words, sep), words[|words| - 1]; s != "" && s[|s| - 1] == w[|w| - 1]
  {
    if |words| > 1 {
      LastOfJoin(words[1..], sep);
    }
  }

  lemma {:induction false} JoinAvoids(words: seq<string>, sep: char, c: char)
    requires c != sep && forall i | 0 <= i < |words| :: c !in words[i]
    ensures c !in Join(words, sep)
  {
    if |words| > 1 {
      JoinAvoids(words[1..], sep, c);
    }
  }

  lemma TrimAllSolid(words: seq<string>)
    requires AllSolid(words)
    ensures TrimAll(words) == words
  {
    forall i | 0 <= i < |words| ensures TrimAll(words)[i] == words[i] { TrimSolid(words[i], WORD_BLANKS); }
  }

  ghost predicate WellWritten(words: seq<string>) {
    |words| >= 3 && words[0] == "user" && !HasSpaces(words[1]) && AllSolid(words[2..])
  }

  lemma SpacelessName(name: string)
    requires !HasSpaces(name)
    ensures ' ' !in name && '\n' !in name
  {
  }

  lemma WellWrittenWords(words: seq<string>)
    requires WellWritten(words)
    ensures forall i | 0 <= i < |words| :: ' ' !in words[i] && '\n' !in words[i]
    ensures Solid(words[|words| - 1])
  {
    SpacelessName(words[1]);
    forall i | 0 <= i < |words| ensures ' ' !in words[i] && '\n' !in words[i] {
      if i >= 2 {
        assert words[2..][i - 2] == words[i];
      }
    }
    assert words[2..][|words| - 3] == words[|words| - 1];
  }

  // A line of good words is one line of the file and is taken apart into them.
  lemma LineReadsBack(words: seq<string>)
    requires WellWritten(words)
    ensures '\n' !in Join(words, ' ')
    ensures Trim(Join(words, ' '), LINE_BLANKS) == Join(words, ' ') != "" && Split(Join(words, ' '), ' ') == words
  {
    WellWrittenWords(words);
    JoinAvoids(words, ' ', '\n');
    JoinEnds(words, ' ');
    var w := words[|words| - 1];
    assert w[|w| - 1] in w;
    TrimSolid(Join(words, ' '), LINE_BLANKS);
    SplitJoin(words, ' ');
  }

  lemma LoadGoodLine(t: Table, words: seq<string>, l: Loading)
    requires WellWritten(words) && l.ok && ObeyAll(t, Fresh(), words[2..]).ok
    ensures LoadLine(t, Join(words, ' '), l) == l.(users := l.users[words[1] := ObeyAll(t, Fresh(), words[2..]).user])
  {
    LineReadsBack(words);
    TrimAllSolid(words[2..]);
  }

  lemma {:induction false} ElsewhereKeeps(t: Table, u: User, others: seq<string>)
    requires forall i | 0 <= i < |others| :: Parse(others[i]).Elsewhere?
    ensures ObeyAll(t, u, others) == Result(u, true)
    decreases |others|
  {
    if others != [] {
      ElsewhereKeeps(t, u, others[1..]);
    }
  }

  function RuleWords(t: Table, a: Account): seq<string> { a.others + Description(t, a.user) }

  lemma RulesObeyed(t: Table, a: Account) returns (u: User)
    requires ValidTable(t) && GoodAccount(t, a)
    ensures ObeyAll(t, Fresh(), RuleWords(t, a)) == Result(u, true) && u.bits == a.user.bits && u.subs == a.user.subs
  {
    ElsewhereKeeps(t, Fresh(), a.others);
    DescriptionRestores(t, a.user);
    ObeyMore(t, Fresh(), a.others, Description(t, a.user));
    u := ObeyAll(t, Fresh(), RuleWords(t, a)).user;
  }

  lemma LineWellWritten(t: Table, a: Account)
    requires ValidTable(t) && GoodAccount(t, a) && SubsClean(a.user)
    ensures WellWritten(LineWords(t, a)) && LineWords(t, a)[1] == a.name && LineWords(t, a)[2..] == RuleWords(t, a)
  {
    DescriptionSolid(t, a.user);
    var words := LineWords(t, a);
    assert words == ["user", a.name] + RuleWords(t, a);
    assert AllSolid(RuleWords(t, a));
  }

  // Loading the line of a user whose subcommands are clean.
  lemma AccountLoads(t: Table, a: Account, l: Loading) returns (u: User)
    requires ValidTable(t) && GoodAccount(t, a) && SubsClean(a.user) && l.ok
    ensures LoadLine(t, Line(t, a), l) == l.(users := l.users[a.name := u])
    ensures u.bits == a.user.bits && u.subs == a.user.subs && '\n' !in Line(t, a)
  {
    u := RulesObeyed(t, a);
    LineWellWritten(t, a);
    LineReadsBack(LineWords(t, a));
    LoadGoodLine(t, LineWords(t, a), l);
  }

  /******* Whole files *******/

  ghost predicate DistinctNames(accounts: seq<Account>) {
    forall i, j | 0 <= i < j < |accounts| :: accounts[i].name != accounts[j].name
  }

  predicate Named(accounts: seq<Account>, name: string) { exists i :: 0 <= i < |accounts| && accounts[i].name == name }

  ghost predicate SameRules(users: map<string, User>, a: Account) {
    a.name in users && users[a.name].bits == a.user.bits && users[a.name].subs == a.user.subs
  }

  ghost predicate Holds(users: map<string, User>, accounts: seq<Account>) {
    forall i | 0 <= i < |accounts| :: SameRules(users, accounts[i])
  }

  // Everybody is there with the same command rules, and nobody else.
  ghost predicate Restores(r: Option<map<string, User>>, accounts: seq<Account>) {
    r.Some? && (forall name :: name in r.value <==> Named(accounts, name)) && Holds(r.value, accounts)
  }

  // From one loading to another: the accounts have come in, and nothing else has changed.
  ghost predicate CameIn(l: Loading, r: Loading, accounts: seq<Account>) {
    && r.ok && Holds(r.users, accounts)
    && (forall name :: name in r.users <==> name in l.users || Named(accounts, name))
    && (forall name | name in l.users && !Named(accounts, name) :: r.users[name] == l.users[name])
  }

  lemma OneMoreCameIn(l: Loading, l': Loading, r: Loading, accounts: seq<Account>, u: User)
    requires accounts != [] && DistinctNames(accounts) && l' == l.(users := l.users[accounts[0].name := u])
    requires u.bits == accounts[0].user.bits && u.subs == accounts[0].user.subs
    requires CameIn(l', r, accounts[1..])
    ensures CameIn(l, r, accounts)
  {
    var a, rest := accounts[0], accounts[1..];
    NamesOf(accounts);
    assert !Named(rest, a.name);
    assert r.users[a.name] == u;
    forall i | 0 <= i < |accounts| ensures SameRules(r.users, accounts[i]) {
      assert i > 0 ==> accounts[i] == rest[i - 1];
    }
  }

  lemma FirstLoads(t: Table, lines: seq<string>, more: seq<string>, l: Loading, l': Loading)
    requires lines != [] && lines[1..] == more && LoadLine(t, lines[0], l) == l'
    ensures LoadLines(t, lines, l) == LoadLines(t, more, l')
  {
  }

  lemma {:induction false} AccountsLoad(t: Table, accounts: seq<Account>, l: Loading)
    requires ValidTable(t) && l.ok && DistinctNames(accounts)
    requires forall i | 0 <= i < |accounts| :: GoodAccount(t, accounts[i]) && SubsClean(accounts[i].user)
    ensures CameIn(l, LoadLines(t, Lines(t, accounts), l), accounts)
    decreases |accounts|
  {
    if accounts != [] {
      var rest := accounts[1..];
      var u := AccountLoads(t, accounts[0], l);
      var l' := l.(users := l.users[accounts[0].name := u]);
      var all, more := Lines(t, accounts), Lines(t, rest);
      assert all[0] == Line(t, accounts[0]) && all[1..] == more;
      FirstLoads(t, all, more, l, l');
      AccountsLoad(t, rest, l');
      OneMoreCameIn(l, l', LoadLines(t, more, l'), accounts, u);
    }
  }

  lemma NamesOf(accounts: seq<Account>)
    requires accounts != []
    ensures forall name :: Named(accounts, name) <==> name == accounts[0].name || Named(accounts[1..], name)
  {
    forall name ensures Named(accounts, name) <==> name == accounts[0].name || Named(accounts[1..], name) {
      if Named(accounts[1..], name) {
        var i :| 0 <= i < |accounts[1..]| && accounts[1..][i].name == name;
        assert accounts[i + 1].name == name;
      }
      if Named(accounts, name) && name != accounts[0].name {
        var i :| 0 <= i < |accounts| && accounts[i].name == name;
        assert accounts[1..][i - 1].name == name;
      }
    }
  }

  /******* What no file can hold *******/

  lemma ParseClean(op: string)
    requires Clean(op)
    ensures Parse(op).AddSub? ==> Clean(Parse(op).sub)
  {
  }

  lemma ApplyKeepsClean(t: Table, u: User, rule: Rule)
    requires SubsClean(u) && (rule.AddSub? ==> Clean(rule.sub))
    ensures SubsClean(Apply(t, u, rule).user)
  {
    if rule.Category? {
      CategoryKeepsClean(t.commands, u, Lower(rule.name), rule.on);
    }
  }

  lemma {:induction false} CategoryKeepsClean(cs: seq<CommandInfo>, u: User, category: string, on: bool)
    requires SubsClean(u)
    ensures SubsClean(SetCategory(cs, u, category, on))
    decreases |cs|
  {
    if cs != [] {
      var first := cs[0];
      var u' := if !first.isModule && category in first.categories then ResetSubs(SetBit(u, first.id, on), first.id)
                else u;
      CategoryKeepsClean(cs[1..], u', category, on);
    }
  }

  lemma {:induction false} ObeyAllKeepsClean(t: Table, u: User, ops: seq<string>)
    requires SubsClean(u) && AllClean(ops)
    ensures SubsClean(ObeyAll(t, u, ops).user)
    decreases |ops|
  {
    if ops != [] {
      ParseClean(ops[0]);
      ApplyKeepsClean(t, u, Parse(ops[0]));
      ObeyAllKeepsClean(t, Obey(t, u, ops[0]).user, ops[1..]);
    }
  }

  lemma TrimIsClean(w: string)
    requires ' ' !in w && '\n' !in w
    ensures Clean(Trim(w, WORD_BLANKS))
  {
    var _, _ := TrimmedPiece(w, WORD_BLANKS);
  }

  lemma {:induction false} SplitAvoids(s: string, sep: char, c: char)
    requires c !in s
    ensures forall i | 0 <= i < |Split(s, sep)| :: c !in Split(s, sep)[i]
    decreases |s|
  {
    var k := Find(s, sep);
    if k < |s| {
      SplitAvoids(s[k + 1..], sep, c);
    }
  }

  ghost predicate UsersClean(users: map<string, User>) { forall name | name in users :: SubsClean(users[name]) }

  lemma LineKeepsClean(t: Table, line: string, l: Loading)
    requires '\n' !in line && UsersClean(l.users)
    ensures UsersClean(LoadLine(t, line, l).users)
  {
    var trimmed := Trim(line, LINE_BLANKS);
    var _, _ := TrimmedPiece(line, LINE_BLANKS);
    SplitAvoids(trimmed, ' ', '\n');
    var argv := Split(trimmed, ' ');
    if |argv| >= 2 {
      var ops := TrimAll(argv[2..]);
      forall i | 0 <= i < |ops| ensures Clean(ops[i]) {
        assert argv[2..][i] == argv[i + 2];
        TrimIsClean(argv[i + 2]);
      }
      ObeyAllKeepsClean(t, Fresh(), ops);
    }
  }

  lemma {:induction false} LinesKeepClean(t: Table, lines: seq<string>, l: Loading)
    requires (forall i | 0 <= i < |lines| :: '\n' !in lines[i]) && UsersClean(l.users)
    ensures UsersClean(LoadLines(t, lines, l).users)
    decreases |lines|
  {
    if lines != [] {
      LineKeepsClean(t, lines[0], l);
      LinesKeepClean(t, lines[1..], LoadLine(t, lines[0], l));
    }
  }

  /** Whatever is in the file, no user loaded from it has a subcommand with a space, a newline or a blank end. */
  lemma LoadedUsersClean(t: Table, file: string)
    ensures LoadedFile(t, file).Some? ==> UsersClean(LoadedFile(t, file).value)
  {
    LinesKeepClean(t, Split(file, '\n'), NewLoading());
  }

  lemma CleanFileLoads(t: Table, accounts: seq<Account>)
    requires ValidTable(t) && DistinctNames(accounts) && Named(accounts, "default")
    requires forall i | 0 <= i < |accounts| :: GoodAccount(t, accounts[i]) && SubsClean(accounts[i].user)
    ensures Restores(LoadedFile(t, SavedFile(t, accounts)), accounts)
  {
    var lines, l := Lines(t, accounts), NewLoading();
    forall i | 0 <= i < |lines| ensures '\n' !in lines[i] {
      var _ := AccountLoads(t, accounts[i], l);
    }
    SplitEnded(lines, '\n');
    AccountsLoad(t, accounts, l);
    LastLineBlank(t, lines, l);
  }

  lemma {:induction false} LastLineBlank(t: Table, lines: seq<string>, l: Loading)
    ensures LoadLines(t, lines + [""], l) == LoadLines(t, lines, l)
    decreases |lines|
  {
    if lines == [] {
      assert [""][1..] == [];
      assert LoadLines(t, [""], l) == LoadLines(t, [], LoadLine(t, "", l));
    } else {
      assert (lines + [""])[1..] == lines[1..] + [""] && (lines + [""])[0] == lines[0];
      LastLineBlank(t, lines[1..], LoadLine(t, lines[0], l));
    }
  }

  lemma RestoredAreClean(users: map<string, User>, accounts: seq<Account>)
    requires UsersClean(users) && Holds(users, accounts)
    ensures forall i | 0 <= i < |accounts| :: SubsClean(accounts[i].user)
  {
    forall i | 0 <= i < |accounts| ensures SubsClean(accounts[i].user) {
      assert SameRules(users, accounts[i]);
      assert SubsClean(users[accounts[i].name]);
    }
  }

  /**
   Saving all users and loading the file brings everybody back with the same command rules, and nobody else,
   exactly when no allowed subcommand has a space or a newline or ends in a tab or a carriage return.
   */
  lemma FileRestoresExactly(t: Table, accounts: seq<Account>)
    requires ValidTable(t) && DistinctNames(accounts) && Named(accounts, "default")
    requires forall i | 0 <= i < |accounts| :: GoodAccount(t, accounts[i])
    ensures Restores(LoadedFile(t, SavedFile(t, accounts)), accounts)
      <==> forall i | 0 <= i < |accounts| :: SubsClean(accounts[i].user)
  {
    var r := LoadedFile(t, SavedFile(t, accounts));
    if Restores(r, accounts) {
      LoadedUsersClean(t, SavedFile(t, accounts));
      RestoredAreClean(r.value, accounts);
    }
    if forall i | 0 <= i < |accounts| :: SubsClean(accounts[i].user) {
      CleanFileLoads(t, accounts);
    }
  }

  lemma UncleanNotRestored(t: Table, u: User)
    requires ValidTable(t) && Inv(t, u) && !SubsClean(u)
    ensures var saved := [Account("default", [], u)]; !Restores(LoadedFile(t, SavedFile(t, saved)), saved)
  {
    var saved := [Account("default", [], u)];
    assert saved[0].name == "default" && GoodAccount(t, saved[0]);
    FileRestoresExactly(t, saved);
  }

  lemma GivenUncleanSub(t: Table, i: nat, sub: string) returns (u: User)
    requires ValidTable(t) && i < |t.commands| && sub != "" && !Clean(sub)
    ensures u == ObeyAll(t, Fresh(), ["+" + t.commands[i].name + "|" + sub]).user
    ensures SubsOf(u, t.commands[i].id) == [sub]
    ensures Inv(t, u) && !SubsClean(u)
  {
    u := GivenSub(t, i, sub);
    ObeyAllKeepsInv(t, Fresh(), ["+" + t.commands[i].name + "|" + sub]);
    assert !Clean(SubsOf(u, t.commands[i].id)[0]);
  }

  /** For one: a default user given a subcommand that is not clean does not come back. */
  lemma UncleanSubcommandIsLost(t: Table, i: nat, sub: string) returns (u: User)
    requires ValidTable(t) && i < |t.commands| && sub != "" && !Clean(sub)
    ensures u == ObeyAll(t, Fresh(), ["+" + t.commands[i].name + "|" + sub]).user
    ensures SubsOf(u, t.commands[i].id) == [sub]
    ensures var saved := [Account("default", [], u)]; !Restores(LoadedFile(t, SavedFile(t, saved)), saved)
  {
    u := GivenUncleanSub(t, i, sub);
    UncleanNotRestored(t, u);
  }

  /** For another: a tab at the end of a word without any space is enough. */
  lemma TabbedSubcommandIsLost(t: Table, i: nat, word: string) returns (u: User)
    requires ValidTable(t) && i < |t.commands| && ' ' !in word
    ensures SubsOf(u, t.commands[i].id) == [word + "\t"] && ' ' !in word + "\t"
    ensures var saved := [Account("default", [], u)]; !Restores(LoadedFile(t, SavedFile(t, saved)), saved)
  {
    var sub := word + "\t";
    assert sub[|sub| - 1] == '\t';
    u := UncleanSubcommandIsLost(t, i, sub);
  }
}
