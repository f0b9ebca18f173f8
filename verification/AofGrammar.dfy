/**
 What the text of a command is to the loader, said without the loader: lines, arguments, whole commands, and the
 ways in which a text can fail to be one.
 */
module AofGrammar {
  import opened AofText
  import opened Decimals

  /******* Lines *******/

  // What fgets takes from the text: up to a newline, as much as fits, or up to the end of the file.
  predicate Takes(s: string, line: string) {
    && line <= s && 0 < |line| <= LINE
    && (forall i | 0 <= i < |line| - 1 :: line[i] != '\n')
    && (line[|line| - 1] == '\n' || |line| == LINE || |line| == |s|)
  }

  lemma {:induction false} LineEndIs(s: string, room: nat)
    requires s != "" && room > 0
    ensures var k := LineEnd(s, room);
      0 < k && (forall i | 0 <= i < k - 1 :: s[i] != '\n') && (s[k - 1] == '\n' || k == room || k == |s|)
  {
    if s[0] != '\n' && |s| > 1 && room > 1 {
      LineEndIs(s[1..], room - 1);
      var k := LineEnd(s[1..], room - 1);
      assert forall i | 1 <= i < k :: s[i] == s[1..][i - 1];
    }
  }

  lemma FirstLine(s: string, line: string)
    requires s != ""
    ensures Takes(s, line) <==> line == s[..LineEnd(s, LINE)]
  {
    LineEndIs(s, LINE);
    var k := LineEnd(s, LINE);
    if Takes(s, line) {
      assert s[..|line|] == line && forall i | 0 <= i < |line| :: s[i] == line[i];
      assert !(|line| < k) && !(k < |line|);
    }
  }

  /******* Arguments *******/

  // `line` announces an argument of that length, which may be negative.
  predicate Announces(s: string, line: string, len: int) {
    Takes(s, line) && line[0] == '$' && Strtol(line[1..]) == len
  }

  // One argument, with any two characters behind it, and then `more`.
  predicate ArgumentAt(s: string, line: string, arg: string, more: string) {
    && Announces(s, line, |arg|) && |line| + |arg| + 2 <= |s|
    && s[|line|..|line| + |arg|] == arg && s[|line| + |arg| + 2..] == more
  }

  ghost predicate Argument(s: string, arg: string, more: string) { exists line :: ArgumentAt(s, line, arg, more) }

  // What is left of the text before each argument, and at the end.
  ghost predicate Trail(at: seq<string>, args: Command) {
    |at| == |args| + 1 && forall i | 0 <= i < |args| :: Argument(at[i], args[i], at[i + 1])
  }

  ghost predicate Arguments(s: string, args: Command, more: string) {
    exists at :: Trail(at, args) && at[0] == s && at[|args|] == more
  }

  lemma NoArguments(s: string)
    ensures Arguments(s, [], s)
  {
    assert Trail([s], []);
  }

  lemma OneMoreArgument(s: string, arg: string, rest: string, args: Command, more: string)
    requires Argument(s, arg, rest) && Arguments(rest, args, more)
    ensures Arguments(s, [arg] + args, more)
  {
    var at :| Trail(at, args) && at[0] == rest && at[|args|] == more;
    var all := [s] + at;
    forall i | 0 <= i < |args| + 1
      ensures Argument(all[i], ([arg] + args)[i], all[i + 1])
    {
      if i > 0 {
        assert Argument(at[i - 1], args[i - 1], at[i]);
      }
    }
    assert Trail(all, [arg] + args);
  }

  // The ways in which an argument is not there.
  ghost predicate CutArgument(s: string) {
    s == "" || exists line, len: nat :: Announces(s, line, len) && |s| < |line| + len + 2
  }

  predicate BadArgument(s: string) { s != "" && s[0] != '$' }

  ghost predicate HugeArgument(s: string) { exists line, len: int :: Announces(s, line, len) && len < 0 }

  ghost predicate Halts(s: string, r: Scan) {
    match r
    case CutShort => CutArgument(s)
    case BadFormat => BadArgument(s)
    case NoMemory => HugeArgument(s)
    case _ => false
  }

  // Fewer than n arguments come before `rest`.
  ghost predicate Fewer(s: string, n: nat, rest: string) {
    exists args :: |args| < n && Arguments(s, args, rest)
  }

  // Reading n arguments fails in that way, after fewer of them.
  ghost predicate HaltsWithin(s: string, n: nat, r: Scan) { exists rest :: Fewer(s, n, rest) && Halts(rest, r) }

  lemma AnnouncedLine(s: string, line: string, len: int)
    requires Announces(s, line, len)
    ensures s != "" && s[0] == '$' && LineEnd(s, LINE) == |line| && Strtol(s[1..|line|]) == len
  {
    FirstLine(s, line);
    assert s[1..|line|] == line[1..];
  }

  // The scanner on one argument.
  lemma ArgumentScans(s: string, arg: string, more: string, n: nat)
    requires Argument(s, arg, more) && n >= 1
    ensures ScanArgs(s, n) == Prepend(arg, ScanArgs(more, n - 1))
  {
    var line :| ArgumentAt(s, line, arg, more);
    AnnouncedLine(s, line, |arg|);
    ScanArgsStep(s, |line|, arg, more, n);
  }

  lemma PrependFirst(arg: string, args: Command, r: Scan)
    ensures Prepend(arg, PrependAll(args, r)) == PrependAll([arg] + args, r)
  {
    if r.Complete? {
      assert [arg] + (args + r.args) == ([arg] + args) + r.args;
    }
  }

  lemma TrailTail(at: seq<string>, args: Command)
    requires Trail(at, args) && args != []
    ensures Argument(at[0], args[0], at[1]) && Trail(at[1..], args[1..])
  {
    var rest, left := args[1..], at[1..];
    forall i | 0 <= i < |rest|
      ensures Argument(left[i], rest[i], left[i + 1])
    {
      var j := i + 1;
      assert Argument(at[j], args[j], at[j + 1]);
    }
  }

  // Scanning n arguments is taking these, and scanning the others from there.
  predicate Reads(s: string, n: nat, args: Command, more: string) {
    |args| <= n && ScanArgs(s, n) == PrependAll(args, ScanArgs(more, n - |args|))
  }

  lemma ReadsOneMore(s: string, arg: string, rest: string, args: Command, more: string, n: nat)
    requires n >= 1 && Argument(s, arg, rest) && Reads(rest, n - 1, args, more)
    ensures Reads(s, n, [arg] + args, more)
  {
    ArgumentScans(s, arg, rest, n);
    PrependFirst(arg, args, ScanArgs(more, n - 1 - |args|));
  }

  lemma {:induction false} TrailReads(at: seq<string>, args: Command, n: nat)
    requires Trail(at, args) && |args| <= n
    ensures Reads(at[0], n, args, at[|args|])
    decreases |args|
  {
    if args == [] {
      PrependNothing(ScanArgs(at[0], n));
    } else {
      TrailTail(at, args);
      TrailReads(at[1..], args[1..], n - 1);
      ReadsOneMore(at[0], args[0], at[1], args[1..], at[|args|], n);
      assert [args[0]] + args[1..] == args;
    }
  }

  lemma ArgumentsScan(s: string, args: Command, more: string, n: nat)
    requires Arguments(s, args, more) && |args| <= n
    ensures Reads(s, n, args, more)
  {
    var at :| Trail(at, args) && at[0] == s && at[|args|] == more;
    TrailReads(at, args, n);
  }

  lemma AnnouncedScans(s: string, line: string, len: int, n: nat)
    requires Announces(s, line, len) && n >= 1
    ensures len < 0 ==> ScanArgs(s, n) == NoMemory
    ensures 0 <= len && |s| < |line| + len + 2 ==> ScanArgs(s, n) == CutShort
  {
    AnnouncedLine(s, line, len);
  }

  lemma HaltScans(s: string, n: nat, r: Scan)
    requires Halts(s, r) && n >= 1
    ensures ScanArgs(s, n) == r && !r.Complete?
  {
    if r.CutShort? && s != "" {
      var line, len: nat :| Announces(s, line, len) && |s| < |line| + len + 2;
      AnnouncedScans(s, line, len, n);
    } else if r.NoMemory? {
      var line, len: int :| Announces(s, line, len) && len < 0;
      AnnouncedScans(s, line, len, n);
    }
  }

  // The first argument is there, or it is not in one of these ways.
  lemma FirstArgument(s: string) returns (arg: string, more: string, r: Scan)
    ensures Halts(s, r) || Argument(s, arg, more)
  {
    arg, more, r := "", "", if s == "" then CutShort else BadFormat;
    if s != "" && s[0] == '$' {
      var k := LineEnd(s, LINE);
      FirstLine(s, s[..k]);
      var len := Strtol(s[..k][1..]);
      assert Announces(s, s[..k], len);
      if len < 0 {
        r := NoMemory;
      } else if len > |s| - k - 2 {
        r := CutShort;
      } else {
        arg, more := s[k..k + len], s[k + len + 2..];
        assert ArgumentAt(s, s[..k], arg, more);
      }
    }
  }

  ghost predicate Stops(s: string, n: nat, r: Scan) {
    if r.Complete? then |r.args| == n && Arguments(s, r.args, r.rest) else HaltsWithin(s, n, r)
  }

  lemma FewerThanOneMore(s: string, arg: string, more: string, n: nat, rest: string)
    requires Argument(s, arg, more) && n >= 1 && Fewer(more, n - 1, rest)
    ensures Fewer(s, n, rest)
  {
    var args :| |args| < n - 1 && Arguments(more, args, rest);
    OneMoreArgument(s, arg, more, args, rest);
  }

  lemma OneMoreStops(s: string, arg: string, more: string, n: nat, r: Scan)
    requires Argument(s, arg, more) && n >= 1 && Stops(more, n - 1, r)
    ensures Stops(s, n, Prepend(arg, r))
  {
    if r.Complete? {
      OneMoreArgument(s, arg, more, r.args, r.rest);
    } else {
      var rest :| Fewer(more, n - 1, rest) && Halts(rest, r);
      FewerThanOneMore(s, arg, more, n, rest);
    }
  }

  lemma HaltStops(s: string, n: nat, r: Scan)
    requires Halts(s, r) && n >= 1
    ensures Stops(s, n, ScanArgs(s, n))
  {
    NoArguments(s);
    HaltScans(s, n, r);
    assert Fewer(s, n, s);
  }

  lemma FirstThenStops(s: string, arg: string, more: string, n: nat)
    requires Argument(s, arg, more) && n >= 1 && Stops(more, n - 1, ScanArgs(more, n - 1))
    ensures Stops(s, n, ScanArgs(s, n))
  {
    ArgumentScans(s, arg, more, n);
    OneMoreStops(s, arg, more, n, ScanArgs(more, n - 1));
  }

  lemma {:induction false} ScanStops(s: string, n: nat)
    ensures Stops(s, n, ScanArgs(s, n))
    decreases n
  {
    if n == 0 {
      NoArguments(s);
    } else {
      var arg, more, r := FirstArgument(s);
      if Argument(s, arg, more) {
        ScanStops(more, n - 1);
        FirstThenStops(s, arg, more, n);
      } else {
        HaltStops(s, n, r);
      }
    }
  }

  lemma ReadsFails(s: string, n: nat, args: Command, rest: string, r: Scan)
    requires Reads(s, n, args, rest) && |args| < n && Halts(rest, r)
    ensures ScanArgs(s, n) == r
  {
    HaltScans(rest, n - |args|, r);
  }

  lemma FewerFails(s: string, n: nat, rest: string, r: Scan)
    requires Fewer(s, n, rest) && Halts(rest, r)
    ensures ScanArgs(s, n) == r
  {
    var args :| |args| < n && Arguments(s, args, rest);
    ArgumentsScan(s, args, rest, n);
    ReadsFails(s, n, args, rest, r);
  }

  /** Each way of scanning n arguments is exactly one shape of the text. */
  lemma ScanArgsExactly(s: string, n: nat, r: Scan)
    ensures ScanArgs(s, n) == r <==> Stops(s, n, r)
  {
    ScanStops(s, n);
    if Stops(s, n, r) {
      if r.Complete? {
        ArgumentsScan(s, r.args, r.rest, n);
        assert r.args + [] == r.args;
      } else {
        var rest :| Fewer(s, n, rest) && Halts(rest, r);
        FewerFails(s, n, rest, r);
      }
    }
  }

  /******* Commands *******/

  // The first line counts the arguments.
  predicate Counts(s: string, line: string, n: int) {
    Takes(s, line) && |line| > 1 && line[0] == '*' && line[1] != '\0' && Atoi(line[1..]) == n
  }

  // A whole command, and then `more`.
  ghost predicate CommandThen(s: string, args: Command, more: string) {
    |args| >= 1 && exists line :: Counts(s, line, |args|) && Arguments(s[|line|..], args, more)
  }

  // A first line with no count, ended by the end of the file or not.
  predicate Countless(s: string, atEnd: bool) {
    && s != "" && s[0] == '*' && (|s| == 1 || s[1] == '\0')
    && atEnd == (|s| < LINE && '\n' !in s)
  }

  // The file ends inside a command.
  ghost predicate CommandCut(s: string) {
    Countless(s, true) || exists line, n: nat :: n >= 1 && Counts(s, line, n) && HaltsWithin(s[|line|..], n, CutShort)
  }

  // Not a command: no star, a count below one, or an argument without its mark.
  ghost predicate CommandBad(s: string) {
    && s != ""
    && (|| s[0] != '*'
        || (exists line, n: int :: n < 1 && Counts(s, line, n))
        || (exists line, n: nat :: n >= 1 && Counts(s, line, n) && HaltsWithin(s[|line|..], n, BadFormat)))
  }

  ghost predicate CommandHuge(s: string) {
    exists line, n: nat :: n >= 1 && Counts(s, line, n) && HaltsWithin(s[|line|..], n, NoMemory)
  }

  ghost predicate Shape(s: string, r: Scan) {
    match r
    case End => s == ""
    case Complete(args, rest) => CommandThen(s, args, rest)
    case CutShort => CommandCut(s)
    case BadFormat => CommandBad(s)
    case Unreadable => Countless(s, false)
    case NoMemory => CommandHuge(s)
  }

  lemma CountedScans(s: string, line: string, n: int)
    requires Counts(s, line, n)
    ensures ScanCommand(s) == if n < 1 then BadFormat else ScanArgs(s[|line|..], n)
  {
    FirstLine(s, line);
    assert s[1..|line|] == line[1..];
  }

  lemma CountlessScans(s: string, atEnd: bool)
    requires Countless(s, atEnd)
    ensures ScanCommand(s) == if atEnd then CutShort else Unreadable
  {
    LineEndIs(s, LINE);
  }

  // The first line counts, or there is no star, or no count.
  lemma FirstCount(s: string) returns (line: string)
    requires s != "" && s[0] == '*' && !Countless(s, true) && !Countless(s, false)
    ensures line != "" && Counts(s, line, Atoi(line[1..]))
  {
    var k := LineEnd(s, LINE);
    line := s[..k];
    FirstLine(s, line);
  }

  lemma ShapeScans(s: string, r: Scan)
    requires Shape(s, r)
    ensures ScanCommand(s) == r
  {
    if s == "" {
    } else if s[0] != '*' {
    } else if Countless(s, true) {
      CountlessScans(s, true);
    } else if Countless(s, false) {
      CountlessScans(s, false);
    } else {
      var line := FirstCount(s);
      CountedShape(s, line, r);
    }
  }

  lemma CountedShape(s: string, line: string, r: Scan)
    requires line != "" && Counts(s, line, Atoi(line[1..])) && Shape(s, r)
    ensures ScanCommand(s) == r
  {
    var n := Atoi(line[1..]);
    CountedScans(s, line, n);
    forall other, m: int | Counts(s, other, m)
      ensures other == line && m == n
    {
      FirstLine(s, line);
      FirstLine(s, other);
    }
    if n >= 1 {
      ScanArgsExactly(s[|line|..], n, r);
    }
  }

  lemma ScanShapes(s: string)
    ensures Shape(s, ScanCommand(s))
  {
    if s == "" || s[0] != '*' {
    } else if Countless(s, true) {
      CountlessScans(s, true);
    } else if Countless(s, false) {
      CountlessScans(s, false);
    } else {
      var line := FirstCount(s);
      var n := Atoi(line[1..]);
      CountedScans(s, line, n);
      if n >= 1 {
        ScanArgsExactly(s[|line|..], n, ScanArgs(s[|line|..], n));
      }
    }
  }

  /** Each outcome of reading a command is exactly one shape of the text. */
  lemma ScanExactly(s: string, r: Scan)
    ensures ScanCommand(s) == r <==> Shape(s, r)
  {
    ScanShapes(s);
    if Shape(s, r) {
      ShapeScans(s, r);
    }
  }
}
