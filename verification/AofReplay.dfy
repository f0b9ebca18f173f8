/**
 What loading a file comes to, exactly: every outcome is one way in which the file is the text of known commands
 and then something else.
 */
module AofWholeFiles {
  import opened Options
  import opened AofText
  import opened AofGrammar
  import opened AofLoader

  /******* Transactions in a log *******/

  function KindAt(kinds: string -> Kind, log: seq<Command>, i: nat): Kind
    requires i < |log|
  {
    if log[i] == [] then Unknown else kinds(log[i][0])
  }

  // A MULTI has no EXEC behind it.
  ghost predicate Open(kinds: string -> Kind, log: seq<Command>) {
    exists i: nat :: i < |log| && KindAt(kinds, log, i).Multi?
                     && forall j: nat | i <= j < |log| :: !KindAt(kinds, log, j).Exec?
  }

  // Where the transaction that is still open begins, or the end of the log.
  function Begin(kinds: string -> Kind, log: seq<Command>): (k: nat)
    ensures k <= |log|
    ensures k < |log| ==>
      KindAt(kinds, log, k).Multi? && forall j: nat | k <= j < |log| :: !KindAt(kinds, log, j).Exec?
    ensures k == |log| ==> !Open(kinds, log)
  {
    if log == [] then 0
    else
      var last := |log| - 1;
      var k := Begin(kinds, log[..last]);
      assert forall j: nat | j < last :: KindAt(kinds, log[..last], j) == KindAt(kinds, log, j);
      if KindAt(kinds, log, last).Exec? then |log|
      else if k < last || KindAt(kinds, log, last).Multi? then k
      else |log|
  }

  lemma BeginExactly(kinds: string -> Kind, log: seq<Command>)
    ensures Begin(kinds, log) < |log| <==> Open(kinds, log)
  {
  }

  // The commands that do something by themselves.
  function Others(kinds: string -> Kind, log: seq<Command>): seq<Command> {
    if log == [] then []
    else
      var last := |log| - 1;
      Others(kinds, log[..last]) + if KindAt(kinds, log, last).Other? then [log[last]] else []
  }

  lemma {:induction false} OthersMore(kinds: string -> Kind, a: seq<Command>, b: seq<Command>)
    ensures Others(kinds, a + b) == Others(kinds, a) + Others(kinds, b)
  {
    if b == [] {
      assert a + b == a;
    } else {
      var last := |b| - 1;
      assert (a + b)[..|a + b| - 1] == a + b[..last];
      OthersMore(kinds, a, b[..last]);
    }
  }

  // What takes effect: everything before the transaction that is still open.
  function Kept(kinds: string -> Kind, log: seq<Command>): seq<Command> {
    Others(kinds, log[..Begin(kinds, log)])
  }

  ghost predicate Agrees(l: Loader, kinds: string -> Kind, log: seq<Command>) {
    var k := Begin(kinds, log);
    && l.executed == Others(kinds, log[..k])
    && l.queue == if k == |log| then None else Some(Others(kinds, log[k + 1..]))
  }

  lemma OneOther(kinds: string -> Kind, c: Command)
    ensures Others(kinds, [c]) == if KindAt(kinds, [c], 0).Other? then [c] else []
  {
    assert [c][..0] == [];
  }

  lemma OthersSnoc(kinds: string -> Kind, log: seq<Command>, c: Command)
    ensures Others(kinds, log + [c]) == Others(kinds, log) + if KindAt(kinds, [c], 0).Other? then [c] else []
  {
    OthersMore(kinds, log, [c]);
    OneOther(kinds, c);
  }

  lemma BeginSnoc(kinds: string -> Kind, log: seq<Command>, c: Command)
    ensures var k, kind := Begin(kinds, log), KindAt(kinds, [c], 0);
      Begin(kinds, log + [c]) == if !kind.Exec? && (k < |log| || kind.Multi?) then k else |log| + 1
  {
    assert (log + [c])[..|log|] == log;
  }

  // A command that does nothing by itself is left out.
  lemma OthersAround(kinds: string -> Kind, a: seq<Command>, c: Command, b: seq<Command>)
    requires !KindAt(kinds, [c], 0).Other?
    ensures Others(kinds, a + [c] + b) == Others(kinds, a) + Others(kinds, b)
  {
    OthersMore(kinds, a + [c], b);
    OthersSnoc(kinds, a, c);
    assert Others(kinds, a) + [] == Others(kinds, a);
  }

  lemma ObeyAgreesClosed(l: Loader, kinds: string -> Kind, log: seq<Command>, c: Command, pos: nat)
    requires Agrees(l, kinds, log) && l.queue.None? && |c| >= 1
    ensures Agrees(Obey(l, c, kinds(c[0]), pos), kinds, log + [c])
  {
    BeginSnoc(kinds, log, c);
    OthersSnoc(kinds, log, c);
    assert log[..|log|] == log && (log + [c])[..|log|] == log && (log + [c])[..|log| + 1] == log + [c];
    assert (log + [c])[|log| + 1..] == [];
  }

  // EXEC runs what was queued.
  lemma ExecAgrees(l: Loader, kinds: string -> Kind, log: seq<Command>, c: Command, pos: nat)
    requires Agrees(l, kinds, log) && l.queue.Some? && |c| >= 1 && kinds(c[0]).Exec?
    ensures Agrees(Obey(l, c, kinds(c[0]), pos), kinds, log + [c])
  {
    var k := Begin(kinds, log);
    assert log == log[..k] + [log[k]] + log[k + 1..];
    OthersAround(kinds, log[..k], log[k], log[k + 1..]);
    OthersAround(kinds, log, c, []);
    BeginSnoc(kinds, log, c);
    assert log + [c] + [] == log + [c] && (log + [c])[..|log| + 1] == log + [c];
    assert Others(kinds, log) + [] == Others(kinds, log);
  }

  // Everything else waits for it.
  lemma QueueAgrees(l: Loader, kinds: string -> Kind, log: seq<Command>, c: Command, pos: nat)
    requires Agrees(l, kinds, log) && l.queue.Some? && |c| >= 1 && !kinds(c[0]).Exec? && !kinds(c[0]).Unknown?
    ensures Agrees(Obey(l, c, kinds(c[0]), pos), kinds, log + [c])
  {
    var k := Begin(kinds, log);
    BeginSnoc(kinds, log, c);
    var more := log + [c];
    assert more[k + 1..] == log[k + 1..] + [c] && more[..k] == log[..k];
    QueueGrows(l, kinds, log[k + 1..], c, pos);
  }

  lemma QueueGrows(l: Loader, kinds: string -> Kind, waiting: seq<Command>, c: Command, pos: nat)
    requires l.queue == Some(Others(kinds, waiting)) && |c| >= 1 && !kinds(c[0]).Exec? && !kinds(c[0]).Unknown?
    ensures var l' := Obey(l, c, kinds(c[0]), pos);
      l'.executed == l.executed && l'.queue == Some(Others(kinds, waiting + [c]))
  {
    OthersSnoc(kinds, waiting, c);
    assert Others(kinds, waiting) + [] == Others(kinds, waiting);
  }

  lemma ObeyAgrees(l: Loader, kinds: string -> Kind, log: seq<Command>, c: Command, pos: nat)
    requires Agrees(l, kinds, log) && |c| >= 1 && !kinds(c[0]).Unknown?
    ensures Agrees(Obey(l, c, kinds(c[0]), pos), kinds, log + [c])
  {
    if l.queue.None? {
      ObeyAgreesClosed(l, kinds, log, c, pos);
    } else if kinds(c[0]).Exec? {
      ExecAgrees(l, kinds, log, c, pos);
    } else {
      QueueAgrees(l, kinds, log, c, pos);
    }
  }

  /******* A file as commands and a tail *******/

  // What is left of the file before each command, and at the end; all the commands are known.
  ghost predicate Path(at: seq<string>, kinds: string -> Kind, log: seq<Command>) {
    && |at| == |log| + 1
    && forall i | 0 <= i < |log| :: CommandThen(at[i], log[i], at[i + 1]) && !kinds(log[i][0]).Unknown?
  }

  // The MULTI that comes last.
  ghost predicate LastMulti(kinds: string -> Kind, log: seq<Command>, m: nat) {
    && m < |log| && KindAt(kinds, log, m).Multi?
    && forall j: nat | m < j < |log| :: !KindAt(kinds, log, j).Multi?
  }

  ghost predicate UnknownNext(kinds: string -> Kind, tail: string) {
    exists args, more :: CommandThen(tail, args, more) && kinds(args[0]).Unknown?
  }

  // What the load comes to, from what is left behind the known commands.
  ghost predicate EndsIn(kinds: string -> Kind, at: seq<string>, log: seq<Command>, truncate: bool, o: Outcome)
    requires |at| == |log| + 1
  {
    var file, tail := at[0], at[|log|];
    match o
    case Loaded(executed, size) =>
      && executed == Kept(kinds, log)
      && (|| (tail == "" && !Open(kinds, log) && size == |file|)
          || (truncate && tail == "" && Open(kinds, log)
              && exists m: nat :: LastMulti(kinds, log, m) && size == |file| - |at[m]|)
          || (truncate && CommandCut(tail) && size == |file| - |tail|))
    case Failed(WrongFormat) => CommandBad(tail)
    case Failed(UnexpectedEnd) => !truncate && (CommandCut(tail) || (tail == "" && Open(kinds, log)))
    case Failed(ReadFailure) => Countless(tail, false)
    case Failed(OutOfMemory) => CommandHuge(tail)
    case Failed(UnknownCommand) => UnknownNext(kinds, tail)
    case Failed(_) => false
  }

  // The loader's offset before the last MULTI, after the first i commands.
  ghost predicate MultiAt(l: Loader, kinds: string -> Kind, at: seq<string>, log: seq<Command>, i: nat)
    requires |at| == |log| + 1 && i <= |log|
  {
    forall m: nat | LastMulti(kinds, log[..i], m) :: l.beforeMulti == |at[0]| - |at[m]|
  }

  // The loader after the first i commands.
  ghost predicate LoaderAt(l: Loader, kinds: string -> Kind, at: seq<string>, log: seq<Command>, i: nat)
    requires |at| == |log| + 1 && i <= |log|
  {
    && |at[i]| <= |at[0]| && Agrees(l, kinds, log[..i]) && l.validUpTo == |at[0]| - |at[i]|
    && MultiAt(l, kinds, at, log, i)
  }

  lemma NextMultiAt(l: Loader, kinds: string -> Kind, at: seq<string>, log: seq<Command>, i: nat, pos: nat)
    requires |at| == |log| + 1 && i < |log| && |log[i]| >= 1
    requires MultiAt(l, kinds, at, log, i) && l.validUpTo == |at[0]| - |at[i]|
    ensures MultiAt(Obey(l, log[i], kinds(log[i][0]), pos), kinds, at, log, i + 1)
  {
    forall m: nat | LastMulti(kinds, log[..i + 1], m)
      ensures Obey(l, log[i], kinds(log[i][0]), pos).beforeMulti == |at[0]| - |at[m]|
    {
      LastMultiBefore(kinds, log, i, m);
    }
  }

  lemma NextLoaderAt(l: Loader, kinds: string -> Kind, at: seq<string>, log: seq<Command>, i: nat)
    requires |at| == |log| + 1 && i < |log| && |log[i]| >= 1 && !kinds(log[i][0]).Unknown?
    requires LoaderAt(l, kinds, at, log, i) && |at[i + 1]| < |at[i]|
    ensures LoaderAt(Obey(l, log[i], kinds(log[i][0]), |at[0]| - |at[i + 1]|), kinds, at, log, i + 1)
  {
    var pos := |at[0]| - |at[i + 1]|;
    assert log[..i + 1] == log[..i] + [log[i]];
    ObeyAgrees(l, kinds, log[..i], log[i], pos);
    NextMultiAt(l, kinds, at, log, i, pos);
  }

  lemma LastMultiBefore(kinds: string -> Kind, log: seq<Command>, i: nat, m: nat)
    requires i < |log| && LastMulti(kinds, log[..i + 1], m)
    ensures if KindAt(kinds, log, i).Multi? then m == i else m < i && LastMulti(kinds, log[..i], m)
  {
    assert forall j: nat | j <= i :: KindAt(kinds, log[..i + 1], j) == KindAt(kinds, log, j);
    assert forall j: nat | j < i :: KindAt(kinds, log[..i], j) == KindAt(kinds, log, j);
  }

  lemma PathStep(at: seq<string>, kinds: string -> Kind, log: seq<Command>, i: nat)
    requires Path(at, kinds, log) && i < |log|
    ensures |log[i]| >= 1 && !kinds(log[i][0]).Unknown?
    ensures ScanCommand(at[i]) == Complete(log[i], at[i + 1]) && |at[i + 1]| < |at[i]|
  {
    assert CommandThen(at[i], log[i], at[i + 1]);
    ScanExactly(at[i], Complete(log[i], at[i + 1]));
  }

  // The same for any format that reads the commands in these places.
  ghost predicate Walks(f: Format, at: seq<string>, kinds: string -> Kind, log: seq<Command>) {
    && |at| == |log| + 1
    && forall i | 0 <= i < |log| ::
         && |log[i]| >= 1 && !kinds(log[i][0]).Unknown? && |at[i + 1]| < |at[i]|
         && f.scan(at[i]) == Complete(log[i], at[i + 1])
  }

  lemma PathWalks(at: seq<string>, kinds: string -> Kind, log: seq<Command>)
    requires Path(at, kinds, log)
    ensures Walks(Text(), at, kinds, log)
  {
    forall i | 0 <= i < |log|
      ensures |log[i]| >= 1 && !kinds(log[i][0]).Unknown? && |at[i + 1]| < |at[i]|
      ensures Text().scan(at[i]) == Complete(log[i], at[i + 1])
    {
      PathStep(at, kinds, log, i);
    }
  }

  lemma LoadOne(f: Format, at: seq<string>, kinds: string -> Kind, log: seq<Command>, i: nat, before: Loader,
                truncate: bool, o: Outcome)
    requires Shrinks(f) && Walks(f, at, kinds, log) && i < |log| && |at[i]| <= |at[0]|
    requires LoadRest(f, kinds, at[i], |at[0]|, before, truncate) == o
    ensures |at[i + 1]| < |at[i]| && |log[i]| >= 1 && !kinds(log[i][0]).Unknown?
    ensures LoadRest(f, kinds, at[i + 1], |at[0]|,
                     Obey(before, log[i], kinds(log[i][0]), |at[0]| - |at[i + 1]|), truncate) == o
  {
    assert f.scan(at[i]) == Complete(log[i], at[i + 1]);
    LoadStep(f, kinds, at[i], log[i], at[i + 1], |at[0]|, before, truncate);
  }

  lemma WalkStep(f: Format, at: seq<string>, kinds: string -> Kind, log: seq<Command>, i: nat, before: Loader,
                 truncate: bool, o: Outcome) returns (l: Loader)
    requires Shrinks(f) && Walks(f, at, kinds, log) && i < |log| && LoaderAt(before, kinds, at, log, i)
    requires LoadRest(f, kinds, at[i], |at[0]|, before, truncate) == o
    ensures LoaderAt(l, kinds, at, log, i + 1) && LoadRest(f, kinds, at[i + 1], |at[0]|, l, truncate) == o
  {
    LoadOne(f, at, kinds, log, i, before, truncate, o);
    NextLoaderAt(before, kinds, at, log, i);
    l := Obey(before, log[i], kinds(log[i][0]), |at[0]| - |at[i + 1]|);
  }

  // The loader walks along the commands.
  lemma {:induction false} WalkLoads(f: Format, at: seq<string>, kinds: string -> Kind, log: seq<Command>, i: nat,
                                     truncate: bool, o: Outcome) returns (l: Loader)
    requires Shrinks(f) && Walks(f, at, kinds, log) && i <= |log|
    requires LoadRest(f, kinds, at[0], |at[0]|, NEW_LOADER, truncate) == o
    ensures LoaderAt(l, kinds, at, log, i) && LoadRest(f, kinds, at[i], |at[0]|, l, truncate) == o
    decreases i
  {
    if i == 0 {
      l := NEW_LOADER;
      assert log[..0] == [];
    } else {
      var before := WalkLoads(f, at, kinds, log, i - 1, truncate, o);
      l := WalkStep(f, at, kinds, log, i - 1, before, truncate, o);
    }
  }

  lemma OpenHasLastMulti(kinds: string -> Kind, log: seq<Command>) returns (m: nat)
    requires Open(kinds, log)
    ensures LastMulti(kinds, log, m)
  {
    var i: nat :| i < |log| && KindAt(kinds, log, i).Multi?;
    m := |log| - 1;
    while !KindAt(kinds, log, m).Multi?
      invariant i <= m < |log| && forall j: nat | m < j < |log| :: !KindAt(kinds, log, j).Multi?
      decreases m
    {
      m := m - 1;
    }
  }

  // What was read last when the load ends so.
  predicate LastRead(kinds: string -> Kind, tail: string, r: Scan, o: Outcome) {
    match o
    case Loaded(_, _) => r == if tail == "" then End else CutShort
    case Failed(WrongFormat) => r == BadFormat
    case Failed(UnexpectedEnd) => r == if tail == "" then End else CutShort
    case Failed(ReadFailure) => r == Unreadable
    case Failed(OutOfMemory) => r == NoMemory
    case Failed(UnknownCommand) => r.Complete? && |r.args| >= 1 && kinds(r.args[0]).Unknown?
    case Failed(_) => false
  }

  lemma EndsReading(kinds: string -> Kind, at: seq<string>, log: seq<Command>, truncate: bool, o: Outcome)
    requires |at| == |log| + 1 && EndsIn(kinds, at, log, truncate, o)
    ensures LastRead(kinds, at[|log|], ScanCommand(at[|log|]), o)
  {
    var tail := at[|log|];
    match o {
      case Failed(WrongFormat) => ScanExactly(tail, BadFormat);
      case Failed(ReadFailure) => ScanExactly(tail, Unreadable);
      case Failed(OutOfMemory) => ScanExactly(tail, NoMemory);
      case Failed(UnknownCommand) =>
        var args, more :| CommandThen(tail, args, more) && kinds(args[0]).Unknown?;
        ScanExactly(tail, Complete(args, more));
      case _ =>
        ScanExactly(tail, CutShort);
    }
  }

  // The loader after all the commands.
  ghost predicate LoaderAtEnd(l: Loader, kinds: string -> Kind, at: seq<string>, log: seq<Command>)
    requires |at| == |log| + 1
  {
    && |at[|log|]| <= |at[0]| && l.executed == Kept(kinds, log) && (l.queue.Some? <==> Open(kinds, log))
    && l.validUpTo == |at[0]| - |at[|log|]|
    && forall m: nat | LastMulti(kinds, log, m) :: l.beforeMulti == |at[0]| - |at[m]|
  }

  lemma LoaderArrives(l: Loader, kinds: string -> Kind, at: seq<string>, log: seq<Command>)
    requires |at| == |log| + 1 && LoaderAt(l, kinds, at, log, |log|)
    ensures LoaderAtEnd(l, kinds, at, log)
  {
    assert log[..|log|] == log;
    BeginExactly(kinds, log);
  }

  // Nothing is left, or a command that is cut.
  lemma LastPart(f: Format, kinds: string -> Kind, tail: string, size: nat, l: Loader, truncate: bool)
    requires Shrinks(f) && |tail| <= size
    ensures var o := LoadRest(f, kinds, tail, size, l, truncate);
      && (f.scan(tail).End? && l.queue.None? ==> o == Loaded(l.executed, size))
      && (f.scan(tail).End? && l.queue.Some? && truncate ==> o == Loaded(l.executed, l.beforeMulti))
      && (f.scan(tail).CutShort? && truncate ==> o == Loaded(l.executed, l.validUpTo))
  {
  }

  lemma TailFails(f: Format, kinds: string -> Kind, tail: string, size: nat, l: Loader, truncate: bool, e: Error)
    requires Shrinks(f) && |tail| <= size && LastRead(kinds, tail, f.scan(tail), Failed(e))
    requires e.UnexpectedEnd? ==> !truncate && (tail == "" ==> l.queue.Some?)
    ensures LoadRest(f, kinds, tail, size, l, truncate) == Failed(e)
  {
  }

  lemma TailLoads(f: Format, at: seq<string>, kinds: string -> Kind, log: seq<Command>, l: Loader, truncate: bool,
                  o: Outcome)
    requires Shrinks(f) && |at| == |log| + 1 && LoaderAtEnd(l, kinds, at, log)
    requires LastRead(kinds, at[|log|], f.scan(at[|log|]), o) && EndsIn(kinds, at, log, truncate, o)
    ensures LoadRest(f, kinds, at[|log|], |at[0]|, l, truncate) == o
  {
    var tail := at[|log|];
    match o {
      case Loaded(executed, size) =>
        assert tail == "" ==> !CommandCut(tail);
        LastPart(f, kinds, tail, |at[0]|, l, truncate);
      case Failed(e) =>
        assert tail == "" ==> !CommandCut(tail);
        TailFails(f, kinds, tail, |at[0]|, l, truncate, e);
    }
  }

  // Every text is known commands and a tail that is not one more.
  lemma {:induction false} Decompose(kinds: string -> Kind, s: string) returns (at: seq<string>, log: seq<Command>)
    ensures Path(at, kinds, log) && at[0] == s
    ensures var r := ScanCommand(at[|log|]); r.Complete? ==> kinds(r.args[0]).Unknown?
    decreases |s|
  {
    var r := ScanCommand(s);
    if r.Complete? && !kinds(r.args[0]).Unknown? {
      ScanExactly(s, r);
      at, log := Decompose(kinds, r.rest);
      PathOneMore(s, kinds, r.args, at, log);
      at, log := [s] + at, [r.args] + log;
    } else {
      at, log := [s], [];
    }
  }

  lemma PathOneMore(s: string, kinds: string -> Kind, c: Command, at: seq<string>, log: seq<Command>)
    requires Path(at, kinds, log) && CommandThen(s, c, at[0]) && !kinds(c[0]).Unknown?
    ensures Path([s] + at, kinds, [c] + log)
  {
    var all, cs := [s] + at, [c] + log;
    forall i | 0 <= i < |cs|
      ensures CommandThen(all[i], cs[i], all[i + 1]) && !kinds(cs[i][0]).Unknown?
    {
      if i > 0 {
        var j := i - 1;
        assert CommandThen(at[j], log[j], at[j + 1]);
      }
    }
  }

  // How the load of a stuck tail ends.
  lemma TailEnds(at: seq<string>, kinds: string -> Kind, log: seq<Command>, l: Loader, truncate: bool)
    requires |at| == |log| + 1 && LoaderAtEnd(l, kinds, at, log) && Shrinks(Text())
    requires var r := ScanCommand(at[|log|]); r.Complete? ==> kinds(r.args[0]).Unknown?
    ensures EndsIn(kinds, at, log, truncate, LoadRest(Text(), kinds, at[|log|], |at[0]|, l, truncate))
  {
    ScanShapes(at[|log|]);
    if Open(kinds, log) {
      var m := OpenHasLastMulti(kinds, log);
    }
  }

  ghost predicate Ends(kinds: string -> Kind, file: string, truncate: bool, o: Outcome) {
    exists at, log :: Path(at, kinds, log) && at[0] == file && EndsIn(kinds, at, log, truncate, o)
  }

  /**
   For every file, table of commands and setting of aof-load-truncated, each outcome of the load is exactly one way
   in which the file is the text of known commands and then something else.
   */
  lemma LoadExactly(kinds: string -> Kind, file: string, truncate: bool, o: Outcome)
    requires file != "" && !("REDIS" <= file)
    ensures Shrinks(Text()) && (Load(Text(), kinds, file, truncate) == o <==> Ends(kinds, file, truncate, o))
  {
    TextShrinks();
    if Ends(kinds, file, truncate, o) {
      var at, log :| Path(at, kinds, log) && at[0] == file && EndsIn(kinds, at, log, truncate, o);
      PathWalks(at, kinds, log);
      var l := WalkLoads(Text(), at, kinds, log, |log|, truncate, Load(Text(), kinds, file, truncate));
      LoaderArrives(l, kinds, at, log);
      EndsReading(kinds, at, log, truncate, o);
      TailLoads(Text(), at, kinds, log, l, truncate, o);
    }
    var at, log := Decompose(kinds, file);
    PathWalks(at, kinds, log);
    var l := WalkLoads(Text(), at, kinds, log, |log|, truncate, Load(Text(), kinds, file, truncate));
    LoaderArrives(l, kinds, at, log);
    TailEnds(at, kinds, log, l, truncate);
  }
}

/** Files that the server did write, up to a point, and a file that it never writes. */
module AofDamage {
  import opened Options
  import opened AofText
  import opened AofGrammar
  import opened AofLoader
  import opened AofWholeFiles
  import opened Decimals

  lemma WrittenIsCommand(c: Command, rest: string)
    requires Encodable(c)
    ensures CommandThen(Encode(c) + rest, c, rest)
  {
    ScanEncoded(c, rest);
    ScanExactly(Encode(c) + rest, Complete(c, rest));
  }

  // A sound log and then a tail is not taken for the other format.
  lemma NotPreamble(log: seq<Command>, tail: string)
    requires log == [] ==> tail != "" && !("REDIS" <= tail)
    ensures var file := Render(Text(), log) + tail; file != "" && !("REDIS" <= file)
  {
    if log == [] {
      assert "" + tail == tail;
    } else {
      assert (Render(Text(), log) + tail)[0] == '*';
    }
  }

  lemma AfterLog(f: Format, kinds: string -> Kind, log: seq<Command>, tail: string, file: string, truncate: bool)
    returns (l: Loader)
    requires Inverts(f) && Sound(kinds, log) && file == Render(f, log) + tail && file != "" && !("REDIS" <= file)
    ensures Load(f, kinds, file, truncate) == LoadRest(f, kinds, tail, |file|, l, truncate)
  {
    LoadLog(f, kinds, log, tail, NEW_LOADER, 0, truncate);
    l := ObeyAll(f, kinds, NEW_LOADER, log, 0);
  }

  lemma AfterSoundLog(kinds: string -> Kind, log: seq<Command>, tail: string, truncate: bool) returns (l: Loader)
    requires Sound(kinds, log) && (log == [] ==> tail != "" && !("REDIS" <= tail))
    ensures Shrinks(Text())
    ensures var file := Render(Text(), log) + tail;
      Load(Text(), kinds, file, truncate) == LoadRest(Text(), kinds, tail, |file|, l, truncate)
  {
    TextLaws();
    NotPreamble(log, tail);
    l := AfterLog(Text(), kinds, log, tail, Render(Text(), log) + tail, truncate);
  }

  /** What was written, and then something that is no command, is refused whatever the option says. */
  lemma DamagedLogRefused(kinds: string -> Kind, log: seq<Command>, tail: string, truncate: bool)
    requires Sound(kinds, log) && CommandBad(tail) && (log == [] ==> !("REDIS" <= tail))
    ensures Shrinks(Text()) && Load(Text(), kinds, Render(Text(), log) + tail, truncate) == Failed(WrongFormat)
  {
    var l := AfterSoundLog(kinds, log, tail, truncate);
    ScanExactly(tail, BadFormat);
  }

  /** And so is a command that there is not, whatever follows it. */
  lemma UnknownCommandRefused(kinds: string -> Kind, log: seq<Command>, c: Command, rest: string, truncate: bool)
    requires Sound(kinds, log) && Encodable(c) && kinds(c[0]).Unknown?
    ensures Shrinks(Text())
    ensures Load(Text(), kinds, Render(Text(), log) + (Encode(c) + rest), truncate) == Failed(UnknownCommand)
  {
    assert (Encode(c) + rest)[0] == '*';
    var l := AfterSoundLog(kinds, log, Encode(c) + rest, truncate);
    ScanEncoded(c, rest);
  }

  // Three kinds of damage: no star, no positive count, and an argument without its mark.
  lemma NoStarIsBad(tail: string)
    requires tail != "" && tail[0] != '*'
    ensures CommandBad(tail)
  {
  }

  lemma NoCountIsBad(digits: string, rest: string)
    requires 0 < |digits| <= LINE - 3 && digits[0] != '\0' && '\n' !in digits && Atoi(digits + "\r\n") < 1
    ensures CommandBad("*" + digits + "\r\n" + rest)
  {
    var s, line := "*" + digits + "\r\n" + rest, "*" + digits + "\r\n";
    assert line <= s && line[1..] == digits + "\r\n";
    assert forall i | 1 <= i <= |digits| :: line[i] == digits[i - 1];
    assert Takes(s, line);
    assert Counts(s, line, Atoi(line[1..]));
  }

  lemma UnmarkedArgumentIsBad(n: nat, args: Command, rest: string)
    requires |args| < n <= INT_MAX && (forall i | 0 <= i < |args| :: |args[i]| <= LONG_MAX)
    requires rest != "" && rest[0] != '$'
    ensures CommandBad(Header('*', n) + (EncodeArgs(args) + rest))
  {
    var h, more := Header('*', n), EncodeArgs(args) + rest;
    ReadHeader('*', n, more);
    var s := h + more;
    FirstLine(s, h);
    assert s[..|h|] == h && s[|h|..] == more && h[1..] == s[1..|h|] && h[1] == Decimal(n)[0];
    assert Counts(s, h, n);
    ScanEncodedArgs(args, rest);
    ScanArgsExactly(more, |args|, Complete(args, rest));
    assert Fewer(more, n, rest) && Halts(rest, BadFormat);
    assert HaltsWithin(s[|h|..], n, BadFormat);
  }

  /******* A text the server does not write *******/

  // The text of a command of one word, with other characters than a return and a newline at the end.
  function Loose(a: string, end: string): string { Header('*', 1) + (Header('$', |a|) + (a + end)) }

  lemma LooseArgument(a: string, end: string, rest: string)
    requires |a| <= LONG_MAX && |end| == 2
    ensures ScanArgs(Header('$', |a|) + (a + end + rest), 1) == Complete([a], rest)
  {
    var h := Header('$', |a|);
    var s := h + (a + end + rest);
    ReadHeader('$', |a|, a + end + rest);
    assert s[|h|..|h| + |a|] == a && s[|h| + |a| + 2..] == rest;
    ScanArgsStep(s, |h|, a, rest, 1);
    assert ScanArgs(rest, 0) == Complete([], rest) && [a] + [] == [a];
  }

  lemma LooseSplit(a: string, end: string, rest: string)
    ensures Loose(a, end) + rest == Header('*', 1) + (Header('$', |a|) + (a + end + rest))
  {
  }

  lemma LooseReads(a: string, end: string, rest: string)
    requires |a| <= LONG_MAX && |end| == 2
    ensures ScanCommand(Loose(a, end) + rest) == Complete([a], rest)
  {
    var h, more := Header('*', 1), Header('$', |a|) + (a + end + rest);
    LooseSplit(a, end, rest);
    ReadHeader('*', 1, more);
    assert (h + more)[|h|..] == more && (h + more)[1] == h[1] == Decimal(1)[0];
    LooseArgument(a, end, rest);
  }

  lemma LooseIsWritten(a: string, end: string)
    requires |end| == 2 && Loose(a, end) == Encode([a])
    ensures end == "\r\n"
  {
    assert [a][1..] == [];
    assert EncodeArgs([a]) == EncodeArg(a) + "" == EncodeArg(a);
    assert Encode([a]) == Header('*', 1) + EncodeArg(a);
    assert EncodeArg(a) == Header('$', |a|) + (a + "\r\n");
    assert Loose(a, end)[|Header('*', 1)| + |Header('$', |a|)| + |a|..] == end;
    assert Encode([a])[|Header('*', 1)| + |Header('$', |a|)| + |a|..] == "\r\n";
  }

  lemma SameLengthPrefix(a: string, b: string, rest: string)
    requires a + rest == b + rest
    ensures a == b
  {
    assert |a| == |b|;
    assert forall i | 0 <= i < |a| :: a[i] == (a + rest)[i] == (b + rest)[i];
  }

  lemma LooseFirst(a: string, end: string, rest: string, first: Command, more: string)
    requires |a| <= LONG_MAX && |end| == 2 && Encodable(first) && Loose(a, end) + rest == Encode(first) + more
    ensures first == [a] && more == rest
  {
    LooseReads(a, end, rest);
    ScanEncoded(first, more);
  }

  // A text that begins with both ends with a return and a newline.
  lemma LooseBegins(a: string, end: string, x: string, t: string, first: Command, more: string)
    requires |a| <= LONG_MAX && |end| == 2 && Encodable(first) && x == Loose(a, end) && x <= t
    requires t == Encode(first) + more
    ensures end == "\r\n"
  {
    var rest := t[|x|..];
    assert t == x + rest;
    LooseFirst(a, end, rest, first, more);
    SameLengthPrefix(Encode([a]), x, rest);
    LooseIsWritten(a, end);
  }

  lemma LooseNotWritten(a: string, end: string, x: string, log: seq<Command>)
    requires |a| <= LONG_MAX && |end| == 2 && end != "\r\n" && forall i | 0 <= i < |log| :: Encodable(log[i])
    requires x == Loose(a, end) && x != ""
    ensures !(x <= Render(Text(), log))
  {
    if log != [] && x <= Render(Text(), log) {
      LooseBegins(a, end, x, Render(Text(), log), log[0], Render(Text(), log[1..]));
    }
  }

  lemma OneCommandLoads(f: Format, kinds: string -> Kind, file: string, c: Command, truncate: bool)
    requires Shrinks(f) && file != "" && !("REDIS" <= file) && f.scan(file) == Complete(c, "") && |c| >= 1
    requires kinds(c[0]).Other?
    ensures Load(f, kinds, file, truncate) == Loaded([c], |file|)
  {
    LoadStep(f, kinds, file, c, "", |file|, NEW_LOADER, truncate);
    assert [] + [c] == [c];
  }

  /**
   The loader takes more than what the server writes, for one thing any two characters behind an argument. So not
   every file that loads is the text of a log, or the beginning of one.
   */
  lemma LooseTextLoads(kinds: string -> Kind, a: string, end: string, truncate: bool)
    requires |a| <= LONG_MAX && kinds(a).Other? && |end| == 2 && end != "\r\n"
    ensures Shrinks(Text()) && Load(Text(), kinds, Loose(a, end), truncate) == Loaded([[a]], |Loose(a, end)|)
    ensures forall log | Sound(kinds, log) :: !(Loose(a, end) <= Render(Text(), log))
  {
    TextShrinks();
    LooseReads(a, end, "");
    assert Loose(a, end) + "" == Loose(a, end);
    assert Loose(a, end)[0] == '*';
    OneCommandLoads(Text(), kinds, Loose(a, end), [a], truncate);
    forall log | Sound(kinds, log)
      ensures !(Loose(a, end) <= Render(Text(), log))
    {
      LooseNotWritten(a, end, Loose(a, end), log);
    }
  }

  lemma EncodeFirst(a: string, more: Command)
    ensures EncodeArgs([a] + more) == EncodeArg(a) + EncodeArgs(more)
  {
    assert ([a] + more)[1..] == more;
  }

  lemma EncodeThree(a: string, b: string, c: string)
    ensures Encode([a, b, c]) == "*3\r\n" + (EncodeArg(a) + (EncodeArg(b) + (EncodeArg(c) + "")))
  {
    EncodeFirst(c, []);
    EncodeFirst(b, [c]);
    EncodeFirst(a, [b, c]);
    assert [c] + [] == [c] && [b] + [c] == [b, c] && [a] + [b, c] == [a, b, c];
    assert "*" + Decimal(3) + "\r\n" == "*3\r\n";
  }

  lemma ArgSpelled(arg: string, digit: string)
    requires Decimal(|arg|) == digit
    ensures EncodeArg(arg) == "$" + digit + "\r\n" + arg + "\r\n"
  {
  }

  /** The text of a command, spelled out. */
  lemma EncodeSpelled()
    ensures Encode(["SET", "a", "1"]) == "*3\r\n$3\r\nSET\r\n$1\r\na\r\n$1\r\n1\r\n"
  {
    EncodeThree("SET", "a", "1");
    ArgSpelled("SET", "3");
    ArgSpelled("a", "1");
    ArgSpelled("1", "1");
  }
}

/** The loader as it runs: a cursor over the file. */
module AofReplay {
  import opened Options
  import opened AofText
  import opened AofGrammar
  import opened AofLoader
  import opened AofWholeFiles
  import opened Decimals

  datatype Bulk = Got(arg: string, left: string) | Stop(why: Scan)

  // One argument; the cursor is what is left of the file, and n arguments are still to come.
  method ReadArgument(s: string, ghost n: nat) returns (r: Bulk)
    requires n >= 1
    ensures match r
      case Got(arg, left) => ScanArgs(s, n) == Prepend(arg, ScanArgs(left, n - 1))
      case Stop(why) => ScanArgs(s, n) == why && !why.Complete?
  {
    if s == "" {
      return Stop(CutShort);
    }
    var k := LineEnd(s, LINE);
    if s[0] != '$' {
      return Stop(BadFormat);
    }
    var len := Strtol(s[1..k]);
    if len < 0 {
      return Stop(NoMemory);
    }
    if len + 2 > |s| - k {
      return Stop(CutShort);
    }
    ScanArgsStep(s, k, s[k..k + len], s[k + len + 2..], n);
    return Got(s[k..k + len], s[k + len + 2..]);
  }

  method ReadArguments(s: string, argc: nat) returns (r: Scan)
    ensures r == ScanArgs(s, argc)
  {
    var left := s;
    var argv: Command := [];
    PrependNothing(ScanArgs(s, argc));
    for j := 0 to argc
      invariant PrependAll(argv, ScanArgs(left, argc - j)) == ScanArgs(s, argc)
    {
      var next := ReadArgument(left, argc - j);
      if next.Stop? {
        return next.why;
      }
      PrependTwice(argv, next.arg, ScanArgs(next.left, argc - j - 1));
      argv := argv + [next.arg];
      left := next.left;
    }
    return Complete(argv, left);
  }

  lemma PrependTwice(argv: Command, arg: string, r: Scan)
    ensures PrependAll(argv, Prepend(arg, r)) == PrependAll(argv + [arg], r)
  {
    if r.Complete? {
      assert argv + ([arg] + r.args) == (argv + [arg]) + r.args;
    }
  }

  method ReadCommand(s: string) returns (r: Scan)
    ensures r == ScanCommand(s)
  {
    if s == "" {
      return End;
    }
    var k := LineEnd(s, LINE);
    if s[0] != '*' {
      return BadFormat;
    }
    if k == 1 || s[1] == '\0' {
      return if k == |s| && k < LINE && s[k - 1] != '\n' then CutShort else Unreadable;
    }
    var argc := Atoi(s[1..k]);
    if argc < 1 {
      return BadFormat;
    }
    r := ReadArguments(s[k..], argc);
  }

  method ReplayCommands(f: Format, kinds: string -> Kind, file: string, truncate: bool) returns (o: Outcome)
    requires Shrinks(f)
    ensures o == LoadRest(f, kinds, file, |file|, NEW_LOADER, truncate)
    ensures f == Text() && file != "" && !("REDIS" <= file) ==> Ends(kinds, file, truncate, o)
  {
    var l, left := NEW_LOADER, file;
    while true
      invariant |left| <= |file|
      invariant LoadRest(f, kinds, left, |file|, l, truncate) == LoadRest(f, kinds, file, |file|, NEW_LOADER, truncate)
      decreases |left|
    {
      var scan := f.scan(left);
      match scan {
        case End =>
          o := if l.queue.Some? then CutOff(l, l.beforeMulti, truncate) else Loaded(l.executed, |file|);
          break;
        case Complete(args, more) =>
          var kind := kinds(args[0]);
          if kind.Unknown? {
            o := Failed(UnknownCommand);
            break;
          }
          l := Obey(l, args, kind, |file| - |more|);
          left := more;
        case CutShort => o := CutOff(l, l.validUpTo, truncate); break;
        case BadFormat => o := Failed(WrongFormat); break;
        case Unreadable => o := Failed(ReadFailure); break;
        case NoMemory => o := Failed(OutOfMemory); break;
      }
    }
    if f == Text() && file != "" && !("REDIS" <= file) {
      LoadExactly(kinds, file, truncate, o);
    }
  }

  method LoadAppendOnlyFile(kinds: string -> Kind, file: string, truncate: bool) returns (o: Outcome)
    ensures Shrinks(Text()) && o == Load(Text(), kinds, file, truncate)
    ensures file == "" ==> o == Failed(Empty)
    ensures "REDIS" <= file ==> o == Failed(Preamble)
    ensures file != "" && !("REDIS" <= file) ==> Ends(kinds, file, truncate, o)
  {
    TextShrinks();
    if file == "" {
      return Failed(Empty);
    }
    if "REDIS" <= file {
      return Failed(Preamble);
    }
    o := ReplayCommands(Text(), kinds, file, truncate);
  }
}
