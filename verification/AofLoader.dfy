/**
 Replaying the append-only file: the whole file, and a file cut at any byte, with the
 aof-load-truncated option on or off.
 */
module AofLoader {
  import opened Options
  import opened AofText
  import opened Decimals

  // How commands are written and read back. What follows needs no more than these laws, which
  // the format of the append-only file meets.
  datatype Format = Format(encode: Command -> string, scan: string -> Scan)

  ghost predicate Shrinks(f: Format) {
    && f.scan("") == End
    && forall s :: f.scan(s).Complete? ==> |f.scan(s).rest| < |s| && |f.scan(s).args| >= 1
  }

  ghost predicate Inverts(f: Format) {
    Shrinks(f) && forall c, rest | Encodable(c) :: f.scan(f.encode(c) + rest) == Complete(c, rest)
  }

  ghost predicate Starred(f: Format) {
    forall c :: f.encode(c) != "" && f.encode(c)[0] == '*'
  }

  ghost predicate NoticesCuts(f: Format) {
    forall c, k | Encodable(c) && 0 < k < |f.encode(c)| :: f.scan(f.encode(c)[..k]) == CutShort
  }

  function Text(): Format { Format(Encode, ScanCommand) }

  lemma TextShrinks()
    ensures Shrinks(Text())
  {
  }

  lemma TextLaws()
    ensures Inverts(Text()) && NoticesCuts(Text()) && Starred(Text())
  {
    forall c, rest | Encodable(c) ensures Text().scan(Text().encode(c) + rest) == Complete(c, rest) {
      ScanEncoded(c, rest);
    }
    forall c, k | Encodable(c) && 0 < k < |Encode(c)| ensures Text().scan(Text().encode(c)[..k]) == CutShort {
      ScanCut(c, k);
    }
  }

  // What looking up a command's name finds.
  datatype Kind = Unknown | Multi | Exec | Other

  // The fake client and the two offsets the loader keeps.
  datatype Loader = Loader(
    executed: seq<Command>,
    queue: Option<seq<Command>>,   // the open transaction, if any
    validUpTo: nat,
    beforeMulti: nat)

  const NEW_LOADER := Loader([], None, 0, 0)

  datatype Error = Empty | Preamble | WrongFormat | UnexpectedEnd | ReadFailure | OutOfMemory | UnknownCommand

  // Loaded gives the commands that took effect and the size of the file afterwards.
  datatype Outcome = Loaded(executed: seq<Command>, size: nat) | Failed(error: Error)

  // One command; pos is the offset right behind it. Inside a transaction MULTI is queued like any
  // other command, and does nothing when EXEC runs it.
  function Obey(l: Loader, c: Command, kind: Kind, pos: nat): Loader {
    var before := if kind.Multi? then l.validUpTo else l.beforeMulti;
    match l.queue
    case Some(queued) =>
      if kind.Exec? then Loader(l.executed + queued, None, pos, before)
      else Loader(l.executed, Some(if kind.Multi? then queued else queued + [c]), pos, before)
    case None =>
      match kind
      case Multi => Loader(l.executed, Some([]), pos, before)
      case Other => Loader(l.executed + [c], None, pos, before)
      case _ => Loader(l.executed, None, pos, before)
  }

  function CutOff(l: Loader, size: nat, truncate: bool): Outcome {
    if truncate then Loaded(l.executed, size) else Failed(UnexpectedEnd)
  }

  function LoadRest(f: Format, kinds: string -> Kind, rest: string, size: nat, l: Loader, truncate: bool): Outcome
    requires Shrinks(f) && |rest| <= size
    decreases |rest|
  {
    match f.scan(rest)
    case End => if l.queue.Some? then CutOff(l, l.beforeMulti, truncate) else Loaded(l.executed, size)
    case Complete(args, more) =>
      if kinds(args[0]).Unknown? then Failed(UnknownCommand)
      else LoadRest(f, kinds, more, size, Obey(l, args, kinds(args[0]), size - |more|), truncate)
    case CutShort => CutOff(l, l.validUpTo, truncate)
    case BadFormat => Failed(WrongFormat)
    case Unreadable => Failed(ReadFailure)
    case NoMemory => Failed(OutOfMemory)
  }

  // The RDB preamble is handed to another loader.
  function Load(f: Format, kinds: string -> Kind, file: string, truncate: bool): Outcome
    requires Shrinks(f)
  {
    if file == "" then Failed(Empty)
    else if "REDIS" <= file then Failed(Preamble)
    else LoadRest(f, kinds, file, |file|, NEW_LOADER, truncate)
  }

  /******* Logs *******/

  function Render(f: Format, log: seq<Command>): string {
    if log == [] then "" else f.encode(log[0]) + Render(f, log[1..])
  }

  ghost predicate Sound(kinds: string -> Kind, log: seq<Command>) {
    forall i | 0 <= i < |log| :: Encodable(log[i]) && !kinds(log[i][0]).Unknown?
  }

  function ObeyAll(f: Format, kinds: string -> Kind, l: Loader, log: seq<Command>, pos: nat): Loader
    requires forall i | 0 <= i < |log| :: |log[i]| >= 1
    decreases |log|
  {
    if log == [] then l
    else
      var next := pos + |f.encode(log[0])|;
      ObeyAll(f, kinds, Obey(l, log[0], kinds(log[0][0]), next), log[1..], next)
  }

  lemma LoadStep(f: Format, kinds: string -> Kind, s: string, args: Command, more: string, size: nat, l: Loader,
                 truncate: bool)
    requires Shrinks(f) && |more| < |s| <= size && |args| >= 1 && !kinds(args[0]).Unknown?
    requires f.scan(s) == Complete(args, more)
    ensures LoadRest(f, kinds, s, size, l, truncate)
         == LoadRest(f, kinds, more, size, Obey(l, args, kinds(args[0]), size - |more|), truncate)
  {
  }

  lemma {:induction false} LoadLog(f: Format, kinds: string -> Kind, log: seq<Command>, tail: string, l: Loader,
                                   pos: nat, truncate: bool)
    requires Inverts(f) && Sound(kinds, log)
    ensures LoadRest(f, kinds, Render(f, log) + tail, pos + |Render(f, log)| + |tail|, l, truncate)
         == LoadRest(f, kinds, tail, pos + |Render(f, log)| + |tail|, ObeyAll(f, kinds, l, log, pos), truncate)
    decreases |log|
  {
    if log == [] {
      assert "" + tail == tail;
    } else {
      var c, e, rest := log[0], f.encode(log[0]), Render(f, log[1..]);
      Associative(e, rest, tail);
      assert f.scan(e + (rest + tail)) == Complete(c, rest + tail);
      LoadStep(f, kinds, e + (rest + tail), c, rest + tail, pos + |Render(f, log)| + |tail|, l, truncate);
      LoadLog(f, kinds, log[1..], tail, Obey(l, c, kinds(c[0]), pos + |e|), pos + |e|, truncate);
    }
  }

  lemma {:induction false} RenderMore(f: Format, a: seq<Command>, b: seq<Command>)
    ensures Render(f, a + b) == Render(f, a) + Render(f, b)
  {
    if a == [] {
      assert a + b == b;
    } else {
      assert (a + b)[1..] == a[1..] + b;
      RenderMore(f, a[1..], b);
      Associative(f.encode(a[0]), Render(f, a[1..]), Render(f, b));
    }
  }

  lemma {:induction false} ObeyMore(f: Format, kinds: string -> Kind, l: Loader, a: seq<Command>, b: seq<Command>,
                                    pos: nat)
    requires (forall i | 0 <= i < |a| :: |a[i]| >= 1) && (forall i | 0 <= i < |b| :: |b[i]| >= 1)
    ensures forall i | 0 <= i < |a + b| :: |(a + b)[i]| >= 1
    ensures ObeyAll(f, kinds, l, a + b, pos) == ObeyAll(f, kinds, ObeyAll(f, kinds, l, a, pos), b, pos + |Render(f, a)|)
    decreases |a|
  {
    if a == [] {
      assert a + b == b;
    } else {
      var next := pos + |f.encode(a[0])|;
      assert (a + b)[1..] == a[1..] + b;
      ObeyMore(f, kinds, Obey(l, a[0], kinds(a[0][0]), next), a[1..], b, next);
    }
  }
}
