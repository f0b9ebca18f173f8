/**
 What a restart recovers from a log of single commands and MULTI ... EXEC transactions that was
 cut at an arbitrary byte, with aof-load-truncated on.
 */
module AofRecovery {
  import opened Options
  import opened AofText
  import opened AofLoader

  datatype Unit = Single(c: Command) | Transaction(cs: seq<Command>)

  function Lines(u: Unit): seq<Command> {
    match u
    case Single(c) => [c]
    case Transaction(cs) => [["MULTI"]] + cs + [["EXEC"]]
  }

  function AllLines(us: seq<Unit>): seq<Command> {
    if us == [] then [] else Lines(us[0]) + AllLines(us[1..])
  }

  function EffectOf(u: Unit): seq<Command> { if u.Single? then [u.c] else u.cs }

  function Effects(us: seq<Unit>): seq<Command> {
    if us == [] then [] else EffectOf(us[0]) + Effects(us[1..])
  }

  // Ordinary commands: written by the server, and not MULTI or EXEC.
  ghost predicate Plain(kinds: string -> Kind, cs: seq<Command>) {
    forall i | 0 <= i < |cs| :: Encodable(cs[i]) && kinds(cs[i][0]).Other?
  }

  ghost predicate PlainUnit(kinds: string -> Kind, u: Unit) {
    match u
    case Single(c) => Plain(kinds, [c])
    case Transaction(cs) => Plain(kinds, cs)
  }

  ghost predicate PlainLog(kinds: string -> Kind, us: seq<Unit>) {
    && kinds("MULTI").Multi? && kinds("EXEC").Exec?
    && forall i | 0 <= i < |us| :: PlainUnit(kinds, us[i])
  }

  // The loader between two units, and inside a transaction that began at `start`.
  ghost predicate Between(l: Loader, executed: seq<Command>, pos: nat) {
    l.executed == executed && l.queue.None? && l.validUpTo == pos
  }

  ghost predicate Inside(l: Loader, executed: seq<Command>, start: nat, queued: seq<Command>, pos: nat) {
    l.executed == executed && l.queue == Some(queued) && l.validUpTo == pos && l.beforeMulti == start
  }

  lemma {:induction false} Queues(f: Format, kinds: string -> Kind, l: Loader, cs: seq<Command>,
                                  executed: seq<Command>, start: nat, queued: seq<Command>, pos: nat)
    requires Plain(kinds, cs) && Inside(l, executed, start, queued, pos)
    ensures Inside(ObeyAll(f, kinds, l, cs, pos), executed, start, queued + cs, pos + |Render(f, cs)|)
    decreases |cs|
  {
    if cs == [] {
      assert queued + cs == queued;
    } else {
      var next := pos + |f.encode(cs[0])|;
      assert queued + cs == (queued + [cs[0]]) + cs[1..];
      Queues(f, kinds, Obey(l, cs[0], kinds(cs[0][0]), next), cs[1..], executed, start, queued + [cs[0]], next);
    }
  }

  lemma OpensTransaction(f: Format, kinds: string -> Kind, l: Loader, cs: seq<Command>, executed: seq<Command>,
                         pos: nat)
    requires kinds("MULTI").Multi? && Plain(kinds, cs) && Between(l, executed, pos)
    ensures Inside(ObeyAll(f, kinds, l, [["MULTI"]] + cs, pos), executed, pos, cs, pos + |Render(f, [["MULTI"]] + cs)|)
  {
    var log, next := [["MULTI"]] + cs, pos + |f.encode(["MULTI"])|;
    assert log[0] == ["MULTI"] && log[1..] == cs && [] + cs == cs;
    Queues(f, kinds, Obey(l, ["MULTI"], Multi, next), cs, executed, pos, [], next);
  }

  lemma ExecCloses(f: Format, kinds: string -> Kind, l: Loader, executed: seq<Command>, start: nat,
                   queued: seq<Command>, pos: nat)
    requires kinds("EXEC").Exec? && Inside(l, executed, start, queued, pos)
    ensures Between(ObeyAll(f, kinds, l, [["EXEC"]], pos), executed + queued, pos + |Render(f, [["EXEC"]])|)
  {
    assert [["EXEC"]][1..] == [] && Render(f, [["EXEC"]]) == f.encode(["EXEC"]) + "";
  }

  lemma ClosesAfter(f: Format, kinds: string -> Kind, l: Loader, open: seq<Command>,
                    executed: seq<Command>, start: nat, queued: seq<Command>, pos: nat)
    requires kinds("EXEC").Exec? && forall i | 0 <= i < |open| :: |open[i]| >= 1
    requires Inside(ObeyAll(f, kinds, l, open, pos), executed, start, queued, pos + |Render(f, open)|)
    ensures forall i | 0 <= i < |open + [["EXEC"]]| :: |(open + [["EXEC"]])[i]| >= 1
    ensures Between(ObeyAll(f, kinds, l, open + [["EXEC"]], pos), executed + queued,
                    pos + |Render(f, open + [["EXEC"]])|)
  {
    ExecCloses(f, kinds, ObeyAll(f, kinds, l, open, pos), executed, start, queued, pos + |Render(f, open)|);
    ObeyMore(f, kinds, l, open, [["EXEC"]], pos);
    RenderMore(f, open, [["EXEC"]]);
  }

  // The EXEC at the end of a transaction.
  lemma Closes(f: Format, kinds: string -> Kind, l: Loader, cs: seq<Command>,
               executed: seq<Command>, start: nat, queued: seq<Command>, pos: nat)
    requires kinds("MULTI").Multi? && kinds("EXEC").Exec? && Plain(kinds, cs)
    requires Inside(ObeyAll(f, kinds, l, [["MULTI"]] + cs, pos), executed, start, queued,
                    pos + |Render(f, [["MULTI"]] + cs)|)
    ensures Sound(kinds, Lines(Transaction(cs)))
    ensures Between(ObeyAll(f, kinds, l, Lines(Transaction(cs)), pos), executed + queued,
                    pos + |Render(f, Lines(Transaction(cs)))|)
  {
    ClosesAfter(f, kinds, l, [["MULTI"]] + cs, executed, start, queued, pos);
  }

  lemma WholeUnit(f: Format, kinds: string -> Kind, l: Loader, u: Unit, executed: seq<Command>, pos: nat)
    requires kinds("MULTI").Multi? && kinds("EXEC").Exec? && PlainUnit(kinds, u) && Between(l, executed, pos)
    ensures Sound(kinds, Lines(u))
    ensures Between(ObeyAll(f, kinds, l, Lines(u), pos), executed + EffectOf(u), pos + |Render(f, Lines(u))|)
  {
    match u {
      case Single(c) =>
      case Transaction(cs) =>
        OpensTransaction(f, kinds, l, cs, executed, pos);
        Closes(f, kinds, l, cs, executed, pos, cs, pos);
    }
  }

  // A stretch of the log that takes the loader from between units to between units, with effect e.
  ghost predicate Whole(f: Format, kinds: string -> Kind, a: seq<Command>, e: seq<Command>) {
    && Sound(kinds, a)
    && forall l: Loader, executed: seq<Command>, pos: nat | Between(l, executed, pos) ::
         Between(ObeyAll(f, kinds, l, a, pos), executed + e, pos + |Render(f, a)|)
  }

  lemma WholeConcat(f: Format, kinds: string -> Kind, a: seq<Command>, ea: seq<Command>, b: seq<Command>,
                    eb: seq<Command>)
    requires Whole(f, kinds, a, ea) && Whole(f, kinds, b, eb)
    ensures Whole(f, kinds, a + b, ea + eb)
  {
    forall l: Loader, executed: seq<Command>, pos: nat | Between(l, executed, pos)
      ensures Between(ObeyAll(f, kinds, l, a + b, pos), executed + (ea + eb), pos + |Render(f, a + b)|)
    {
      var l' := ObeyAll(f, kinds, l, a, pos);
      assert Between(l', executed + ea, pos + |Render(f, a)|);
      assert (executed + ea) + eb == executed + (ea + eb);
      ObeyMore(f, kinds, l, a, b, pos);
      RenderMore(f, a, b);
    }
  }

  lemma {:induction false} WholeUnits(f: Format, kinds: string -> Kind, us: seq<Unit>)
    requires PlainLog(kinds, us)
    ensures Whole(f, kinds, AllLines(us), Effects(us))
  {
    if us == [] {
      assert forall executed: seq<Command> :: executed + [] == executed;
    } else {
      assert PlainUnit(kinds, us[0]);
      UnitIsWhole(f, kinds, us[0]);
      WholeUnits(f, kinds, us[1..]);
      WholeConcat(f, kinds, Lines(us[0]), EffectOf(us[0]), AllLines(us[1..]), Effects(us[1..]));
    }
  }

  lemma UnitIsWhole(f: Format, kinds: string -> Kind, u: Unit)
    requires kinds("MULTI").Multi? && kinds("EXEC").Exec? && PlainUnit(kinds, u)
    ensures Whole(f, kinds, Lines(u), EffectOf(u))
  {
    assert Sound(kinds, Lines(u));
    forall l: Loader, executed: seq<Command>, pos: nat | Between(l, executed, pos)
      ensures Between(ObeyAll(f, kinds, l, Lines(u), pos), executed + EffectOf(u), pos + |Render(f, Lines(u))|)
    {
      WholeUnit(f, kinds, l, u, executed, pos);
    }
  }

  /******* Cut files *******/

  ghost predicate Lawful(f: Format) { Inverts(f) && NoticesCuts(f) && Starred(f) }

  // The units us, then j whole lines of u, then p bytes of its next line.
  function CutFile(f: Format, us: seq<Unit>, u: Unit, j: nat, p: nat): string
    requires j < |Lines(u)| && p <= |f.encode(Lines(u)[j])|
  {
    Render(f, AllLines(us) + Lines(u)[..j]) + f.encode(Lines(u)[j])[..p]
  }

  // Where the file ends after loading: before the transaction when it was cut between two of its
  // lines, but behind its last whole line when it was cut inside one.
  function Kept(f: Format, us: seq<Unit>, u: Unit, j: nat, p: nat): nat
    requires j <= |Lines(u)|
  {
    if p == 0 then |Render(f, AllLines(us))| else |Render(f, AllLines(us) + Lines(u)[..j])|
  }

  lemma StartsWithStar(f: Format, log: seq<Command>, tail: string)
    requires Starred(f) && log != []
    ensures Render(f, log) + tail != "" && (Render(f, log) + tail)[0] == '*'
  {
  }

  lemma CutFileStarts(f: Format, us: seq<Unit>, u: Unit, j: nat, p: nat)
    requires Starred(f) && j < |Lines(u)| && p <= |f.encode(Lines(u)[j])| && CutFile(f, us, u, j, p) != ""
    ensures CutFile(f, us, u, j, p)[0] == '*'
  {
    var log := AllLines(us) + Lines(u)[..j];
    if log != [] {
      StartsWithStar(f, log, f.encode(Lines(u)[j])[..p]);
    }
  }

  // A stretch that leaves the loader inside a transaction begun with its first line, if it has any.
  ghost predicate Opens(f: Format, kinds: string -> Kind, open: seq<Command>) {
    && Sound(kinds, open)
    && (open == [] || forall l: Loader, executed: seq<Command>, pos: nat | Between(l, executed, pos) ::
         WithinSome(ObeyAll(f, kinds, l, open, pos), executed, pos, pos + |Render(f, open)|))
  }

  ghost predicate WithinSome(l: Loader, executed: seq<Command>, start: nat, pos: nat) {
    l.queue.Some? && Inside(l, executed, start, l.queue.value, pos)
  }

  lemma LinesOpen(f: Format, kinds: string -> Kind, u: Unit, j: nat)
    requires kinds("MULTI").Multi? && kinds("EXEC").Exec? && PlainUnit(kinds, u) && j < |Lines(u)|
    ensures Opens(f, kinds, Lines(u)[..j]) && Encodable(Lines(u)[j])
  {
    assert Sound(kinds, Lines(u));
    if j > 0 {
      var open := Lines(u)[..j];
      assert open == [["MULTI"]] + u.cs[..j - 1];
      forall l: Loader, executed: seq<Command>, pos: nat | Between(l, executed, pos)
        ensures WithinSome(ObeyAll(f, kinds, l, open, pos), executed, pos, pos + |Render(f, open)|)
      {
        OpensTransaction(f, kinds, l, u.cs[..j - 1], executed, pos);
      }
    }
  }

  lemma WholeFrom(f: Format, kinds: string -> Kind, a: seq<Command>, e: seq<Command>, l: Loader,
                  executed: seq<Command>, after: seq<Command>, pos: nat)
    requires Whole(f, kinds, a, e) && Between(l, executed, pos) && after == executed + e
    ensures Between(ObeyAll(f, kinds, l, a, pos), after, pos + |Render(f, a)|)
  {
  }

  lemma WholeFromStart(f: Format, kinds: string -> Kind, a: seq<Command>, e: seq<Command>)
    requires Whole(f, kinds, a, e)
    ensures Between(ObeyAll(f, kinds, NEW_LOADER, a, 0), e, |Render(f, a)|)
  {
    assert [] + e == e;
    WholeFrom(f, kinds, a, e, NEW_LOADER, [], e, 0);
  }

  lemma OpensFrom(f: Format, kinds: string -> Kind, l: Loader, open: seq<Command>, e: seq<Command>, pos: nat)
    requires Opens(f, kinds, open) && open != [] && Between(l, e, pos)
    ensures WithinSome(ObeyAll(f, kinds, l, open, pos), e, pos, pos + |Render(f, open)|)
  {
  }

  lemma AfterLines(f: Format, kinds: string -> Kind, a: seq<Command>, e: seq<Command>, open: seq<Command>)
    returns (l: Loader)
    requires Whole(f, kinds, a, e) && Opens(f, kinds, open)
    ensures Sound(kinds, a + open) && l == ObeyAll(f, kinds, NEW_LOADER, a + open, 0)
    ensures if open == [] then Between(l, e, |Render(f, a)|)
            else WithinSome(l, e, |Render(f, a)|, |Render(f, a + open)|)
  {
    WholeFromStart(f, kinds, a, e);
    if open == [] {
      assert a + open == a;
      l := ObeyAll(f, kinds, NEW_LOADER, a, 0);
    } else {
      OpensFrom(f, kinds, ObeyAll(f, kinds, NEW_LOADER, a, 0), open, e, |Render(f, a)|);
      ObeyMore(f, kinds, NEW_LOADER, a, open, 0);
      RenderMore(f, a, open);
      l := ObeyAll(f, kinds, NEW_LOADER, a + open, 0);
    }
  }

  lemma CutLoads(f: Format, kinds: string -> Kind, a: seq<Command>, e: seq<Command>, open: seq<Command>, tail: string,
                 truncate: bool)
    requires Inverts(f) && Whole(f, kinds, a, e) && Opens(f, kinds, open) && f.scan(tail) in {End, CutShort}
    ensures var r := LoadRest(f, kinds, Render(f, a + open) + tail, |Render(f, a + open) + tail|, NEW_LOADER, truncate);
      if f.scan(tail).End? && open == [] then r == Loaded(e, |Render(f, a + open) + tail|)
      else if !truncate then r == Failed(UnexpectedEnd)
      else r == Loaded(e, if f.scan(tail).End? || open == [] then |Render(f, a)| else |Render(f, a + open)|)
  {
    var l := AfterLines(f, kinds, a, e, open);
    LoadLog(f, kinds, a + open, tail, NEW_LOADER, 0, truncate);
  }

  /**
   A file cut at any byte loads, and what takes effect is exactly the units that are whole: a
   transaction takes effect as a whole or not at all.
   */
  lemma CutFileLoads(f: Format, kinds: string -> Kind, us: seq<Unit>, u: Unit, j: nat, p: nat, truncate: bool)
    requires Lawful(f) && PlainLog(kinds, us) && PlainUnit(kinds, u)
    requires j < |Lines(u)| && p < |f.encode(Lines(u)[j])| && CutFile(f, us, u, j, p) != ""
    ensures Load(f, kinds, CutFile(f, us, u, j, p), truncate)
         == if truncate || (j == 0 && p == 0) then Loaded(Effects(us), Kept(f, us, u, j, p)) else Failed(UnexpectedEnd)
  {
    var a, open, tail := AllLines(us), Lines(u)[..j], f.encode(Lines(u)[j])[..p];
    CutFileStarts(f, us, u, j, p);
    WholeUnits(f, kinds, us);
    LinesOpen(f, kinds, u, j);
    assert f.scan(tail) == if p == 0 then End else CutShort;
    assert j == 0 ==> a + open == a;
    assert p == 0 ==> Render(f, a + open) + tail == Render(f, a + open);
    CutLoads(f, kinds, a, Effects(us), open, tail, truncate);
  }

  /** The loader inverts the writer: a complete log takes effect completely, and the file keeps its size. */
  lemma WholeFileLoads(f: Format, kinds: string -> Kind, us: seq<Unit>, truncate: bool)
    requires Lawful(f) && PlainLog(kinds, us) && us != []
    ensures Load(f, kinds, Render(f, AllLines(us)), truncate) == Loaded(Effects(us), |Render(f, AllLines(us))|)
  {
    var a := AllLines(us);
    WholeUnits(f, kinds, us);
    assert a + [] == a && Render(f, a) + "" == Render(f, a);
    CutLoads(f, kinds, a, Effects(us), [], "", truncate);
    StartsWithStar(f, a, "");
  }

  lemma {:induction false} CutOfLines(f: Format, log: seq<Command>, k: nat) returns (j: nat, p: nat)
    requires k < |Render(f, log)|
    ensures j < |log| && p < |f.encode(log[j])| && Render(f, log)[..k] == Render(f, log[..j]) + f.encode(log[j])[..p]
  {
    var e := f.encode(log[0]);
    if k < |e| {
      j, p := 0, k;
      assert log[..0] == [];
    } else {
      j, p := CutOfLines(f, log[1..], k - |e|);
      j := j + 1;
      assert log[..j][1..] == log[1..][..j - 1];
      Associative(e, Render(f, log[1..][..j - 1]), f.encode(log[j])[..p]);
    }
  }

  lemma CutFileShift(f: Format, first: Unit, us: seq<Unit>, u: Unit, j: nat, p: nat)
    requires j < |Lines(u)| && p <= |f.encode(Lines(u)[j])|
    ensures CutFile(f, [first] + us, u, j, p) == Render(f, Lines(first)) + CutFile(f, us, u, j, p)
  {
    var x, before, tail := Lines(first), AllLines(us) + Lines(u)[..j], f.encode(Lines(u)[j])[..p];
    assert ([first] + us)[1..] == us;
    assert AllLines([first] + us) + Lines(u)[..j] == x + before;
    RenderMore(f, x, before);
    Associative(Render(f, x), Render(f, before), tail);
  }

  lemma PrefixOfSum(x: string, y: string, k: nat)
    requires k <= |x + y|
    ensures (x + y)[..k] == if k < |x| then x[..k] else x + y[..k - |x|]
  {
  }

  lemma CutInFirst(f: Format, u: Unit, j: nat, p: nat)
    requires j < |Lines(u)| && p <= |f.encode(Lines(u)[j])|
    ensures CutFile(f, [], u, j, p) == Render(f, Lines(u)[..j]) + f.encode(Lines(u)[j])[..p]
  {
    assert AllLines([]) + Lines(u)[..j] == Lines(u)[..j];
  }

  /** Every proper prefix of a log is one of the cut files. */
  lemma {:induction false} CutOfLog(f: Format, us: seq<Unit>, k: nat) returns (i: nat, j: nat, p: nat)
    requires k < |Render(f, AllLines(us))|
    ensures i < |us| && j < |Lines(us[i])| && p < |f.encode(Lines(us[i])[j])|
    ensures Render(f, AllLines(us))[..k] == CutFile(f, us[..i], us[i], j, p)
  {
    var first := Lines(us[0]);
    RenderMore(f, first, AllLines(us[1..]));
    PrefixOfSum(Render(f, first), Render(f, AllLines(us[1..])), k);
    var size := |Render(f, first)|;
    if k < size {
      i := 0;
      j, p := CutOfLines(f, first, k);
      CutInFirst(f, us[0], j, p);
      assert us[..0] == [];
    } else {
      var before;
      before, j, p := CutOfLog(f, us[1..], k - size);
      i := before + 1;
      CutFileShift(f, us[0], us[1..i], us[i], j, p);
      assert us[1..][..before] == us[1..i] && us[1..][before] == us[i];
      assert [us[0]] + us[1..i] == us[..i];
    }
  }

  /******* After the restart *******/

  // The cut fell inside a line of a transaction whose MULTI is whole.
  predicate InsideTransaction(j: nat, p: nat) { j > 0 && p > 0 }

  function KeptFile(f: Format, us: seq<Unit>, u: Unit, j: nat, p: nat): string
    requires j <= |Lines(u)|
  {
    if p == 0 then Render(f, AllLines(us)) else Render(f, AllLines(us) + Lines(u)[..j])
  }

  lemma KeptIsPrefix(f: Format, us: seq<Unit>, u: Unit, j: nat, p: nat)
    requires j < |Lines(u)| && p <= |f.encode(Lines(u)[j])|
    ensures Kept(f, us, u, j, p) <= |CutFile(f, us, u, j, p)|
    ensures KeptFile(f, us, u, j, p) == CutFile(f, us, u, j, p)[..Kept(f, us, u, j, p)]
  {
    RenderMore(f, AllLines(us), Lines(u)[..j]);
  }

  predicate HasTransaction(us: seq<Unit>) { exists i :: 0 <= i < |us| && us[i].Transaction? }

  // The whole commands of a transaction of which j lines are left.
  function Torn(u: Unit, j: nat): seq<Command>
    requires j <= |Lines(u)|
  {
    if u.Transaction? && 0 < j <= |u.cs| + 1 then u.cs[..j - 1] else []
  }

  // MULTI inside an open transaction moves its start and keeps its queue.
  lemma MeetsMulti(l: Loader, executed: seq<Command>, start: nat, queued: seq<Command>, pos: nat, next: nat)
    requires Inside(l, executed, start, queued, pos)
    ensures Inside(Obey(l, ["MULTI"], Multi, next), executed, pos, queued, next)
  {
  }

  lemma GoesOnQueueing(f: Format, kinds: string -> Kind, l: Loader, cs: seq<Command>,
                       executed: seq<Command>, start: nat, queued: seq<Command>, pos: nat)
    requires kinds("MULTI").Multi? && Plain(kinds, cs) && Inside(l, executed, start, queued, pos)
    ensures Inside(ObeyAll(f, kinds, l, [["MULTI"]] + cs, pos), executed, pos, queued + cs,
                   pos + |Render(f, [["MULTI"]] + cs)|)
  {
    var log, next := [["MULTI"]] + cs, pos + |f.encode(["MULTI"])|;
    assert log[0] == ["MULTI"] && log[1..] == cs;
    MeetsMulti(l, executed, start, queued, pos, next);
    Queues(f, kinds, Obey(l, ["MULTI"], Multi, next), cs, executed, pos, queued, next);
  }

  // A whole transaction that the loader meets inside an open one closes that one.
  lemma ClosesOpen(f: Format, kinds: string -> Kind, l: Loader, cs: seq<Command>,
                   executed: seq<Command>, start: nat, queued: seq<Command>, pos: nat)
    requires kinds("MULTI").Multi? && kinds("EXEC").Exec? && Plain(kinds, cs)
    requires Inside(l, executed, start, queued, pos)
    ensures Sound(kinds, Lines(Transaction(cs)))
    ensures Between(ObeyAll(f, kinds, l, Lines(Transaction(cs)), pos), executed + (queued + cs),
                    pos + |Render(f, Lines(Transaction(cs)))|)
  {
    GoesOnQueueing(f, kinds, l, cs, executed, start, queued, pos);
    Closes(f, kinds, l, cs, executed, pos, queued + cs, pos);
  }

  // Where a loader inside a transaction ends up: between units if it met a transaction, else still inside.
  ghost predicate Arrived(l: Loader, closed: bool, executed: seq<Command>, start: nat, queued: seq<Command>, pos: nat) {
    if closed then Between(l, executed + queued, pos) else Inside(l, executed, start, queued, pos)
  }

  lemma Joined(f: Format, kinds: string -> Kind, l: Loader, x: seq<Command>, y: seq<Command>,
               closed: bool, executed: seq<Command>, start: nat, queued: seq<Command>, pos: nat)
    requires Sound(kinds, x) && Sound(kinds, y)
    requires Arrived(ObeyAll(f, kinds, ObeyAll(f, kinds, l, x, pos), y, pos + |Render(f, x)|),
                     closed, executed, start, queued,
                     pos + |Render(f, x)| + |Render(f, y)|)
    ensures Sound(kinds, x + y)
    ensures Arrived(ObeyAll(f, kinds, l, x + y, pos), closed, executed, start, queued, pos + |Render(f, x + y)|)
  {
    ObeyMore(f, kinds, l, x, y, pos);
    RenderMore(f, x, y);
  }

  lemma FirstAndRest(kinds: string -> Kind, later: seq<Unit>, queued: seq<Command>)
    requires PlainLog(kinds, later) && later != []
    ensures PlainUnit(kinds, later[0]) && PlainLog(kinds, later[1..])
    ensures HasTransaction(later) == (later[0].Transaction? || HasTransaction(later[1..]))
    ensures queued + Effects(later) == (queued + EffectOf(later[0])) + Effects(later[1..])
  {
  }

  lemma OneMoreUnit(f: Format, kinds: string -> Kind, l: Loader, u: Unit, rest: seq<Unit>, closed: bool,
                    executed: seq<Command>, start: nat, queued: seq<Command>, pos: nat)
    requires Sound(kinds, Lines(u)) && Sound(kinds, AllLines(rest))
    requires Arrived(ObeyAll(f, kinds, ObeyAll(f, kinds, l, Lines(u), pos), AllLines(rest),
                             pos + |Render(f, Lines(u))|),
                     closed, executed, start, queued, pos + |Render(f, Lines(u))| + |Render(f, AllLines(rest))|)
    ensures Sound(kinds, Lines(u) + AllLines(rest))
    ensures Arrived(ObeyAll(f, kinds, l, Lines(u) + AllLines(rest), pos), closed, executed, start, queued,
                    pos + |Render(f, Lines(u) + AllLines(rest))|)
  {
    Joined(f, kinds, l, Lines(u), AllLines(rest), closed, executed, start, queued, pos);
  }

  ghost predicate GoesOn(f: Format, kinds: string -> Kind, l: Loader, later: seq<Unit>,
                         executed: seq<Command>, start: nat, queued: seq<Command>, pos: nat) {
    && Sound(kinds, AllLines(later))
    && Arrived(ObeyAll(f, kinds, l, AllLines(later), pos), HasTransaction(later), executed, start,
               queued + Effects(later), pos + |Render(f, AllLines(later))|)
  }

  // After a command the loader is as far inside as before.
  lemma OnwardSingle(f: Format, kinds: string -> Kind, l: Loader, later: seq<Unit>,
                     executed: seq<Command>, start: nat, queued: seq<Command>, pos: nat)
    requires PlainLog(kinds, later) && later != [] && later[0].Single? && Sound(kinds, Lines(later[0]))
    requires GoesOn(f, kinds, ObeyAll(f, kinds, l, Lines(later[0]), pos), later[1..], executed, start,
                    queued + EffectOf(later[0]), pos + |Render(f, Lines(later[0]))|)
    ensures GoesOn(f, kinds, l, later, executed, start, queued, pos)
  {
    var u, rest := later[0], later[1..];
    FirstAndRest(kinds, later, queued);
    OneMoreUnit(f, kinds, l, u, rest, HasTransaction(rest), executed, start, queued + EffectOf(u) + Effects(rest), pos);
  }

  // After a transaction it is between units.
  lemma OnwardTransaction(f: Format, kinds: string -> Kind, l: Loader, later: seq<Unit>,
                          executed: seq<Command>, start: nat, queued: seq<Command>, pos: nat)
    requires PlainLog(kinds, later) && later != [] && later[0].Transaction? && Sound(kinds, Lines(later[0]))
    requires Between(ObeyAll(f, kinds, l, Lines(later[0]), pos), executed + (queued + EffectOf(later[0])),
                     pos + |Render(f, Lines(later[0]))|)
    ensures GoesOn(f, kinds, l, later, executed, start, queued, pos)
  {
    var u, rest := later[0], later[1..];
    FirstAndRest(kinds, later, queued);
    WholeOnward(f, kinds, ObeyAll(f, kinds, l, Lines(u), pos), rest, executed, queued + EffectOf(u),
                pos + |Render(f, Lines(u))|);
    OneMoreUnit(f, kinds, l, u, rest, true, executed, start, queued + EffectOf(u) + Effects(rest), pos);
  }

  // What later units do to a loader that is inside a transaction.
  lemma {:induction false} Onward(f: Format, kinds: string -> Kind, l: Loader, later: seq<Unit>,
                                  executed: seq<Command>, start: nat, queued: seq<Command>, pos: nat)
    requires PlainLog(kinds, later) && Inside(l, executed, start, queued, pos)
    ensures GoesOn(f, kinds, l, later, executed, start, queued, pos)
    decreases |later|
  {
    if later == [] {
      assert queued + [] == queued;
    } else {
      var u := later[0];
      FirstAndRest(kinds, later, queued);
      OnwardUnit(f, kinds, l, u, executed, start, queued, pos);
      if u.Single? {
        Onward(f, kinds, ObeyAll(f, kinds, l, Lines(u), pos), later[1..], executed, start, queued + EffectOf(u),
               pos + |Render(f, Lines(u))|);
        OnwardSingle(f, kinds, l, later, executed, start, queued, pos);
      } else {
        OnwardTransaction(f, kinds, l, later, executed, start, queued, pos);
      }
    }
  }

  lemma OnwardUnit(f: Format, kinds: string -> Kind, l: Loader, u: Unit,
                   executed: seq<Command>, start: nat, queued: seq<Command>, pos: nat)
    requires kinds("MULTI").Multi? && kinds("EXEC").Exec? && PlainUnit(kinds, u)
    requires Inside(l, executed, start, queued, pos)
    ensures Sound(kinds, Lines(u))
    ensures Arrived(ObeyAll(f, kinds, l, Lines(u), pos), u.Transaction?, executed, start, queued + EffectOf(u),
                    pos + |Render(f, Lines(u))|)
  {
    match u {
      case Single(c) => Queues(f, kinds, l, [c], executed, start, queued, pos);
      case Transaction(cs) => ClosesOpen(f, kinds, l, cs, executed, start, queued, pos);
    }
  }

  lemma WholeOnward(f: Format, kinds: string -> Kind, l: Loader, later: seq<Unit>,
                    executed: seq<Command>, more: seq<Command>, pos: nat)
    requires PlainLog(kinds, later) && Between(l, executed + more, pos)
    ensures Sound(kinds, AllLines(later))
    ensures Between(ObeyAll(f, kinds, l, AllLines(later), pos), executed + (more + Effects(later)),
                    pos + |Render(f, AllLines(later))|)
  {
    WholeUnits(f, kinds, later);
    var after := executed + (more + Effects(later));
    assert after == (executed + more) + Effects(later);
    WholeFrom(f, kinds, AllLines(later), Effects(later), l, executed + more, after, pos);
  }

  lemma LoadsAsObeyed(f: Format, kinds: string -> Kind, log: seq<Command>)
    requires Lawful(f) && Sound(kinds, log) && log != []
    ensures var l := ObeyAll(f, kinds, NEW_LOADER, log, 0);
      Load(f, kinds, Render(f, log), true)
      == Loaded(l.executed, if l.queue.Some? then l.beforeMulti else |Render(f, log)|)
  {
    StartsWithStar(f, log, "");
    LoadLog(f, kinds, log, "", NEW_LOADER, 0, true);
    assert Render(f, log) + "" == Render(f, log);
  }

  /**
   What the server appends after loading a cut file, and what takes effect at the next start. If the cut
   was not inside a command of a transaction, exactly what was whole and what was appended. If it was, the
   file still holds the transaction's MULTI: everything appended is thrown away with it unless it contains
   a transaction, whose EXEC then runs the half transaction that the first start had discarded as well.
   */
  lemma LaterWritesSurvive(f: Format, kinds: string -> Kind, us: seq<Unit>, u: Unit, j: nat, p: nat, later: seq<Unit>)
    requires Lawful(f) && PlainLog(kinds, us) && PlainUnit(kinds, u) && j < |Lines(u)|
    requires PlainLog(kinds, later) && later != []
    ensures Load(f, kinds, KeptFile(f, us, u, j, p) + Render(f, AllLines(later)), true)
         == if !InsideTransaction(j, p) then
              Loaded(Effects(us) + Effects(later), |KeptFile(f, us, u, j, p) + Render(f, AllLines(later))|)
            else if HasTransaction(later) then
              Loaded(Effects(us) + (Torn(u, j) + Effects(later)),
                     |KeptFile(f, us, u, j, p) + Render(f, AllLines(later))|)
            else Loaded(Effects(us), |Render(f, AllLines(us))|)
  {
    if InsideTransaction(j, p) {
      AfterOpen(f, kinds, us, u, j, later);
    } else {
      assert j == 0 ==> AllLines(us) + Lines(u)[..j] == AllLines(us);
      WholeUnits(f, kinds, us);
      WholeUnits(f, kinds, later);
      AfterWhole(f, kinds, AllLines(us), Effects(us), AllLines(later), Effects(later));
    }
  }

  lemma AfterWhole(f: Format, kinds: string -> Kind, a: seq<Command>, ea: seq<Command>, b: seq<Command>,
                   eb: seq<Command>)
    requires Lawful(f) && Whole(f, kinds, a, ea) && Whole(f, kinds, b, eb) && b != []
    ensures Load(f, kinds, Render(f, a) + Render(f, b), true) == Loaded(ea + eb, |Render(f, a) + Render(f, b)|)
  {
    WholeConcat(f, kinds, a, ea, b, eb);
    CutLoads(f, kinds, a + b, ea + eb, [], "", true);
    assert a + b + [] == a + b;
    RenderMore(f, a, b);
    assert Render(f, a + b) + "" == Render(f, a + b);
    StartsWithStar(f, a + b, "");
  }

  // The loader when only the first j lines of a transaction are left.
  lemma Reopened(f: Format, kinds: string -> Kind, us: seq<Unit>, u: Unit, j: nat) returns (l: Loader)
    requires PlainLog(kinds, us) && PlainUnit(kinds, u) && 0 < j < |Lines(u)|
    ensures Sound(kinds, AllLines(us) + Lines(u)[..j])
    ensures l == ObeyAll(f, kinds, NEW_LOADER, AllLines(us) + Lines(u)[..j], 0)
    ensures Inside(l, Effects(us), |Render(f, AllLines(us))|, Torn(u, j), |Render(f, AllLines(us) + Lines(u)[..j])|)
  {
    WholeUnits(f, kinds, us);
    assert Sound(kinds, Lines(u)) && Lines(u)[..j] == [["MULTI"]] + Torn(u, j);
    OpenedAfter(f, kinds, AllLines(us), Effects(us), Torn(u, j));
    l := ObeyAll(f, kinds, NEW_LOADER, AllLines(us) + Lines(u)[..j], 0);
  }

  lemma OpenedAfter(f: Format, kinds: string -> Kind, a: seq<Command>, e: seq<Command>, cs: seq<Command>)
    requires Whole(f, kinds, a, e) && kinds("MULTI").Multi? && Plain(kinds, cs)
    ensures Sound(kinds, a + ([["MULTI"]] + cs))
    ensures Inside(ObeyAll(f, kinds, NEW_LOADER, a + ([["MULTI"]] + cs), 0), e, |Render(f, a)|, cs,
                   |Render(f, a + ([["MULTI"]] + cs))|)
  {
    assert Between(NEW_LOADER, [], 0) && [] + e == e;
    var l := ObeyAll(f, kinds, NEW_LOADER, a, 0);
    assert Between(l, e, |Render(f, a)|);
    OpensTransaction(f, kinds, l, cs, e, |Render(f, a)|);
    Joined(f, kinds, NEW_LOADER, a, [["MULTI"]] + cs, false, e, |Render(f, a)|, cs, 0);
  }

  lemma AfterOpen(f: Format, kinds: string -> Kind, us: seq<Unit>, u: Unit, j: nat, later: seq<Unit>)
    requires Lawful(f) && PlainLog(kinds, us) && PlainUnit(kinds, u) && 0 < j < |Lines(u)|
    requires PlainLog(kinds, later) && later != []
    ensures Load(f, kinds, Render(f, AllLines(us) + Lines(u)[..j]) + Render(f, AllLines(later)), true)
         == if HasTransaction(later) then
              Loaded(Effects(us) + (Torn(u, j) + Effects(later)),
                     |Render(f, AllLines(us) + Lines(u)[..j]) + Render(f, AllLines(later))|)
            else Loaded(Effects(us), |Render(f, AllLines(us))|)
  {
    var l := Reopened(f, kinds, us, u, j);
    var a, start := AllLines(us) + Lines(u)[..j], |Render(f, AllLines(us))|;
    Onward(f, kinds, l, later, Effects(us), start, Torn(u, j), |Render(f, a)|);
    LoadsJoined(f, kinds, a, AllLines(later), HasTransaction(later), Effects(us), start, Torn(u, j) + Effects(later));
  }

  lemma LoadsJoined(f: Format, kinds: string -> Kind, a: seq<Command>, b: seq<Command>,
                    closed: bool, executed: seq<Command>, start: nat, queued: seq<Command>)
    requires Lawful(f) && Sound(kinds, a) && Sound(kinds, b) && a != []
    requires Arrived(ObeyAll(f, kinds, ObeyAll(f, kinds, NEW_LOADER, a, 0), b, |Render(f, a)|),
                     closed, executed, start, queued,
                     |Render(f, a)| + |Render(f, b)|)
    ensures Load(f, kinds, Render(f, a) + Render(f, b), true)
         == if closed then Loaded(executed + queued, |Render(f, a) + Render(f, b)|) else Loaded(executed, start)
  {
    Joined(f, kinds, NEW_LOADER, a, b, closed, executed, start, queued, 0);
    RenderMore(f, a, b);
    LoadsArrived(f, kinds, a + b, closed, executed, start, queued);
  }

  lemma LoadsArrived(f: Format, kinds: string -> Kind, log: seq<Command>, closed: bool, executed: seq<Command>,
                     start: nat, queued: seq<Command>)
    requires Lawful(f) && Sound(kinds, log) && log != []
    requires Arrived(ObeyAll(f, kinds, NEW_LOADER, log, 0), closed, executed, start, queued, |Render(f, log)|)
    ensures Load(f, kinds, Render(f, log), true)
         == if closed then Loaded(executed + queued, |Render(f, log)|) else Loaded(executed, start)
  {
    LoadsAsObeyed(f, kinds, log);
  }

  // What takes effect when a file is loaded.
  function Executed(f: Format, kinds: string -> Kind, file: string): seq<Command>
    requires Shrinks(f)
  {
    match Load(f, kinds, file, true)
    case Loaded(executed, _) => executed
    case Failed(_) => []
  }

  /** Everything appended is lost exactly if the cut was inside a transaction and no transaction is appended. */
  lemma AppendedLostExactly(f: Format, kinds: string -> Kind, us: seq<Unit>, u: Unit, j: nat, p: nat, later: seq<Unit>)
    requires Lawful(f) && PlainLog(kinds, us) && PlainUnit(kinds, u) && j < |Lines(u)|
    requires PlainLog(kinds, later) && Effects(later) != []
    ensures Executed(f, kinds, KeptFile(f, us, u, j, p) + Render(f, AllLines(later))) == Effects(us)
      <==> InsideTransaction(j, p) && !HasTransaction(later)
  {
    LaterWritesSurvive(f, kinds, us, u, j, p, later);
  }

  /** The second start executes the half transaction the first discarded exactly if a transaction is appended to it. */
  lemma TornReturnsExactly(f: Format, kinds: string -> Kind, us: seq<Unit>, u: Unit, j: nat, p: nat, later: seq<Unit>)
    requires Lawful(f) && PlainLog(kinds, us) && PlainUnit(kinds, u) && j < |Lines(u)|
    requires PlainLog(kinds, later) && later != []
    ensures |Executed(f, kinds, KeptFile(f, us, u, j, p) + Render(f, AllLines(later)))|
      > |Effects(us)| + |Effects(later)|
      <==> InsideTransaction(j, p) && HasTransaction(later) && Torn(u, j) != []
  {
    LaterWritesSurvive(f, kinds, us, u, j, p, later);
  }

  /******* The file as the server writes it *******/

  /** Any prefix of the server's log, whole or not, loads; it never counts as a format error. */
  lemma AnyPrefixLoads(kinds: string -> Kind, us: seq<Unit>, k: nat) returns (i: nat, j: nat, p: nat)
    requires PlainLog(kinds, us) && 0 < k < |Render(Text(), AllLines(us))|
    ensures i < |us| && j < |Lines(us[i])| && p < |Encode(Lines(us[i])[j])|
    ensures Shrinks(Text()) && Render(Text(), AllLines(us))[..k] == CutFile(Text(), us[..i], us[i], j, p)
    ensures Load(Text(), kinds, Render(Text(), AllLines(us))[..k], true)
         == Loaded(Effects(us[..i]), Kept(Text(), us[..i], us[i], j, p))
  {
    TextLaws();
    i, j, p := CutOfLog(Text(), us, k);
    CutFileLoads(Text(), kinds, us[..i], us[i], j, p, true);
  }

  lemma RenderOne(f: Format, c: Command)
    ensures Render(f, [c]) == f.encode(c)
  {
    assert [c][1..] == [];
    assert f.encode(c) + "" == f.encode(c);
  }

  lemma MultiSwallows(f: Format, kinds: string -> Kind, c: Command, p: nat, later: Command)
    requires Lawful(f) && kinds("MULTI").Multi? && kinds("EXEC").Exec? && Plain(kinds, [c]) && Plain(kinds, [later])
    requires 0 < p < |f.encode(c)|
    ensures Load(f, kinds, f.encode(["MULTI"]) + f.encode(c)[..p], true) == Loaded([], |f.encode(["MULTI"])|)
    ensures Load(f, kinds, f.encode(["MULTI"]) + f.encode(later), true) == Loaded([], 0)
  {
    var u, open := Transaction([c]), [["MULTI"]];
    assert AllLines([]) + Lines(u)[..1] == open && Lines(u)[1] == c;
    RenderOne(f, ["MULTI"]);
    RenderOne(f, later);
    CutFileLoads(f, kinds, [], u, 1, p, true);
    assert AllLines([Single(later)]) == [later];
    assert !HasTransaction([Single(later)]);
    LaterWritesSurvive(f, kinds, [], u, 1, p, [Single(later)]);
  }

  /** For one: cut in the first byte after a MULTI, the file swallows the SET that is written next. */
  lemma CutTransactionSwallows(kinds: string -> Kind)
    requires kinds("MULTI").Multi? && kinds("EXEC").Exec? && kinds("SET").Other?
    ensures Shrinks(Text())
    ensures Load(Text(), kinds, Encode(["MULTI"]) + "*", true) == Loaded([], |Encode(["MULTI"])|)
    ensures Load(Text(), kinds, Encode(["MULTI"]) + Encode(["SET", "b", "2"]), true) == Loaded([], 0)
  {
    TextLaws();
    var c: Command := ["SET", "a", "1"];
    MultiSwallows(Text(), kinds, c, 1, ["SET", "b", "2"]);
    assert Encode(c)[..1] == "*";
  }

  // What is left of a transaction that was cut inside its second command.
  lemma HalfKept(f: Format, kinds: string -> Kind, c: Command, d: Command, p: nat)
    requires Lawful(f) && kinds("MULTI").Multi? && kinds("EXEC").Exec? && Plain(kinds, [c, d])
    requires 0 < p < |f.encode(d)|
    ensures Lines(Transaction([c, d]))[..2] == [["MULTI"], c]
    ensures KeptFile(f, [], Transaction([c, d]), 2, p) == Render(f, [["MULTI"], c])
    ensures Load(f, kinds, Render(f, [["MULTI"], c]) + f.encode(d)[..p], true)
         == Loaded([], |Render(f, [["MULTI"], c])|)
  {
    var u := Transaction([c, d]);
    assert Lines(u) == [["MULTI"], c, d, ["EXEC"]];
    assert AllLines([]) + Lines(u)[..2] == [["MULTI"], c];
    CutFileLoads(f, kinds, [], u, 2, p, true);
  }

  lemma HalfRuns(f: Format, kinds: string -> Kind, c: Command, d: Command, p: nat, e: Command)
    requires Lawful(f) && kinds("MULTI").Multi? && kinds("EXEC").Exec? && Plain(kinds, [c, d]) && Plain(kinds, [e])
    requires 0 < p < |f.encode(d)|
    ensures var kept := Render(f, [["MULTI"], c]);
      Load(f, kinds, kept + Render(f, [["MULTI"], e, ["EXEC"]]), true)
      == Loaded([c, e], |kept + Render(f, [["MULTI"], e, ["EXEC"]])|)
  {
    var u, later := Transaction([c, d]), [Transaction([e])];
    HalfKept(f, kinds, c, d, p);
    assert AllLines(later) == Lines(later[0]) == [["MULTI"], e, ["EXEC"]];
    assert later[0].Transaction?;
    LaterWritesSurvive(f, kinds, [], u, 2, p, later);
    assert Torn(u, 2) == [c] && Effects(later) == [e] && [] + ([c] + [e]) == [c, e];
  }

  lemma HalfReturns(f: Format, kinds: string -> Kind, c: Command, d: Command, p: nat, e: Command)
    requires Lawful(f) && kinds("MULTI").Multi? && kinds("EXEC").Exec? && Plain(kinds, [c, d, e])
    requires 0 < p < |f.encode(d)|
    ensures var kept := Render(f, [["MULTI"], c]);
      && Load(f, kinds, kept + f.encode(d)[..p], true) == Loaded([], |kept|)
      && Executed(f, kinds, kept + Render(f, [["MULTI"], e, ["EXEC"]])) == [c, e]
  {
    assert [c, d, e][0] == c && [c, d, e][1] == d && [c, d, e][2] == e;
    HalfKept(f, kinds, c, d, p);
    HalfRuns(f, kinds, c, d, p, e);
  }

  // In the protocol text, one byte of the command that was cut is enough.
  lemma HalfText(kinds: string -> Kind, c: Command, d: Command, e: Command)
    requires kinds("MULTI").Multi? && kinds("EXEC").Exec? && Plain(kinds, [c, d, e])
    ensures Shrinks(Text())
    ensures var kept := Render(Text(), [["MULTI"], c]);
      && Load(Text(), kinds, kept + "*", true) == Loaded([], |kept|)
      && Executed(Text(), kinds, kept + Render(Text(), [["MULTI"], e, ["EXEC"]])) == [c, e]
  {
    TextLaws();
    HalfReturns(Text(), kinds, c, d, 1, e);
    assert Encode(d)[..1] == "*";
  }

  /** For one: the SET of a half transaction that a start discarded is there after the next transaction and start. */
  lemma HalfTransactionReturns(kinds: string -> Kind)
    requires kinds("MULTI").Multi? && kinds("EXEC").Exec? && kinds("SET").Other?
    ensures Shrinks(Text())
    ensures var kept := Render(Text(), [["MULTI"], ["SET", "a", "1"]]);
      && Load(Text(), kinds, kept + "*", true) == Loaded([], |kept|)
      && Executed(Text(), kinds, kept + Render(Text(), [["MULTI"], ["SET", "b", "2"], ["EXEC"]]))
         == [["SET", "a", "1"], ["SET", "b", "2"]]
  {
    var c: Command, d: Command, e: Command := ["SET", "a", "1"], ["SET", "c", "3"], ["SET", "b", "2"];
    assert Plain(kinds, [c, d, e]);
    HalfText(kinds, c, d, e);
  }
}
