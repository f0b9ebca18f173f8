/** The bytes that wait for the rewriting child, in blocks of a fixed size. */
module RewriteBuffers {

  const BLOCK_SIZE := 1024 * 1024 * 10

  function Flatten(blocks: seq<string>): string {
    if blocks == [] then "" else blocks[0] + Flatten(blocks[1..])
  }

  lemma {:induction false} FlattenSnoc(blocks: seq<string>, b: string)
    ensures Flatten(blocks + [b]) == Flatten(blocks) + b
  {
    if blocks == [] {
      assert [b][1..] == [];
    } else {
      assert (blocks + [b])[1..] == blocks[1..] + [b];
      FlattenSnoc(blocks[1..], b);
      assert blocks[0] + (Flatten(blocks[1..]) + b) == (blocks[0] + Flatten(blocks[1..])) + b;
    }
  }

  function Sum(s: seq<int>): int { if s == [] then 0 else Sum(s[..|s| - 1]) + s[|s| - 1] }

  lemma SumSnoc(s: seq<int>, i: nat)
    requires i < |s|
    ensures Sum(s[..i + 1]) == Sum(s[..i]) + s[i]
  {
    assert s[..i + 1][..i] == s[..i];
  }

  // What the writes of all the blocks have to return.
  function Lengths(blocks: seq<string>): seq<int> {
    if blocks == [] then []
    else
      var last := |blocks| - 1;
      Lengths(blocks[..last]) + if blocks[last] == "" then [] else [|blocks[last]|]
  }

  lemma {:induction false} LengthsSplit(blocks: seq<string>, i: nat)
    requires i < |blocks|
    ensures Lengths(blocks[..i + 1]) <= Lengths(blocks)
    ensures Lengths(blocks[..i + 1]) == Lengths(blocks[..i]) + if blocks[i] == "" then [] else [|blocks[i]|]
  {
    assert blocks[..i + 1][..i] == blocks[..i];
    var last := |blocks| - 1;
    if i == last {
      assert blocks[..i + 1] == blocks;
    } else {
      LengthsSplit(blocks[..last], i);
      assert blocks[..last][..i + 1] == blocks[..i + 1];
    }
  }

  class RewriteBuffer {
    var blocks: seq<string>

    ghost predicate Valid()
      reads this
    {
      forall i | 0 <= i < |blocks| :: |blocks[i]| <= BLOCK_SIZE
    }

    ghost function Contents(): string
      reads this
    {
      Flatten(blocks)
    }

    constructor ()
      ensures Valid() && Contents() == ""
    {
      blocks := [];
    }

    method Size() returns (size: nat)
      ensures size == |Contents()|
    {
      size := 0;
      for i := 0 to |blocks|
        invariant size == |Flatten(blocks[..i])|
      {
        assert blocks[..i + 1] == blocks[..i] + [blocks[i]];
        FlattenSnoc(blocks[..i], blocks[i]);
        size := size + |blocks[i]|;
      }
      assert blocks[..|blocks|] == blocks;
    }

    method Append(s: string)
      requires Valid()
      modifies this
      ensures Valid() && Contents() == old(Contents()) + s
    {
      var left := s;
      while left != ""
        invariant Valid() && Contents() + left == old(Contents()) + s
        decreases |left|, if blocks != [] && |blocks[|blocks| - 1]| < BLOCK_SIZE then 0 else 1
      {
        if blocks != [] {
          var last := |blocks| - 1;
          var room := BLOCK_SIZE - |blocks[last]|;
          var take := if room < |left| then room else |left|;
          var b := blocks[last] + left[..take];
          FlattenSnoc(blocks[..last], blocks[last]);
          FlattenSnoc(blocks[..last], b);
          assert blocks[..last] + [blocks[last]] == blocks;
          assert Flatten(blocks[..last]) + b + left[take..] == Flatten(blocks) + left;
          blocks := blocks[..last] + [b];
          left := left[take..];
        }
        if left != "" {
          FlattenSnoc(blocks, "");
          assert Flatten(blocks) + "" == Flatten(blocks);
          blocks := blocks + [""];
        }
      }
    }

    // aofChildWriteDiffData: `accepted` is what each write to the pipe returns, and i counts those that took bytes.
    method SendToChild(accepted: seq<int>, stop: bool) returns (sent: string, i: nat)
      requires Valid()
      modifies this
      ensures Valid() && sent + Contents() == old(Contents()) && i <= |accepted| && |sent| == Sum(accepted[..i])
      ensures stop ==> sent == "" && blocks == old(blocks)
      ensures !stop && blocks != [] ==>
        blocks[0] != "" && (i == |accepted| || accepted[i] <= 0 || accepted[i] > |blocks[0]|)
    {
      sent, i := "", 0;
      while !stop && blocks != []
        invariant Valid() && i <= |accepted| && sent + Contents() == old(Contents()) && |sent| == Sum(accepted[..i])
        invariant stop ==> sent == "" && blocks == old(blocks)
        decreases |blocks|, |accepted| - i
      {
        var block := blocks[0];
        if block != "" {
          if i == |accepted| || accepted[i] <= 0 || accepted[i] > |block| {
            return;
          }
          var n := accepted[i];
          SumSnoc(accepted, i);
          i := i + 1;
          assert (sent + block[..n]) + (block[n..] + Flatten(blocks[1..])) == sent + (block + Flatten(blocks[1..]));
          sent := sent + block[..n];
          block := block[n..];
          assert ([block] + blocks[1..])[1..] == blocks[1..];
          blocks := [block] + blocks[1..];
        }
        if block == "" {
          assert "" + Flatten(blocks[1..]) == Flatten(blocks[1..]);
          blocks := blocks[1..];
        }
      }
    }

    // aofRewriteBufferWrite: `accepted` is what each write to the file returns.
    method WriteOut(accepted: seq<int>) returns (written: string, ok: bool)
      requires Valid()
      ensures written <= Contents()
      ensures ok ==> written == Contents()
      ensures ok <==> Lengths(blocks) <= accepted
    {
      written := "";
      var j := 0;
      for i := 0 to |blocks|
        invariant written == Flatten(blocks[..i]) && 0 <= j <= |accepted|
        invariant accepted[..j] == Lengths(blocks[..i])
      {
        SplitAt(blocks, i);
        if blocks[i] != "" {
          if j >= |accepted| || accepted[j] != |blocks[i]| {
            ShortWrite(blocks, accepted, i, j);
            if j < |accepted| && 0 <= accepted[j] <= |blocks[i]| {
              written := written + blocks[i][..accepted[j]];
            }
            return written, false;
          }
          j := j + 1;
        }
        written := written + blocks[i];
        OneMore(blocks, i);
      }
      assert blocks[..|blocks|] == blocks;
      return written, true;
    }
  }

  lemma OneMore(blocks: seq<string>, i: nat)
    requires i < |blocks|
    ensures Flatten(blocks[..i + 1]) == Flatten(blocks[..i]) + blocks[i]
    ensures Lengths(blocks[..i + 1]) == Lengths(blocks[..i]) + if blocks[i] == "" then [] else [|blocks[i]|]
  {
    assert blocks[..i + 1] == blocks[..i] + [blocks[i]];
    FlattenSnoc(blocks[..i], blocks[i]);
    LengthsSplit(blocks, i);
  }

  // A write that takes less than its block.
  lemma ShortWrite(blocks: seq<string>, accepted: seq<int>, i: nat, j: nat)
    requires i < |blocks| && blocks[i] != "" && j <= |accepted| && accepted[..j] == Lengths(blocks[..i])
    requires j == |accepted| || accepted[j] != |blocks[i]|
    ensures !(Lengths(blocks) <= accepted)
  {
    LengthsSplit(blocks, i);
    assert Lengths(blocks[..i + 1])[j] == |blocks[i]|;
  }

  lemma {:induction false} SplitAt(blocks: seq<string>, i: nat)
    requires i < |blocks|
    ensures Flatten(blocks) == Flatten(blocks[..i]) + blocks[i] + Flatten(blocks[i + 1..])
  {
    if i == 0 {
      assert blocks[..0] == [];
    } else {
      SplitAt(blocks[1..], i - 1);
      assert blocks[..i][1..] == blocks[1..][..i - 1] && blocks[1..][i..] == blocks[i + 1..];
    }
  }
}

/**
 The background rewrite as a protocol between the server and its child: at every moment of every
 run, what is in the file and in the buffer replays to the data set.
 */
module AofRewrite {
  import opened Options
  import opened AofText
  import opened AofLoader
  import opened AofRecovery
  import opened Decimals

  // The data set and its commands, as far as the log is concerned.
  datatype Rules<!D> = Rules(
    format: Format,
    kinds: string -> Kind,
    databases: nat,
    empty: D,
    apply: (D, nat, Command) -> D,          // run a command in a database
    select: Command -> Option<nat>,         // which database a SELECT selects
    snapshot: D -> seq<Command>)            // the commands that rebuild a data set

  function Select(db: nat): Command { ["SELECT", Decimal(db)] }

  // What the loader arrives at: the data set and the selected database.
  function Replay<D>(r: Rules<D>, d: D, db: nat, log: seq<Command>): (D, nat)
    decreases |log|
  {
    if log == [] then (d, db)
    else match r.select(log[0])
      case Some(k) => Replay(r, d, k, log[1..])
      case None => Replay(r, r.apply(d, db, log[0]), db, log[1..])
  }

  lemma {:induction false} ReplayMore<D>(r: Rules<D>, d: D, db: nat, a: seq<Command>, b: seq<Command>)
    ensures Replay(r, d, db, a + b) == Replay(r, Replay(r, d, db, a).0, Replay(r, d, db, a).1, b)
    decreases |a|
  {
    if a == [] {
      assert a + b == b;
    } else {
      assert (a + b)[1..] == a[1..] + b;
      match r.select(a[0])
      case Some(k) => ReplayMore(r, d, k, a[1..], b);
      case None => ReplayMore(r, r.apply(d, db, a[0]), db, a[1..], b);
    }
  }

  ghost predicate Selects<D>(r: Rules<D>) {
    && r.kinds("MULTI").Multi? && r.kinds("EXEC").Exec?
    && forall k: nat | k < r.databases :: Plain(r.kinds, [Select(k)]) && r.select(Select(k)) == Some(k)
  }

  ghost predicate Rebuilds<D(!new)>(r: Rules<D>) {
    forall d :: Plain(r.kinds, r.snapshot(d)) && Replay(r, r.empty, 0, r.snapshot(d)).0 == d
  }

  datatype Mode = On | Waiting | Off

  datatype Phase = Working | Asked | Finished

  datatype Child<!D> = Child(start: D, diff: string, phase: Phase)

  datatype State<!D> = State(
    data: D,
    selected: Option<nat>,      // aof_selected_db
    mode: Mode,
    file: string,
    buf: string,                // aof_buf
    child: Option<Child<D>>,
    blocks: string,             // the rewrite buffer
    stop: bool,                 // aof_stop_sending_diff, with the acknowledgement on its way
    pipe: string,
    log: seq<Unit>,             // history: what the file and the buffer hold
    diffLog: seq<Unit>)         // history: what was fed since the fork

  // What is fed without a return to the event loop: a command, or what EXEC runs. MULTI and EXEC are fed for
  // the database that is then selected.
  datatype Batch =
    | One(db: nat, c: Command)
    | Atomic(first: nat, items: seq<(nat, Command)>, last: nat)

  datatype Step =
    | Feed(batch: Batch)
    | Flush(n: nat)
    | Fork
    | Send(n: nat)
    | Read(n: nat)
    | Ask
    | StopSending
    | Finish
    | ChildDies
    | Done
    | TurnOff(n: nat)
    | TurnOn(forks: bool)

  ghost predicate FeedableItem<D>(r: Rules<D>, item: (nat, Command)) {
    item.0 < r.databases && Plain(r.kinds, [item.1]) && r.select(item.1).None?
  }

  ghost predicate Feedable<D>(r: Rules<D>, batch: Batch) {
    match batch
    case One(db, c) => FeedableItem(r, (db, c))
    case Atomic(first, items, last) =>
      first < r.databases && last < r.databases && forall i | 0 <= i < |items| :: FeedableItem(r, items[i])
  }

  ghost predicate Enabled<D>(r: Rules<D>, s: State<D>, step: Step) {
    match step
    case Feed(batch) => Feedable(r, batch)
    case Flush(n) => s.mode != Off && n <= |s.buf|
    case Fork => s.child.None?
    case Send(n) => s.child.Some? && !s.stop && n <= |s.blocks|
    case Read(n) => s.child.Some? && !s.child.value.phase.Finished? && n <= |s.pipe|
    case Ask => s.child.Some? && s.child.value.phase.Working?
    case StopSending => s.child.Some? && s.child.value.phase.Asked?
    case Finish => s.child.Some? && s.child.value.phase.Asked? && s.stop
    case ChildDies => s.child.Some?
    case Done => s.child.Some? && s.child.value.phase.Finished?
    case TurnOff(n) => s.mode != Off && n <= |s.buf|
    case TurnOn(_) => s.mode == Off
  }

  function Selection(selected: Option<nat>, db: nat): seq<Unit> {
    if selected == Some(db) then [] else [Single(Select(db))]
  }

  // The lines between MULTI and EXEC, with a SELECT wherever the database changes.
  function Inner(at: nat, items: seq<(nat, Command)>, last: nat): seq<Command>
    decreases |items|
  {
    if items == [] then (if at == last then [] else [Select(last)])
    else
      var (db, c) := items[0];
      (if at == db then [c] else [Select(db), c]) + Inner(db, items[1..], last)
  }

  function Entries(selected: Option<nat>, batch: Batch): seq<Unit> {
    match batch
    case One(db, c) => Selection(selected, db) + [Single(c)]
    case Atomic(first, items, last) => Selection(selected, first) + [Transaction(Inner(first, items, last))]
  }

  function ApplyAll<D>(r: Rules<D>, d: D, items: seq<(nat, Command)>): D
    decreases |items|
  {
    if items == [] then d else ApplyAll(r, r.apply(d, items[0].0, items[0].1), items[1..])
  }

  function DataAfter<D>(r: Rules<D>, d: D, batch: Batch): D {
    match batch
    case One(db, c) => r.apply(d, db, c)
    case Atomic(_, items, _) => ApplyAll(r, d, items)
  }

  function LastDb(batch: Batch): nat { if batch.One? then batch.db else batch.last }

  function Forked<D>(s: State<D>): State<D> {
    s.(child := Some(Child(s.data, "", Working)), pipe := "", blocks := "", stop := false,
       selected := None, diffLog := [])
  }

  function Orphaned<D>(s: State<D>): State<D> {
    s.(child := None, pipe := "", blocks := "", diffLog := [])
  }

  // feedAppendOnlyFile; nothing is fed while the log is off.
  function Fed<D>(r: Rules<D>, s: State<D>, batch: Batch): State<D> {
    var entries := Entries(s.selected, batch);
    var bytes := Render(r.format, AllLines(entries));
    var data := DataAfter(r, s.data, batch);
    if s.mode == Off then s.(data := data)
    else
      s.(data := data,
         selected := Some(LastDb(batch)),
         buf := if s.mode == On then s.buf + bytes else s.buf,
         log := if s.mode == On then s.log + entries else s.log,
         blocks := if s.child.Some? then s.blocks + bytes else s.blocks,
         diffLog := if s.child.Some? then s.diffLog + entries else s.diffLog)
  }

  // backgroundRewriteDoneHandler on success: the child's file, the rest of the buffer, the rename.
  function Switched<D>(r: Rules<D>, s: State<D>): State<D>
    requires s.child.Some?
  {
    var snapshot := r.snapshot(s.child.value.start);
    var renamed := Render(r.format, snapshot) + s.child.value.diff + s.blocks;
    if s.mode == Off then Orphaned(s.(file := renamed))
    else Orphaned(s.(file := renamed, buf := "", selected := None, mode := On, log := Singles(snapshot) + s.diffLog))
  }

  ghost function Next<D>(r: Rules<D>, s: State<D>, step: Step): State<D>
    requires Enabled(r, s, step)
  {
    match step
    case Feed(batch) => Fed(r, s, batch)
    case Flush(n) => s.(file := s.file + s.buf[..n], buf := s.buf[n..])
    case Fork => Forked(s)
    case Send(n) => s.(pipe := s.pipe + s.blocks[..n], blocks := s.blocks[n..])
    case Read(n) => s.(child := Some(s.child.value.(diff := s.child.value.diff + s.pipe[..n])), pipe := s.pipe[n..])
    case Ask => s.(child := Some(s.child.value.(phase := Asked)))
    case StopSending => s.(stop := true)
    case Finish => s.(child := Some(s.child.value.(diff := s.child.value.diff + s.pipe, phase := Finished)), pipe := "")
    case ChildDies => Orphaned(s)
    case Done => Switched(r, s)
    case TurnOff(n) => Orphaned(s.(file := s.file + s.buf[..n], buf := s.buf[n..], mode := Off, selected := None))
    case TurnOn(forks) => (if forks then Forked(Orphaned(s)) else Orphaned(s)).(mode := Waiting)
  }

  /******* What every step keeps *******/

  ghost predicate Agrees(selected: Option<nat>, db: nat) { selected.Some? ==> selected.value == db }

  // While the log is on, the file and the buffer replay to the data set.
  ghost predicate LogHolds<D>(r: Rules<D>, s: State<D>) {
    s.mode == On ==>
      && s.file + s.buf == Render(r.format, AllLines(s.log)) && PlainLog(r.kinds, s.log)
      && Replay(r, r.empty, 0, Effects(s.log)).0 == s.data
      && Agrees(s.selected, Replay(r, r.empty, 0, Effects(s.log)).1)
  }

  // While a child rewrites, what it has received, what is in the pipe and what still waits are
  // together what was fed since the fork, and lead from its data set to the present one. With the log off
  // nothing is fed.
  ghost predicate DiffHolds<D>(r: Rules<D>, s: State<D>) {
    s.child.Some? ==>
      && s.child.value.diff + s.pipe + s.blocks == Render(r.format, AllLines(s.diffLog)) && PlainLog(r.kinds, s.diffLog)
      && (s.mode == Off || s.selected.None? ==> s.diffLog == [])
      && (s.mode != Off ==> forall db: nat :: LeadsTo(r, s, db))
  }

  ghost predicate LeadsTo<D>(r: Rules<D>, s: State<D>, db: nat)
    requires s.child.Some?
  {
    var end := Replay(r, s.child.value.start, db, Effects(s.diffLog));
    end.0 == s.data && Agrees(s.selected, end.1)
  }

  ghost predicate HandshakeHolds<D>(s: State<D>) {
    && (s.child.Some? && s.child.value.phase.Finished? ==> s.stop && s.pipe == "")
    && (s.child.None? ==> s.pipe == "" && s.blocks == "")
  }

  ghost predicate Inv<D>(r: Rules<D>, s: State<D>) { LogHolds(r, s) && DiffHolds(r, s) && HandshakeHolds(s) }

  lemma Regroup<T>(a: seq<T>, b: seq<T>, c: seq<T>)
    ensures (a + b) + c == a + (b + c)
  {
  }

  lemma {:induction false} LinesMore(a: seq<Unit>, b: seq<Unit>)
    ensures AllLines(a + b) == AllLines(a) + AllLines(b)
  {
    if a == [] {
      assert a + b == b;
    } else {
      assert (a + b)[1..] == a[1..] + b && (a + b)[0] == a[0];
      LinesMore(a[1..], b);
      Regroup(Lines(a[0]), AllLines(a[1..]), AllLines(b));
    }
  }

  lemma {:induction false} EffectsMore(a: seq<Unit>, b: seq<Unit>)
    ensures Effects(a + b) == Effects(a) + Effects(b)
  {
    if a == [] {
      assert a + b == b;
    } else {
      assert (a + b)[1..] == a[1..] + b && (a + b)[0] == a[0];
      EffectsMore(a[1..], b);
      Regroup(EffectOf(a[0]), Effects(a[1..]), Effects(b));
    }
  }

  /** Where what is fed goes: to the buffer while the log is on, and for the child unless it is off. */
  lemma FeedGoesWhere<D>(r: Rules<D>, s: State<D>, batch: Batch)
    requires Enabled(r, s, Feed(batch))
    ensures var s', bytes := Next(r, s, Feed(batch)), Render(r.format, AllLines(Entries(s.selected, batch)));
      && s'.data == DataAfter(r, s.data, batch) && s'.file == s.file && s'.mode == s.mode && s'.pipe == s.pipe
      && s'.child == s.child && s'.buf == s.buf + (if s.mode == On then bytes else "")
      && s'.blocks == s.blocks + if s.mode != Off && s.child.Some? then bytes else ""
  {
    assert s.buf + "" == s.buf && s.blocks + "" == s.blocks;
  }

  /** Every other step before the child is done moves bytes on, by as many as it says, and loses none. */
  lemma BytesMoveOn<D>(r: Rules<D>, s: State<D>, step: Step)
    requires Enabled(r, s, step) && !step.Feed? && !step.Done?
    ensures var s' := Next(r, s, step);
      && s'.data == s.data
      && (step.Flush? || step.TurnOff? ==> s'.file + s'.buf == s.file + s.buf && |s'.buf| == |s.buf| - step.n)
      && (!step.Flush? && !step.TurnOff? ==> s'.file == s.file && s'.buf == s.buf)
      && (step.Send? ==> s'.pipe + s'.blocks == s.pipe + s.blocks && |s'.blocks| == |s.blocks| - step.n)
      && (step.Read? || step.Finish? ==>
            && s'.child.Some? && s'.child.value.start == s.child.value.start && s'.blocks == s.blocks
            && s'.child.value.diff + s'.pipe == s.child.value.diff + s.pipe
            && |s'.pipe| == if step.Read? then |s.pipe| - step.n else 0)
  {
    match step {
      case Flush(n) => assert (s.file + s.buf[..n]) + s.buf[n..] == s.file + s.buf;
      case TurnOff(n) => assert (s.file + s.buf[..n]) + s.buf[n..] == s.file + s.buf;
      case Send(n) => assert (s.pipe + s.blocks[..n]) + s.blocks[n..] == s.pipe + s.blocks;
      case Read(n) =>
        var d := s.child.value.diff;
        assert (d + s.pipe[..n]) + s.pipe[n..] == d + s.pipe;
      case Finish => assert (s.child.value.diff + s.pipe) + "" == s.child.value.diff + s.pipe;
      case _ =>
    }
  }

  /** What starts and stops: a fork records the data set of the moment, and a lost child leaves nothing behind. */
  lemma StartsAndStops<D>(r: Rules<D>, s: State<D>, step: Step)
    requires Enabled(r, s, step)
    ensures var s' := Next(r, s, step);
      && (step.Fork? || (step.TurnOn? && step.forks) ==>
            && s'.child == Some(Child(s.data, "", Working)) && s'.pipe == "" && s'.blocks == "" && !s'.stop
            && s'.diffLog == [] && s'.selected.None?)
      && (step.ChildDies? || step.TurnOff? || (step.TurnOn? && !step.forks) ==>
            s'.child.None? && s'.pipe == "" && s'.blocks == "")
      && s'.mode == (if step.TurnOff? then Off else if step.TurnOn? then Waiting
                     else if step.Done? && s.mode != Off then On else s.mode)
      && (step.StopSending? ==> s'.stop)
      && (step.Ask? ==> s'.child == Some(s.child.value.(phase := Asked)))
      && (step.Finish? ==> s'.child.Some? && s'.child.value.phase.Finished?)
  {
  }

  lemma ReplaySelect<D>(r: Rules<D>, d: D, at: nat, db: nat)
    requires Selects(r) && db < r.databases
    ensures Replay(r, d, at, [Select(db)]) == (d, db) && Plain(r.kinds, [Select(db)])
  {
  }

  // One command with the SELECT that it needs.
  lemma ReplayOne<D>(r: Rules<D>, d: D, at: nat, selects: bool, item: (nat, Command))
    requires Selects(r) && FeedableItem(r, item) && (selects || at == item.0)
    ensures var lines := if selects then [Select(item.0), item.1] else [item.1];
      Replay(r, d, at, lines) == (r.apply(d, item.0, item.1), item.0) && Plain(r.kinds, lines)
  {
    var c := item.1;
    assert [c][1..] == [] && [Select(item.0), c][1..] == [c];
    assert Replay(r, d, item.0, [c]) == (r.apply(d, item.0, c), item.0);
    if selects {
      assert Plain(r.kinds, [Select(item.0)]) && [Select(item.0)][0] == Select(item.0) && [c][0] == c;
    }
  }

  lemma {:induction false} ReplayInner<D>(r: Rules<D>, d: D, at: nat, items: seq<(nat, Command)>, last: nat)
    requires Selects(r) && last < r.databases && forall i | 0 <= i < |items| :: FeedableItem(r, items[i])
    ensures Replay(r, d, at, Inner(at, items, last)) == (ApplyAll(r, d, items), last)
    ensures Plain(r.kinds, Inner(at, items, last))
    decreases |items|
  {
    if items == [] {
      if at != last {
        ReplaySelect(r, d, at, last);
      }
    } else {
      var (db, c) := items[0];
      assert FeedableItem(r, items[0]);
      ReplayOne(r, d, at, at != db, items[0]);
      ReplayInner(r, r.apply(d, db, c), db, items[1..], last);
      ReplayMore(r, d, at, if at == db then [c] else [Select(db), c], Inner(db, items[1..], last));
    }
  }

  lemma ReplaySelection<D>(r: Rules<D>, d: D, selected: Option<nat>, at: nat, db: nat)
    requires Selects(r) && db < r.databases && Agrees(selected, at)
    ensures Replay(r, d, at, Effects(Selection(selected, db))) == (d, db)
    ensures PlainLog(r.kinds, Selection(selected, db))
  {
    if selected != Some(db) {
      ReplaySelect(r, d, at, db);
      assert Effects([Single(Select(db))]) == [Select(db)];
    }
  }

  function LastUnit(batch: Batch): Unit {
    match batch
    case One(_, c) => Single(c)
    case Atomic(first, items, last) => Transaction(Inner(first, items, last))
  }

  function FirstDb(batch: Batch): nat { if batch.One? then batch.db else batch.first }

  lemma ReplayLast<D>(r: Rules<D>, batch: Batch, d: D)
    requires Selects(r) && Feedable(r, batch)
    ensures Replay(r, d, FirstDb(batch), Effects([LastUnit(batch)])) == (DataAfter(r, d, batch), LastDb(batch))
    ensures PlainLog(r.kinds, [LastUnit(batch)])
  {
    assert Effects([LastUnit(batch)]) == EffectOf(LastUnit(batch));
    match batch {
      case One(db, c) => ReplayOne(r, d, db, false, (db, c));
      case Atomic(first, items, last) => ReplayInner(r, d, first, items, last);
    }
  }

  // The entries of one batch, wherever the loader is.
  lemma ReplayEntries<D>(r: Rules<D>, selected: Option<nat>, batch: Batch, d: D, at: nat)
    requires Selects(r) && Feedable(r, batch) && Agrees(selected, at)
    ensures Replay(r, d, at, Effects(Entries(selected, batch))) == (DataAfter(r, d, batch), LastDb(batch))
    ensures PlainLog(r.kinds, Entries(selected, batch))
  {
    var x, y := Selection(selected, FirstDb(batch)), [LastUnit(batch)];
    assert FirstDb(batch) < r.databases;
    ReplaySelection(r, d, selected, at, FirstDb(batch));
    ReplayLast(r, batch, d);
    EffectsMore(x, y);
    ReplayMore(r, d, at, Effects(x), Effects(y));
    assert Entries(selected, batch) == x + y;
  }

  lemma FeedKeepsLog<D>(r: Rules<D>, s: State<D>, batch: Batch)
    requires Selects(r) && LogHolds(r, s) && Enabled(r, s, Feed(batch))
    ensures LogHolds(r, Fed(r, s, batch))
  {
    if s.mode == On {
      var entries := Entries(s.selected, batch);
      var at := Replay(r, r.empty, 0, Effects(s.log));
      LinesMore(s.log, entries);
      EffectsMore(s.log, entries);
      ReplayMore(r, r.empty, 0, Effects(s.log), Effects(entries));
      ReplayEntries(r, s.selected, batch, at.0, at.1);
      RenderMore(r.format, AllLines(s.log), AllLines(entries));
      Associative(s.file, s.buf, Render(r.format, AllLines(entries)));
    }
  }

  lemma FeedKeepsDiff<D>(r: Rules<D>, s: State<D>, batch: Batch)
    requires Selects(r) && DiffHolds(r, s) && Enabled(r, s, Feed(batch))
    ensures DiffHolds(r, Fed(r, s, batch))
  {
    if s.child.Some? && s.mode != Off {
      var s', entries := Fed(r, s, batch), Entries(s.selected, batch);
      LinesMore(s.diffLog, entries);
      EffectsMore(s.diffLog, entries);
      forall at: nat ensures LeadsTo(r, s', at) {
        assert LeadsTo(r, s, at);
        var end := Replay(r, s.child.value.start, at, Effects(s.diffLog));
        ReplayMore(r, s.child.value.start, at, Effects(s.diffLog), Effects(entries));
        ReplayEntries(r, s.selected, batch, end.0, end.1);
      }
      ReplayEntries(r, s.selected, batch, s.data, if s.selected.Some? then s.selected.value else 0);
      RenderMore(r.format, AllLines(s.diffLog), AllLines(entries));
      Associative(s.child.value.diff + s.pipe, s.blocks, Render(r.format, AllLines(entries)));
    }
  }

  // A snapshot followed by what was fed since.
  lemma ReplayRewritten<D>(r: Rules<D>, start: D, snapshot: seq<Command>, more: seq<Unit>)
    requires Selects(r) && Plain(r.kinds, snapshot) && PlainLog(r.kinds, more)
    requires Replay(r, r.empty, 0, snapshot).0 == start
    ensures PlainLog(r.kinds, Singles(snapshot) + more)
    ensures Replay(r, r.empty, 0, Effects(Singles(snapshot) + more))
      == Replay(r, start, Replay(r, r.empty, 0, snapshot).1, Effects(more))
    ensures Render(r.format, AllLines(Singles(snapshot) + more))
      == Render(r.format, snapshot) + Render(r.format, AllLines(more))
  {
    SinglesAreLines(snapshot);
    SinglesPlain(r.kinds, snapshot);
    LinesMore(Singles(snapshot), more);
    EffectsMore(Singles(snapshot), more);
    ReplayMore(r, r.empty, 0, snapshot, Effects(more));
    RenderMore(r.format, snapshot, AllLines(more));
  }

  lemma RestBytes(x: string, diff: string, blocks: string, all: string)
    requires diff + "" + blocks == all
    ensures x + diff + blocks == x + all
  {
    assert diff + "" == diff;
    Associative(x, diff, blocks);
  }

  lemma FreshLogHolds<D>(r: Rules<D>, s: State<D>)
    requires s.buf == "" && s.selected.None? && s.file == Render(r.format, AllLines(s.log)) && PlainLog(r.kinds, s.log)
    requires Replay(r, r.empty, 0, Effects(s.log)).0 == s.data
    ensures LogHolds(r, s)
  {
    assert s.file + "" == s.file;
  }

  /**
   When the child is done, the file is the snapshot of its data set followed by everything fed since the fork, the
   child is gone and, unless the log is off, the buffer is empty and the log is on.
   */
  lemma DoneInstalls<D>(r: Rules<D>, s: State<D>)
    requires DiffHolds(r, s) && HandshakeHolds(s) && Enabled(r, s, Done)
    ensures var s', snapshot := Next(r, s, Done), r.snapshot(s.child.value.start);
      && s'.file == Render(r.format, snapshot) + Render(r.format, AllLines(s.diffLog))
      && s'.child.None? && s'.pipe == "" && s'.blocks == "" && s'.data == s.data
      && (s.mode != Off ==>
            s'.mode == On && s'.buf == "" && s'.selected.None? && s'.log == Singles(snapshot) + s.diffLog)
      && (s.mode == Off ==> s'.mode == Off && s'.buf == s.buf && s'.file == Render(r.format, snapshot))
  {
    var base := Render(r.format, r.snapshot(s.child.value.start));
    RestBytes(base, s.child.value.diff, s.blocks, Render(r.format, AllLines(s.diffLog)));
    assert base + "" == base;
  }

  /** And then the file replays to the data set. */
  lemma DoneKeepsLog<D(!new)>(r: Rules<D>, s: State<D>)
    requires Selects(r) && Rebuilds(r) && Inv(r, s) && Enabled(r, s, Done)
    ensures LogHolds(r, Switched(r, s))
  {
    if s.mode != Off {
      var start := s.child.value.start;
      var snapshot := r.snapshot(start);
      ReplayRewritten(r, start, snapshot, s.diffLog);
      assert LeadsTo(r, s, Replay(r, r.empty, 0, snapshot).1);
      DoneInstalls(r, s);
      FreshLogHolds(r, Switched(r, s));
    }
  }

  // A step that moves the bytes for the child, and keeps their order, keeps what is known of them.
  lemma SameDiff<D>(r: Rules<D>, s: State<D>, s': State<D>)
    requires DiffHolds(r, s) && s.child.Some? && s'.child.Some? && s.mode == s'.mode
    requires s'.child.value.start == s.child.value.start
    requires s'.child.value.diff + s'.pipe + s'.blocks == s.child.value.diff + s.pipe + s.blocks
    requires s'.diffLog == s.diffLog && s'.data == s.data && s'.selected == s.selected
    ensures DiffHolds(r, s')
  {
    if s.mode != Off {
      forall db: nat ensures LeadsTo(r, s', db) {
        assert LeadsTo(r, s, db);
      }
    }
  }

  lemma BytesSent(diff: string, pipe: string, blocks: string, n: nat)
    requires n <= |blocks|
    ensures diff + (pipe + blocks[..n]) + blocks[n..] == diff + pipe + blocks
  {
  }

  lemma BytesRead(diff: string, pipe: string, blocks: string, n: nat)
    requires n <= |pipe|
    ensures (diff + pipe[..n]) + pipe[n..] + blocks == diff + pipe + blocks
  {
    Associative(diff, pipe[..n], pipe[n..]);
    assert pipe[..n] + pipe[n..] == pipe;
  }

  lemma MovesKeepDiff<D>(r: Rules<D>, s: State<D>, step: Step)
    requires DiffHolds(r, s) && HandshakeHolds(s) && Enabled(r, s, step) && (step.Send? || step.Read? || step.Finish?)
    ensures DiffHolds(r, Next(r, s, step))
  {
    var d := s.child.value.diff;
    match step {
      case Send(n) => BytesSent(d, s.pipe, s.blocks, n);
      case Read(n) => BytesRead(d, s.pipe, s.blocks, n);
      case Finish => assert (d + s.pipe) + "" == d + s.pipe;
      case _ =>
    }
    SameDiff(r, s, Next(r, s, step));
  }

  lemma FlushKeepsLog<D>(r: Rules<D>, s: State<D>, n: nat)
    requires LogHolds(r, s) && Enabled(r, s, Flush(n))
    ensures LogHolds(r, Next(r, s, Flush(n)))
  {
    assert (s.file + s.buf[..n]) + s.buf[n..] == s.file + s.buf;
  }

  lemma ForkStartsDiff<D>(r: Rules<D>, s: State<D>)
    requires Selects(r)
    ensures DiffHolds(r, Forked(s)) && HandshakeHolds(Forked(s))
  {
    var s' := Forked(s);
    assert forall db: nat :: LeadsTo(r, s', db);
  }

  lemma {:induction false} StepKeepsInv<D(!new)>(r: Rules<D>, s: State<D>, step: Step)
    requires Selects(r) && Rebuilds(r) && Inv(r, s) && Enabled(r, s, step)
    ensures Inv(r, Next(r, s, step))
  {
    match step {
      case Feed(batch) => FeedKeepsLog(r, s, batch); FeedKeepsDiff(r, s, batch);
      case Flush(n) => FlushKeepsLog(r, s, n); if s.child.Some? { SameDiff(r, s, Next(r, s, step)); }
      case Fork => ForkStartsDiff(r, s);
      case Done => DoneKeepsLog(r, s);
      case Ask => SameDiff(r, s, Next(r, s, step));
      case StopSending => SameDiff(r, s, Next(r, s, step));
      case TurnOn(forks) => ForkStartsDiff(r, Orphaned(s));
      case Send(n) => MovesKeepDiff(r, s, step);
      case Read(n) => MovesKeepDiff(r, s, step);
      case Finish => MovesKeepDiff(r, s, step);
      case _ =>
    }
  }

  /******* Runs and restarts *******/

  // s is reached from a server that has just started, with an empty log, by the given steps.
  ghost predicate Reaches<D(!new)>(r: Rules<D>, steps: seq<Step>, s: State<D>)
    decreases |steps|
  {
    if steps == [] then s == State(r.empty, None, On, "", "", None, "", false, "", [], [])
    else
      var last := |steps| - 1;
      exists before: State<D> ::
        Reaches(r, steps[..last], before) && Enabled(r, before, steps[last]) && s == Next(r, before, steps[last])
  }

  lemma {:induction false} RunKeepsInv<D(!new)>(r: Rules<D>, steps: seq<Step>, s: State<D>)
    requires Selects(r) && Rebuilds(r) && Reaches(r, steps, s)
    ensures Inv(r, s)
    decreases |steps|
  {
    if steps != [] {
      var last := |steps| - 1;
      var before :| Reaches(r, steps[..last], before) && Enabled(r, before, steps[last])
                    && s == Next(r, before, steps[last]);
      RunKeepsInv(r, steps[..last], before);
      StepKeepsInv(r, before, steps[last]);
    }
  }

  lemma ReachesMore<D(!new)>(r: Rules<D>, steps: seq<Step>, s: State<D>, step: Step)
    requires Reaches(r, steps, s) && Enabled(r, s, step)
    ensures Reaches(r, steps + [step], Next(r, s, step))
  {
    assert (steps + [step])[..|steps|] == steps;
  }

  // What a child that has just been forked does if it is left alone.
  lemma ChildCompletes<D(!new)>(r: Rules<D>, steps: seq<Step>, s: State<D>) returns (s': State<D>)
    requires LawfulRules(r) && Reaches(r, steps, s) && s.mode != Off && s.child == Some(Child(s.data, "", Working))
    requires s.diffLog == []
    ensures Reaches(r, steps + [Ask] + [StopSending] + [Finish] + [Done], s')
    ensures s'.mode == On && s'.file == Render(r.format, r.snapshot(s.data)) && s'.buf == "" && s'.child.None?
    ensures s'.data == s.data
  {
    var asked := Next(r, s, Ask);
    ReachesMore(r, steps, s, Ask);
    var stopped := Next(r, asked, StopSending);
    ReachesMore(r, steps + [Ask], asked, StopSending);
    var finished := Next(r, stopped, Finish);
    ReachesMore(r, steps + [Ask] + [StopSending], stopped, Finish);
    s' := Next(r, finished, Done);
    ReachesMore(r, steps + [Ask] + [StopSending] + [Finish], finished, Done);
    RunKeepsInv(r, steps + [Ask] + [StopSending] + [Finish], finished);
    DoneInstalls(r, finished);
    assert Render(r.format, r.snapshot(s.data)) + "" == Render(r.format, r.snapshot(s.data));
  }

  /** From every reachable state without a child a rewrite can run to its end, and leaves just the snapshot. */
  lemma RewriteCompletes<D(!new)>(r: Rules<D>, steps: seq<Step>, s: State<D>) returns (s': State<D>)
    requires LawfulRules(r) && Reaches(r, steps, s) && s.mode != Off && s.child.None?
    ensures Reaches(r, steps + [Fork] + [Ask] + [StopSending] + [Finish] + [Done], s')
    ensures s'.mode == On && s'.file == Render(r.format, r.snapshot(s.data)) && s'.buf == "" && s'.child.None?
    ensures s'.data == s.data
  {
    ReachesMore(r, steps, s, Fork);
    s' := ChildCompletes(r, steps + [Fork], Next(r, s, Fork));
  }

  /** And from every reachable state with the log off it can be turned on again. */
  lemma TurnedOnAgain<D(!new)>(r: Rules<D>, steps: seq<Step>, s: State<D>) returns (s': State<D>)
    requires LawfulRules(r) && Reaches(r, steps, s) && s.mode == Off
    ensures Reaches(r, steps + [TurnOn(true)] + [Ask] + [StopSending] + [Finish] + [Done], s')
    ensures s'.mode == On && s'.file == Render(r.format, r.snapshot(s.data)) && s'.buf == "" && s'.child.None?
    ensures s'.data == s.data
  {
    ReachesMore(r, steps, s, TurnOn(true));
    s' := ChildCompletes(r, steps + [TurnOn(true)], Next(r, s, TurnOn(true)));
  }

  function Singles(log: seq<Command>): (us: seq<Unit>)
    ensures |us| == |log| && forall i | 0 <= i < |log| :: us[i] == Single(log[i])
  {
    seq(|log|, i requires 0 <= i < |log| => Single(log[i]))
  }

  lemma {:induction false} SinglesAreLines(log: seq<Command>)
    ensures AllLines(Singles(log)) == log && Effects(Singles(log)) == log
  {
    if log != [] {
      assert Singles(log)[1..] == Singles(log[1..]);
      SinglesAreLines(log[1..]);
    }
  }

  lemma SinglesPlain(kinds: string -> Kind, log: seq<Command>)
    requires kinds("MULTI").Multi? && kinds("EXEC").Exec? && Plain(kinds, log)
    ensures PlainLog(kinds, Singles(log))
  {
    forall i | 0 <= i < |log| ensures PlainUnit(kinds, Singles(log)[i]) {
      assert [log[i]][0] == log[i];
    }
  }

  ghost predicate LawfulRules<D(!new)>(r: Rules<D>) {
    Lawful(r.format) && Selects(r) && Rebuilds(r)
  }

  /**
   Whenever the log is on and its buffer flushed, however many rewrites have run, failed or are
   running, a restart from the file ends with exactly the present data set.
   */
  lemma RestartRestores<D(!new)>(r: Rules<D>, steps: seq<Step>, s: State<D>)
    requires LawfulRules(r) && Reaches(r, steps, s) && s.mode == On && s.buf == "" && s.file != ""
    ensures var o := Load(r.format, r.kinds, s.file, false);
      o.Loaded? && o.size == |s.file| && Replay(r, r.empty, 0, o.executed).0 == s.data
  {
    RunKeepsInv(r, steps, s);
    assert s.file + "" == s.file;
    assert s.log != [];
    WholeFileLoads(r.format, r.kinds, s.log, false);
  }

  /**
   Whenever the log is on, a crash with part of the buffer unwritten loses at most a suffix of the
   commands and transactions: the restart replays a prefix of those that make up the data set.
   */
  lemma CrashLosesSuffix<D(!new)>(r: Rules<D>, steps: seq<Step>, s: State<D>) returns (i: nat, size: nat)
    requires LawfulRules(r) && Reaches(r, steps, s) && s.mode == On && s.file != ""
    ensures i <= |s.log| && Replay(r, r.empty, 0, Effects(s.log)).0 == s.data
    ensures Load(r.format, r.kinds, s.file, true) == Loaded(Effects(s.log[..i]), size)
    ensures |Render(r.format, AllLines(s.log[..i]))| <= size <= |s.file|
  {
    RunKeepsInv(r, steps, s);
    if s.buf == "" {
      i, size := |s.log|, |s.file|;
      assert s.file + "" == s.file && s.log[..i] == s.log;
      WholeFileLoads(r.format, r.kinds, s.log, true);
    } else {
      var j, p;
      i, j, p := CutOfLog(r.format, s.log, |s.file|);
      assert (s.file + s.buf)[..|s.file|] == s.file;
      CutFileLoads(r.format, r.kinds, s.log[..i], s.log[i], j, p, true);
      size := Kept(r.format, s.log[..i], s.log[i], j, p);
      KeptIsPrefix(r.format, s.log[..i], s.log[i], j, p);
      RenderMore(r.format, AllLines(s.log[..i]), Lines(s.log[i])[..j]);
    }
  }
}
