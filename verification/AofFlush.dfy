/**
 Writing the append-only buffer to disk: whatever the system calls return, the file followed by
 the buffer is all that was ever appended, and the recorded size is the size of the file; and
 when all of it has been asked to be synced.
 */
module AofFlush {

  // What one write(2) does with a buffer: be interrupted, fail, or take a part of it.
  datatype Write = Interrupted | Failure | Wrote(count: nat)

  datatype Fsync = Always | EverySecond | Never

  // How much of `left` the calls to come will take, and whether one of them failed before the end.
  function Taken(writes: seq<Write>, left: nat): (r: (nat, bool))
    ensures r.0 <= left && (r.1 <==> r.0 < left)
    decreases |writes|
  {
    if left == 0 then (0, false)
    else if writes == [] || writes[0].Failure? then (0, true)
    else if writes[0].Interrupted? || writes[0].count > left then Taken(writes[1..], left)
    else
      var more := Taken(writes[1..], left - writes[0].count);
      (writes[0].count + more.0, more.1)
  }

  function Total(writes: seq<Write>): nat {
    if writes == [] then 0 else (if writes[0].Wrote? then writes[0].count else 0) + Total(writes[1..])
  }

  /** Calls that do not fail are retried: together they take what each of them takes. */
  lemma {:induction false} TakenInAll(writes: seq<Write>, left: nat)
    requires Total(writes) <= left && forall i | 0 <= i < |writes| :: !writes[i].Failure?
    ensures Taken(writes, left) == (Total(writes), Total(writes) < left)
  {
    if writes != [] {
      TakenInAll(writes[1..], left - if writes[0].Wrote? then writes[0].count else 0);
    }
  }

  /** The first failure before everything is written is the end. */
  lemma {:induction false} TakenUpToFailure(writes: seq<Write>, more: seq<Write>, left: nat)
    requires Total(writes) < left && forall i | 0 <= i < |writes| :: !writes[i].Failure?
    ensures Taken(writes + [Failure] + more, left) == (Total(writes), true)
  {
    var all := writes + [Failure] + more;
    if writes != [] {
      assert all[1..] == writes[1..] + [Failure] + more && all[0] == writes[0];
      TakenUpToFailure(writes[1..], more, left - if writes[0].Wrote? then writes[0].count else 0);
    }
  }

  class AppendOnlyFile {
    var file: string             // the bytes on disk
    var buf: string              // aof_buf
    var currentSize: nat         // aof_current_size
    var postponedSince: int      // aof_flush_postponed_start
    var lastWriteOk: bool        // aof_last_write_status
    var fsyncOffset: nat         // aof_fsync_offset: the size when fsync was last called or asked for
    var lastFsync: int           // aof_last_fsync
    ghost var appended: string   // everything ever handed over

    ghost predicate Valid()
      reads this
    {
      file + buf == appended && currentSize == |file| && fsyncOffset <= currentSize
    }

    // Nothing that was handed over is left to be synced.
    ghost predicate AllSynced()
      reads this
    {
      fsyncOffset == |appended|
    }

    constructor (contents: string)
      ensures Valid() && AllSynced() && file == contents && buf == "" && appended == contents
    {
      file, buf, currentSize, postponedSince, lastWriteOk := contents, "", |contents|, 0, true;
      fsyncOffset, lastFsync := |contents|, 0;
      appended := contents;
    }

    method Append(bytes: string)
      requires Valid()
      modifies this`buf, this`appended
      ensures Valid() && buf == old(buf) + bytes && appended == old(appended) + bytes
    {
      assert file + (buf + bytes) == (file + buf) + bytes;
      buf := buf + bytes;
      appended := appended + bytes;
    }

    // aofWrite: retries until everything is written or a call fails; -1 when nothing was written.
    method WriteAll(writes: seq<Write>) returns (written: int)
      modifies this`file
      ensures file == old(file) + buf[..Taken(writes, |buf|).0]
      ensures written == if Taken(writes, |buf|).0 == 0 && Taken(writes, |buf|).1 then -1 else Taken(writes, |buf|).0
    {
      var total, i := 0, 0;
      assert writes[0..] == writes;
      while total < |buf|
        invariant 0 <= total <= |buf| && i <= |writes| && file == old(file) + buf[..total]
        invariant Taken(writes, |buf|)
          == (total + Taken(writes[i..], |buf| - total).0, Taken(writes[i..], |buf| - total).1)
        decreases |writes| - i
      {
        if i == |writes| || writes[i].Failure? {
          return if total > 0 then total else -1;
        }
        assert writes[i..][1..] == writes[i + 1..];
        if writes[i].Wrote? && writes[i].count <= |buf| - total {
          var n := writes[i].count;
          assert buf[..total] + buf[total..total + n] == buf[..total + n];
          file := file + buf[total..total + n];
          total := total + n;
        }
        i := i + 1;
      }
      return total;
    }

    // A flush waits for a running fsync, but not for two seconds or more.
    predicate Postpones(policy: Fsync, force: bool, syncing: bool, now: int)
      reads this
    {
      policy.EverySecond? && !force && syncing && (postponedSince == 0 || now - postponedSince < 2)
    }

    // Whether a flush that gets to the end syncs: a background fsync starts once a second, unless one is running.
    predicate Syncs(policy: Fsync, suspended: bool, syncing: bool, now: int)
      reads this
    {
      !suspended && (policy.Always? || (policy.EverySecond? && now > lastFsync && !syncing))
    }

    /**
     flushAppendOnlyFile. `syncing` says that a background fsync is running, `suspended` that none is wanted
     because a child is writing, `truncates` whether ftruncate succeeds, and `exits` that the server gives up.
     */
    method Flush(policy: Fsync, force: bool, suspended: bool, syncing: bool, now: int,
                 writes: seq<Write>, truncates: bool)
      returns (exits: bool)
      requires Valid()
      modifies this
      ensures appended == old(appended) && old(file) <= file
      ensures exits <==> policy.Always? && old(buf) != "" && Taken(writes, |old(buf)|).1
      ensures !exits ==> Valid()
      ensures old(buf) == "" || old(Postpones(policy, force, syncing, now)) ==>
        !exits && file == old(file) && buf == old(buf) && lastWriteOk == old(lastWriteOk)
      ensures old(buf) == "" ==> postponedSince == old(postponedSince)
      ensures old(buf) != "" && policy.EverySecond? && !force && syncing ==>
        postponedSince == if old(postponedSince) == 0 then now
                          else if now - old(postponedSince) < 2 then old(postponedSince) else 0
      ensures !exits && old(buf) != "" && !old(Postpones(policy, force, syncing, now)) ==>
        postponedSince == 0 && lastWriteOk == !Taken(writes, |old(buf)|).1 && (lastWriteOk ==> buf == "")
      ensures !exits && Taken(writes, |old(buf)|).1 && truncates ==> file == old(file) && buf == old(buf)
      ensures !exits ==>
        (AllSynced() <==>
          || old(AllSynced())
          || (old(buf) == "" && policy.EverySecond? && old(Syncs(policy, suspended, syncing, now)))
          || (old(buf) != "" && old(Syncs(policy, suspended, syncing, now))
              && !old(Postpones(policy, force, syncing, now)) && !Taken(writes, |old(buf)|).1))
    {
      if buf == "" {
        if policy.EverySecond? && fsyncOffset != currentSize && now > lastFsync && !syncing {
          TryFsync(policy, suspended, false, now);
        }
        return false;
      }
      if policy.EverySecond? && !force && syncing {
        if postponedSince == 0 {
          postponedSince := now;
          return false;
        } else if now - postponedSince < 2 {
          return false;
        }
      }
      exits := WriteBuffer(policy, suspended, syncing, now, writes, truncates);
    }

    // The part of the flush that writes.
    method WriteBuffer(policy: Fsync, suspended: bool, syncing: bool, now: int, writes: seq<Write>, truncates: bool)
      returns (exits: bool)
      requires Valid() && buf != ""
      modifies this
      ensures appended == old(appended) && old(file) <= file
      ensures exits <==> policy.Always? && Taken(writes, |old(buf)|).1
      ensures !exits ==>
        Valid() && postponedSince == 0 && lastWriteOk == !Taken(writes, |old(buf)|).1 && (lastWriteOk ==> buf == "")
      ensures !exits && Taken(writes, |old(buf)|).1 && truncates ==> file == old(file) && buf == old(buf)
      ensures !exits ==>
        (AllSynced() <==> old(Syncs(policy, suspended, syncing, now)) && !Taken(writes, |old(buf)|).1)
    {
      ghost var before := file;
      var n := WriteAll(writes);
      postponedSince := 0;
      assert file[..|before|] == before;
      if n != |buf| {
        if n != -1 && truncates {
          file := file[..currentSize];
          n := -1;
        }
        if policy.Always? {
          return true;
        }
        lastWriteOk := false;
        if n > 0 {
          currentSize := currentSize + n;
          assert buf[..n] + buf[n..] == buf;
          buf := buf[n..];
        }
        return false;
      }
      lastWriteOk := true;
      currentSize := currentSize + n;
      assert buf[..n] == buf;
      buf := "";
      TryFsync(policy, suspended, syncing, now);
      return false;
    }

    method TryFsync(policy: Fsync, suspended: bool, syncing: bool, now: int)
      requires fsyncOffset <= currentSize
      modifies this`fsyncOffset, this`lastFsync
      ensures fsyncOffset == if old(Syncs(policy, suspended, syncing, now)) then currentSize else old(fsyncOffset)
      ensures lastFsync == if !suspended && (policy.Always? || (policy.EverySecond? && now > old(lastFsync)))
                           then now else old(lastFsync)
    {
      if suspended {
        return;
      }
      if policy.Always? {
        fsyncOffset := currentSize;
        lastFsync := now;
      } else if policy.EverySecond? && now > lastFsync {
        if !syncing {
          fsyncOffset := currentSize;
        }
        lastFsync := now;
      }
    }

    // The promise of appendfsync always: as long as fsync is not suspended, what was acknowledged is synced.
    method Acknowledge(bytes: string, force: bool, now: int, writes: seq<Write>, truncates: bool) returns (exits: bool)
      requires Valid() && AllSynced()
      modifies this
      ensures appended == old(appended) + bytes
      ensures !exits ==> Valid() && AllSynced() && file == appended
      ensures exits <==> bytes != "" && Taken(writes, |bytes|).1
    {
      assert buf == "";
      Append(bytes);
      exits := Flush(Always, force, false, false, now, writes, truncates);
    }
  }
}
