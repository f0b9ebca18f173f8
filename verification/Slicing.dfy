/**
 Table-driven checksums, for any register whose byte step is linear.

 `T` is the register, `B` a message byte. Nothing here depends on the width of the
 register or on the generator, so the arguments about slicing are made only once.
 */
module Slicing {
  import opened Iteration

  datatype Ops<!T, !B> = Ops(
    step: T -> T,       // one byte step without input
    add: (T, T) -> T,   // exclusive-or
    zero: T,
    low: T -> T,        // the byte about to leave the register
    shr: T -> T,        // the register without that byte
    inject: B -> T,     // a byte as a word
    index: T -> int,    // the low byte as a table index
    byte: int -> B,     // the byte with a given value
    load: seq<B> -> T)  // the word that memory holds

  ghost predicate Additive<T(!new), B>(o: Ops<T, B>) {
    && (forall x, y :: o.add(x, y) == o.add(y, x))
    && (forall x, y, z :: o.add(o.add(x, y), z) == o.add(x, o.add(y, z)))
  }

  ghost predicate Linear<T(!new), B>(o: Ops<T, B>) {
    && (forall x, y :: o.step(o.add(x, y)) == o.add(o.step(x), o.step(y)))
    && (forall x {:trigger o.shr(x)} :: o.step(x) == o.add(o.step(o.low(x)), o.shr(x)))
  }

  // Only the low byte of a word is needed for the next step; the rest joins afterwards.
  ghost predicate Absorbs<T(!new), B>(o: Ops<T, B>) {
    forall r, w {:trigger o.add(r, o.low(w))} ::
      o.add(o.step(o.add(r, o.low(w))), o.shr(w)) == o.step(o.add(r, w))
  }

  // Zero is neutral, and eight shifts empty a word.
  ghost predicate RunsOut<T(!new), B>(o: Ops<T, B>) {
    && (forall x :: o.add(x, o.zero) == x)
    && (forall w :: Iterate(o.shr, w, 8) == o.zero)
  }

  // What the table walk relies on.
  ghost predicate Walkable<T(!new), B(!new)>(o: Ops<T, B>) {
    Linear(o) && Absorbs(o) && RunsOut(o) && Indexed(o) && LoadsLittle(o)
  }

  ghost predicate Indexed<T(!new), B(!new)>(o: Ops<T, B>) {
    && (forall x {:trigger o.index(x)} :: 0 <= o.index(x) < 256 && o.inject(o.byte(o.index(x))) == o.low(x))
    && (forall x, c {:trigger o.shr(o.add(x, o.inject(c)))} :: o.shr(o.add(x, o.inject(c))) == o.shr(x))
  }

  ghost predicate LoadsLittle<T, B(!new)>(o: Ops<T, B>) {
    forall s: seq<B> | |s| == 8 :: Spells(o, o.load(s), s)
  }

  // The register after the message s.
  function Checksum<T, B>(o: Ops<T, B>, r: T, s: seq<B>): T {
    if s == [] then r else Checksum(o, o.step(o.add(r, o.inject(s[0]))), s[1..])
  }

  lemma {:induction false} ChecksumConcat<T, B>(o: Ops<T, B>, r: T, s: seq<B>, t: seq<B>)
    ensures Checksum(o, r, s + t) == Checksum(o, Checksum(o, r, s), t)
    decreases |s|
  {
    if s == [] {
      assert s + t == t;
    } else {
      assert (s + t)[1..] == s[1..] + t;
      ChecksumConcat(o, o.step(o.add(r, o.inject(s[0]))), s[1..], t);
    }
  }

  lemma ChecksumSnoc<T, B>(o: Ops<T, B>, r: T, s: seq<B>, i: nat)
    requires i < |s|
    ensures Checksum(o, r, s[..i + 1]) == o.step(o.add(Checksum(o, r, s[..i]), o.inject(s[i])))
  {
    assert s[..i + 1] == s[..i] + [s[i]];
    ChecksumConcat(o, r, s[..i], [s[i]]);
    assert [s[i]][1..] == [];
  }

  // The table lookup: only the low byte of the sum needs the table.
  lemma StepLookup<T(!new), B>(o: Ops<T, B>, r: T, b: T)
    requires Linear(o)
    ensures o.step(o.add(r, b)) == o.add(o.step(o.low(o.add(r, b))), o.shr(o.add(r, b)))
  {
  }

  // w holds exactly the bytes s, the first byte lowest.
  ghost predicate Spells<T, B>(o: Ops<T, B>, w: T, s: seq<B>) {
    if s == [] then w == o.zero else o.low(w) == o.inject(s[0]) && Spells(o, o.shr(w), s[1..])
  }

  lemma AbsorbByte<T(!new), B>(o: Ops<T, B>, r: T, w: T)
    requires Additive(o) && Linear(o)
    ensures o.add(o.step(o.add(r, o.low(w))), o.shr(w)) == o.step(o.add(r, w))
  {
    calc {
      o.step(o.add(r, w));
      o.add(o.step(r), o.step(w));
      o.add(o.step(r), o.add(o.step(o.low(w)), o.shr(w)));
      o.add(o.add(o.step(r), o.step(o.low(w))), o.shr(w));
    }
  }

  // Linearity is all that absorption takes.
  lemma LinearAbsorbs<T(!new), B>(o: Ops<T, B>)
    requires Additive(o) && Linear(o)
    ensures Absorbs(o)
  {
    forall r, w ensures o.add(o.step(o.add(r, o.low(w))), o.shr(w)) == o.step(o.add(r, w)) {
      AbsorbByte(o, r, w);
    }
  }

  /** Feeding bytes one by one is adding the word that spells them and then running freely. */
  lemma {:induction false} ChecksumOfWord<T(!new), B>(o: Ops<T, B>, r: T, w: T, s: seq<B>)
    requires Absorbs(o) && RunsOut(o) && Spells(o, w, s)
    ensures Checksum(o, r, s) == Iterate(o.step, o.add(r, w), |s|)
    decreases |s|
  {
    if s != [] {
      assert o.add(r, o.inject(s[0])) == o.add(r, o.low(w));
      ChecksumOfWord(o, o.step(o.add(r, o.inject(s[0]))), o.shr(w), s[1..]);
    }
  }

  // The table entry for byte b in slice n - 1.
  function Entry<T, B>(o: Ops<T, B>, b: T, n: nat): T { Iterate(o.step, b, n) }

  function SliceSum<T, B>(o: Ops<T, B>, w: T, n: nat): T {
    if n == 0 then w else o.add(Entry(o, o.low(w), n), SliceSum(o, o.shr(w), n - 1))
  }

  lemma {:induction false} IterateAdd<T(!new), B>(o: Ops<T, B>, x: T, y: T, n: nat)
    requires Linear(o)
    ensures Iterate(o.step, o.add(x, y), n) == o.add(Iterate(o.step, x, n), Iterate(o.step, y, n))
  {
    IterateHomomorphism(o.step, o.add, x, y, n);
  }

  lemma IteratePeel<T(!new), B>(o: Ops<T, B>, w: T, n: nat)
    requires Linear(o) && n > 0
    ensures Iterate(o.step, w, n) == o.add(Entry(o, o.low(w), n), Iterate(o.step, o.shr(w), n - 1))
  {
    IterateAdd(o, o.step(o.low(w)), o.shr(w), n - 1);
  }

  /** Running a word freely is adding one table entry per byte. */
  lemma {:induction false} IterateSlices<T(!new), B>(o: Ops<T, B>, w: T, n: nat)
    requires Linear(o)
    ensures Iterate(o.step, w, n) == SliceSum(o, w, n)
    decreases n
  {
    if n > 0 {
      IteratePeel(o, w, n);
      IterateSlices(o, o.shr(w), n - 1);
    }
  }

  lemma SliceSumEight<T, B>(o: Ops<T, B>, w0: T, w1: T, w2: T, w3: T, w4: T, w5: T, w6: T, w7: T, w8: T)
    requires w1 == o.shr(w0) && w2 == o.shr(w1) && w3 == o.shr(w2) && w4 == o.shr(w3)
    requires w5 == o.shr(w4) && w6 == o.shr(w5) && w7 == o.shr(w6) && w8 == o.shr(w7)
    ensures SliceSum(o, w0, 8)
         == o.add(Entry(o, o.low(w0), 8), o.add(Entry(o, o.low(w1), 7), o.add(Entry(o, o.low(w2), 6),
            o.add(Entry(o, o.low(w3), 5), o.add(Entry(o, o.low(w4), 4), o.add(Entry(o, o.low(w5), 3),
            o.add(Entry(o, o.low(w6), 2), o.add(Entry(o, o.low(w7), 1), w8))))))))
  {
    assert SliceSum(o, w4, 4) == o.add(Entry(o, o.low(w4), 4), SliceSum(o, w5, 3));
    assert SliceSum(o, w5, 3) == o.add(Entry(o, o.low(w5), 3), SliceSum(o, w6, 2));
    assert SliceSum(o, w6, 2) == o.add(Entry(o, o.low(w6), 2), SliceSum(o, w7, 1));
    assert SliceSum(o, w7, 1) == o.add(Entry(o, o.low(w7), 1), w8);
    assert SliceSum(o, w0, 8) == o.add(Entry(o, o.low(w0), 8), SliceSum(o, w1, 7));
    assert SliceSum(o, w1, 7) == o.add(Entry(o, o.low(w1), 7), SliceSum(o, w2, 6));
    assert SliceSum(o, w2, 6) == o.add(Entry(o, o.low(w2), 6), SliceSum(o, w3, 5));
    assert SliceSum(o, w3, 5) == o.add(Entry(o, o.low(w3), 5), SliceSum(o, w4, 4));
  }

  /******* Tables *******/

  // Slice k of the table holds the register k + 1 byte steps after each byte.
  ghost predicate IsTable<T, B>(o: Ops<T, B>, t: array2<T>)
    reads t
  {
    && t.Length0 == 8 && t.Length1 == 256
    && forall k, n | 0 <= k < 8 && 0 <= n < 256 :: t[k, n] == Entry(o, o.inject(o.byte(n)), k + 1)
  }

  lemma Lookup<T(!new), B(!new)>(o: Ops<T, B>, t: array2<T>, k: nat, x: T)
    requires Indexed(o) && IsTable(o, t) && k < 8
    ensures t[k, o.index(x)] == Entry(o, o.low(x), k + 1)
  {
  }

  // The table form of one byte step.
  lemma StepByTable<T(!new), B(!new)>(o: Ops<T, B>, t: array2<T>, r: T, c: B)
    requires Linear(o) && Indexed(o) && IsTable(o, t)
    ensures o.add(t[0, o.index(o.add(r, o.inject(c)))], o.shr(r)) == o.step(o.add(r, o.inject(c)))
  {
    var x := o.add(r, o.inject(c));
    Lookup(o, t, 0, x);
    StepLookup(o, r, o.inject(c));
    assert Entry(o, o.low(x), 1) == o.step(o.low(x));
  }

  /** crcspeed64little: byte steps up to an aligned address, then whole words, then the rest. */
  method TableWalk<T(!new), B(!new)>(o: Ops<T, B>, t: array2<T>, crc0: T, data: seq<B>, address: nat) returns (crc: T)
    requires Walkable(o) && IsTable(o, t)
    ensures crc == Checksum(o, crc0, data)
  {
    var next;
    crc, next := UpToAligned(o, t, crc0, data, address);
    crc, next := WholeWords(o, t, crc0, data, crc, next);
    crc, next := OneByOne(o, t, crc0, data, crc, next);
    assert data[..next] == data;
  }

  method UpToAligned<T(!new), B(!new)>(o: Ops<T, B>, t: array2<T>, crc0: T, data: seq<B>, address: nat)
    returns (crc: T, next: nat)
    requires Walkable(o) && IsTable(o, t)
    ensures next <= |data| && crc == Checksum(o, crc0, data[..next])
  {
    crc, next := crc0, 0;
    assert data[..0] == [];
    while next < |data| && (address + next) % 8 != 0
      invariant next <= |data| && crc == Checksum(o, crc0, data[..next])
    {
      crc := ByteByTable(o, t, crc0, data, next, crc);
      next := next + 1;
    }
  }

  method WholeWords<T(!new), B(!new)>(o: Ops<T, B>, t: array2<T>, ghost crc0: T, data: seq<B>, crcIn: T, nextIn: nat)
    returns (crc: T, next: nat)
    requires Walkable(o) && IsTable(o, t)
    requires nextIn <= |data| && crcIn == Checksum(o, crc0, data[..nextIn])
    ensures next <= |data| && crc == Checksum(o, crc0, data[..next])
    ensures |data| - next < 8
  {
    crc, next := crcIn, nextIn;
    while |data| - next >= 8
      invariant next <= |data| && crc == Checksum(o, crc0, data[..next])
    {
      crc := WordByTable(o, t, crc0, data, next, crc);
      next := next + 8;
    }
  }

  method OneByOne<T(!new), B(!new)>(o: Ops<T, B>, t: array2<T>, ghost crc0: T, data: seq<B>, crcIn: T, nextIn: nat)
    returns (crc: T, next: nat)
    requires Walkable(o) && IsTable(o, t)
    requires nextIn <= |data| && crcIn == Checksum(o, crc0, data[..nextIn])
    ensures next == |data| && crc == Checksum(o, crc0, data[..next])
  {
    crc, next := crcIn, nextIn;
    while next < |data|
      invariant next <= |data| && crc == Checksum(o, crc0, data[..next])
    {
      crc := ByteByTable(o, t, crc0, data, next, crc);
      next := next + 1;
    }
  }

  method ByteByTable<T(!new), B(!new)>(o: Ops<T, B>, t: array2<T>, ghost crc0: T, data: seq<B>, next: nat, crc: T)
    returns (r: T)
    requires Walkable(o) && IsTable(o, t)
    requires next < |data| && crc == Checksum(o, crc0, data[..next])
    ensures r == Checksum(o, crc0, data[..next + 1])
  {
    r := o.add(t[0, o.index(o.add(crc, o.inject(data[next])))], o.shr(crc));
    StepByTable(o, t, crc, data[next]);
    ChecksumSnoc(o, crc0, data, next);
  }

  method WordByTable<T(!new), B(!new)>(o: Ops<T, B>, t: array2<T>, ghost crc0: T, data: seq<B>, next: nat, crc: T)
    returns (r: T)
    requires Walkable(o) && IsTable(o, t)
    requires next + 8 <= |data| && crc == Checksum(o, crc0, data[..next])
    ensures r == Checksum(o, crc0, data[..next + 8])
  {
    var w0 := o.add(crc, o.load(data[next..next + 8]));
    var w1 := o.shr(w0);
    var w2 := o.shr(w1);
    var w3 := o.shr(w2);
    var w4 := o.shr(w3);
    var w5 := o.shr(w4);
    var w6 := o.shr(w5);
    var w7 := o.shr(w6);
    r := o.add(t[7, o.index(w0)], o.add(t[6, o.index(w1)], o.add(t[5, o.index(w2)], o.add(t[4, o.index(w3)],
         o.add(t[3, o.index(w4)], o.add(t[2, o.index(w5)], o.add(t[1, o.index(w6)], t[0, o.index(w7)])))))));
    SlicesByTable(o, t, w0, w1, w2, w3, w4, w5, w6, w7);
    WordChecksum(o, crc0, data, next, crc);
  }

  lemma SlicesByTable<T(!new), B(!new)>(o: Ops<T, B>, t: array2<T>, w0: T, w1: T, w2: T, w3: T, w4: T, w5: T, w6: T,
                                        w7: T)
    requires Linear(o) && RunsOut(o) && Indexed(o) && IsTable(o, t)
    requires w1 == o.shr(w0) && w2 == o.shr(w1) && w3 == o.shr(w2) && w4 == o.shr(w3)
    requires w5 == o.shr(w4) && w6 == o.shr(w5) && w7 == o.shr(w6)
    ensures o.add(t[7, o.index(w0)], o.add(t[6, o.index(w1)], o.add(t[5, o.index(w2)], o.add(t[4, o.index(w3)],
            o.add(t[3, o.index(w4)], o.add(t[2, o.index(w5)], o.add(t[1, o.index(w6)], t[0, o.index(w7)])))))))
         == Iterate(o.step, w0, 8)
  {
    IterateSlices(o, w0, 8);
    SliceSumEight(o, w0, w1, w2, w3, w4, w5, w6, w7, o.shr(w7));
    IterateEight(o.shr, w0);
    Lookup(o, t, 7, w0);
    Lookup(o, t, 6, w1);
    Lookup(o, t, 5, w2);
    Lookup(o, t, 4, w3);
    Lookup(o, t, 3, w4);
    Lookup(o, t, 2, w5);
    Lookup(o, t, 1, w6);
    Lookup(o, t, 0, w7);
  }

  lemma WordChecksum<T(!new), B(!new)>(o: Ops<T, B>, crc0: T, data: seq<B>, next: nat, crc: T)
    requires Absorbs(o) && RunsOut(o) && LoadsLittle(o)
    requires next + 8 <= |data| && crc == Checksum(o, crc0, data[..next])
    ensures Checksum(o, crc0, data[..next + 8]) == Iterate(o.step, o.add(crc, o.load(data[next..next + 8])), 8)
  {
    var s := data[next..next + 8];
    ChecksumOfWord(o, crc, o.load(s), s);
    assert data[..next + 8] == data[..next] + s;
    ChecksumConcat(o, crc0, data[..next], s);
  }

  /******* Filling the tables *******/

  /**
   crcspeed64little_init. `first(n)` is the byte found at the address of the int n, and crcfn
   the checksum the tables are generated from; o is the register they belong to.
   */
  method FillTable<T(!new), B(!new)>(o: Ops<T, B>, crcfn: (T, seq<B>) -> T, first: int -> B, t: array2<T>)
    requires Linear(o) && Indexed(o)
    requires forall n | 0 <= n < 256 :: crcfn(o.zero, [first(n)]) == o.step(o.inject(o.byte(n)))
    requires t.Length0 == 8 && t.Length1 == 256
    modifies t
    ensures IsTable(o, t)
  {
    for n := 0 to 256
      invariant forall i | 0 <= i < n :: t[0, i] == o.step(o.inject(o.byte(i)))
    {
      t[0, n] := crcfn(o.zero, [first(n)]);
    }
    assert forall i | 0 <= i < 256 :: t[0, i] == Entry(o, o.inject(o.byte(i)), 1);
    for n := 0 to 256
      invariant forall i | 0 <= i < 256 :: t[0, i] == Entry(o, o.inject(o.byte(i)), 1)
      invariant forall k, i | 0 <= k < 8 && 0 <= i < n :: t[k, i] == Entry(o, o.inject(o.byte(i)), k + 1)
    {
      FillColumn(o, t, n);
    }
  }

  method FillColumn<T(!new), B(!new)>(o: Ops<T, B>, t: array2<T>, n: nat)
    requires Linear(o) && Indexed(o)
    requires t.Length0 == 8 && t.Length1 == 256 && n < 256
    requires forall i | 0 <= i < 256 :: t[0, i] == Entry(o, o.inject(o.byte(i)), 1)
    modifies t
    ensures forall k | 0 <= k < 8 :: t[k, n] == Entry(o, o.inject(o.byte(n)), k + 1)
    ensures forall k, i | 0 <= k < 8 && 0 <= i < 256 && (i != n || k == 0) :: t[k, i] == old(t[k, i])
  {
    var crc := t[0, n];
    ghost var b := o.inject(o.byte(n));
    for k := 1 to 8
      invariant crc == Entry(o, b, k)
      invariant forall j | 0 <= j < k :: t[j, n] == Entry(o, b, j + 1)
      invariant forall j, i | 0 <= j < 8 && 0 <= i < 256 && (i != n || j == 0) :: t[j, i] == old(t[j, i])
    {
      assert t[0, o.index(crc)] == o.step(o.low(crc));
      IterateOnce(o.step, b, k);
      crc := o.add(t[0, o.index(crc)], o.shr(crc));
      t[k, n] := crc;
    }
  }

  /******* The other byte order *******/

  // p is the register o held with its bytes reversed, on a machine that loads words that way.
  ghost predicate Reversed<T(!new), B(!new)>(o: Ops<T, B>, p: Ops<T, B>, rev: T -> T) {
    ReversedArithmetic(o, p, rev) && ReversedAccess(o, p, rev)
  }

  ghost predicate ReversedArithmetic<T(!new), B>(o: Ops<T, B>, p: Ops<T, B>, rev: T -> T) {
    && (forall x {:trigger rev(rev(x))} :: rev(rev(x)) == x)
    && (forall x, y {:trigger p.add(rev(x), rev(y))} :: p.add(rev(x), rev(y)) == rev(o.add(x, y)))
    && p.zero == rev(o.zero)
    && (forall x {:trigger p.step(rev(x))} :: p.step(rev(x)) == rev(o.step(x)))
  }

  ghost predicate ReversedAccess<T(!new), B(!new)>(o: Ops<T, B>, p: Ops<T, B>, rev: T -> T) {
    && (forall x {:trigger p.low(rev(x))} :: p.low(rev(x)) == rev(o.low(x)))
    && (forall x {:trigger p.shr(rev(x))} :: p.shr(rev(x)) == rev(o.shr(x)))
    && (forall c {:trigger p.inject(c)} :: p.inject(c) == rev(o.inject(c)))
    && (forall x {:trigger p.index(rev(x))} :: p.index(rev(x)) == o.index(x))
    && (forall n {:trigger p.byte(n)} :: p.byte(n) == o.byte(n))
    && (forall s {:trigger p.load(s)} :: p.load(s) == rev(o.load(s)))
  }

  lemma {:induction false} ReversedChecksum<T(!new), B(!new)>(o: Ops<T, B>, p: Ops<T, B>, rev: T -> T, r: T, s: seq<B>)
    requires Reversed(o, p, rev)
    ensures Checksum(p, rev(r), s) == rev(Checksum(o, r, s))
    decreases |s|
  {
    if s != [] {
      assert p.add(rev(r), p.inject(s[0])) == rev(o.add(r, o.inject(s[0])));
      ReversedChecksum(o, p, rev, o.step(o.add(r, o.inject(s[0]))), s[1..]);
    }
  }

  lemma {:induction false} ReversedEntry<T(!new), B(!new)>(o: Ops<T, B>, p: Ops<T, B>, rev: T -> T, b: T, n: nat)
    requires Reversed(o, p, rev)
    ensures Entry(p, rev(b), n) == rev(Entry(o, b, n))
    decreases n
  {
    if n > 0 {
      ReversedEntry(o, p, rev, o.step(b), n - 1);
    }
  }

  lemma {:induction false} ReversedShifts<T(!new), B(!new)>(o: Ops<T, B>, p: Ops<T, B>, rev: T -> T, w: T, n: nat)
    requires Reversed(o, p, rev)
    ensures Iterate(p.shr, rev(w), n) == rev(Iterate(o.shr, w, n))
    decreases n
  {
    if n > 0 {
      ReversedShifts(o, p, rev, o.shr(w), n - 1);
    }
  }

  lemma {:induction false} ReversedSpells<T(!new), B(!new)>(o: Ops<T, B>, p: Ops<T, B>, rev: T -> T, w: T, s: seq<B>)
    requires Reversed(o, p, rev) && Spells(o, w, s)
    ensures Spells(p, rev(w), s)
    decreases |s|
  {
    if s != [] {
      ReversedSpells(o, p, rev, o.shr(w), s[1..]);
    }
  }

  lemma ReversedLinear<T(!new), B(!new)>(o: Ops<T, B>, p: Ops<T, B>, rev: T -> T)
    requires Linear(o) && Reversed(o, p, rev)
    ensures Linear(p)
  {
    forall x, y ensures p.step(p.add(x, y)) == p.add(p.step(x), p.step(y)) {
      var u, v := rev(x), rev(y);
      assert x == rev(u) && y == rev(v);
      assert p.add(rev(u), rev(v)) == rev(o.add(u, v));
      assert p.add(rev(o.step(u)), rev(o.step(v))) == rev(o.add(o.step(u), o.step(v)));
    }
    forall x ensures p.step(x) == p.add(p.step(p.low(x)), p.shr(x)) {
      var u := rev(x);
      assert x == rev(u);
      assert p.low(rev(u)) == rev(o.low(u));
      assert p.step(rev(o.low(u))) == rev(o.step(o.low(u)));
      assert p.add(rev(o.step(o.low(u))), rev(o.shr(u))) == rev(o.add(o.step(o.low(u)), o.shr(u)));
    }
  }

  lemma ReversedAbsorbs<T(!new), B(!new)>(o: Ops<T, B>, p: Ops<T, B>, rev: T -> T)
    requires Absorbs(o) && Reversed(o, p, rev)
    ensures Absorbs(p)
  {
    forall r, w ensures p.add(p.step(p.add(r, p.low(w))), p.shr(w)) == p.step(p.add(r, w)) {
      var x, y := rev(r), rev(w);
      assert r == rev(x) && w == rev(y);
      assert p.low(rev(y)) == rev(o.low(y));
      assert p.add(rev(x), rev(o.low(y))) == rev(o.add(x, o.low(y)));
      assert p.step(rev(o.add(x, o.low(y)))) == rev(o.step(o.add(x, o.low(y))));
      assert p.shr(rev(y)) == rev(o.shr(y));
      assert p.add(rev(o.step(o.add(x, o.low(y)))), rev(o.shr(y))) == rev(o.add(o.step(o.add(x, o.low(y))), o.shr(y)));
      assert p.step(rev(o.add(x, y))) == rev(o.step(o.add(x, y)));
    }
  }

  lemma ReversedRunsOut<T(!new), B(!new)>(o: Ops<T, B>, p: Ops<T, B>, rev: T -> T)
    requires RunsOut(o) && Reversed(o, p, rev)
    ensures RunsOut(p)
  {
    forall x ensures p.add(x, p.zero) == x {
      assert x == rev(rev(x));
      assert p.add(rev(rev(x)), rev(o.zero)) == rev(o.add(rev(x), o.zero));
    }
    forall w ensures Iterate(p.shr, w, 8) == p.zero {
      ReversedShifts(o, p, rev, rev(w), 8);
      assert w == rev(rev(w));
    }
  }

  lemma ReversedIndexed<T(!new), B(!new)>(o: Ops<T, B>, p: Ops<T, B>, rev: T -> T)
    requires Indexed(o) && Reversed(o, p, rev)
    ensures Indexed(p)
  {
    forall x ensures 0 <= p.index(x) < 256 && p.inject(p.byte(p.index(x))) == p.low(x) {
      var u := rev(x);
      assert x == rev(u);
      assert p.index(rev(u)) == o.index(u);
      assert p.low(rev(u)) == rev(o.low(u));
    }
    forall x, c ensures p.shr(p.add(x, p.inject(c))) == p.shr(x) {
      var u := rev(x);
      assert x == rev(u);
      assert p.add(rev(u), rev(o.inject(c))) == rev(o.add(u, o.inject(c)));
      assert p.shr(rev(o.add(u, o.inject(c)))) == rev(o.shr(o.add(u, o.inject(c))));
    }
  }

  lemma ReversedWalkable<T(!new), B(!new)>(o: Ops<T, B>, p: Ops<T, B>, rev: T -> T)
    requires Walkable(o) && Reversed(o, p, rev)
    ensures Walkable(p)
  {
    ReversedLinear(o, p, rev);
    ReversedAbsorbs(o, p, rev);
    ReversedRunsOut(o, p, rev);
    ReversedIndexed(o, p, rev);
    forall s: seq<B> | |s| == 8 ensures Spells(p, p.load(s), s) {
      ReversedSpells(o, p, rev, o.load(s), s);
    }
  }

  /** crcspeed64big: on reversed tables and a reversed register, the walk computes the same checksum. */
  method ReversedTableWalk<T(!new), B(!new)>(ghost o: Ops<T, B>, p: Ops<T, B>, rev: T -> T, t: array2<T>, crc0: T,
                                             data: seq<B>, address: nat)
    returns (crc: T)
    requires Walkable(o) && Reversed(o, p, rev) && IsTable(p, t)
    ensures crc == Checksum(o, crc0, data)
  {
    ReversedWalkable(o, p, rev);
    crc := TableWalk(p, t, rev(crc0), data, address);
    ReversedChecksum(o, p, rev, crc0, data);
    crc := rev(crc);
  }

  // The second half of crcspeed64big_init: every entry of the little-endian tables is reversed.
  method ReverseTable<T(!new), B(!new)>(ghost o: Ops<T, B>, ghost p: Ops<T, B>, rev: T -> T, t: array2<T>)
    requires Reversed(o, p, rev) && IsTable(o, t)
    modifies t
    ensures IsTable(p, t)
  {
    for k := 0 to 8
      invariant forall j, i | 0 <= j < k && 0 <= i < 256 :: t[j, i] == rev(old(t[j, i]))
      invariant forall j, i | k <= j < 8 && 0 <= i < 256 :: t[j, i] == old(t[j, i])
    {
      for n := 0 to 256
        invariant forall j, i | 0 <= j < k && 0 <= i < 256 :: t[j, i] == rev(old(t[j, i]))
        invariant forall i | 0 <= i < n :: t[k, i] == rev(old(t[k, i]))
        invariant forall i | n <= i < 256 :: t[k, i] == old(t[k, i])
        invariant forall j, i | k < j < 8 && 0 <= i < 256 :: t[j, i] == old(t[j, i])
      {
        t[k, n] := rev(t[k, n]);
      }
    }
    forall k, n | 0 <= k < 8 && 0 <= n < 256
      ensures t[k, n] == Entry(p, p.inject(p.byte(n)), k + 1)
    {
      ReversedEntry(o, p, rev, o.inject(o.byte(n)), k + 1);
    }
  }
}
