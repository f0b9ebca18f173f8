/** The bytes of 32-bit words, as numbers and as numbers of bits. */
module Lanes {
  import opened Bits
  import opened Bitfields

  // bitsinbyte.
  function ByteOnes(b: bv8): nat {
    Digit(BitOf(b, 0)) + Digit(BitOf(b, 1)) + Digit(BitOf(b, 2)) + Digit(BitOf(b, 3))
    + Digit(BitOf(b, 4)) + Digit(BitOf(b, 5)) + Digit(BitOf(b, 6)) + Digit(BitOf(b, 7))
  }

  // Four bytes loaded as a word, on a little-endian or a big-endian host.
  function Word(b0: bv8, b1: bv8, b2: bv8, b3: bv8, little: bool): bv32 {
    if little then (b0 as bv32) | ((b1 as bv32) << 8) | ((b2 as bv32) << 16) | ((b3 as bv32) << 24)
    else (b3 as bv32) | ((b2 as bv32) << 8) | ((b1 as bv32) << 16) | ((b0 as bv32) << 24)
  }

  function If(on: bool, n: nat): nat { if on then n else 0 }

  // The lowest byte of a word as a number, and the number of its bits.
  function LowByte(x: bv32): nat {
    If(x & 1 != 0, 1) + If(x & 2 != 0, 2) + If(x & 4 != 0, 4) + If(x & 8 != 0, 8)
    + If(x & 16 != 0, 16) + If(x & 32 != 0, 32) + If(x & 64 != 0, 64) + If(x & 128 != 0, 128)
  }

  function LowOnes(x: bv32): nat {
    If(x & 1 != 0, 1) + If(x & 2 != 0, 1) + If(x & 4 != 0, 1) + If(x & 8 != 0, 1)
    + If(x & 16 != 0, 1) + If(x & 32 != 0, 1) + If(x & 64 != 0, 1) + If(x & 128 != 0, 1)
  }

  function Number(x: bv32): nat {
    LowByte(x) + 0x100 * LowByte(x >> 8) + 0x10000 * LowByte(x >> 16) + 0x1000000 * LowByte(x >> 24)
  }

  // Counts the bits of all four bytes at once.
  function Swar(x0: bv32): bv32 {
    var x1 := x0 - ((x0 >> 1) & 0x55555555);
    var x2 := (x1 & 0x33333333) + ((x1 >> 2) & 0x33333333);
    (x2 + (x2 >> 4)) & 0x0F0F0F0F
  }

  lemma SwarByte0(x: bv32)
    ensures LowByte(Swar(x)) == LowOnes(x)
  {
  }

  lemma SwarByte1(x: bv32)
    ensures LowByte(Swar(x) >> 8) == LowOnes(x >> 8)
  {
  }

  lemma SwarByte2(x: bv32)
    ensures LowByte(Swar(x) >> 16) == LowOnes(x >> 16)
  {
  }

  lemma SwarByte3(x: bv32)
    ensures LowByte(Swar(x) >> 24) == LowOnes(x >> 24)
  {
  }

  lemma WordByte0(b0: bv8, b1: bv8, b2: bv8, b3: bv8)
    ensures LowOnes(Word(b0, b1, b2, b3, true)) == ByteOnes(b0)
  {
  }

  lemma WordByte1(b0: bv8, b1: bv8, b2: bv8, b3: bv8)
    ensures LowOnes(Word(b0, b1, b2, b3, true) >> 8) == ByteOnes(b1)
  {
  }

  lemma WordByte2(b0: bv8, b1: bv8, b2: bv8, b3: bv8)
    ensures LowOnes(Word(b0, b1, b2, b3, true) >> 16) == ByteOnes(b2)
  {
  }

  lemma WordByte3(b0: bv8, b1: bv8, b2: bv8, b3: bv8)
    ensures LowOnes(Word(b0, b1, b2, b3, true) >> 24) == ByteOnes(b3)
  {
  }

  lemma BigIsReversed(b0: bv8, b1: bv8, b2: bv8, b3: bv8)
    ensures Word(b0, b1, b2, b3, false) == Word(b3, b2, b1, b0, true)
  {
  }

  // Four lanes as one number.
  function Packed(a: nat, b: nat, c: nat, d: nat): nat { a + 0x100 * b + 0x10000 * c + 0x1000000 * d }

  lemma SwarNumber(x: bv32)
    ensures Number(Swar(x)) == Packed(LowOnes(x), LowOnes(x >> 8), LowOnes(x >> 16), LowOnes(x >> 24))
  {
    SwarByte0(x);
    SwarByte1(x);
    SwarByte2(x);
    SwarByte3(x);
  }

  lemma WordOnes(b0: bv8, b1: bv8, b2: bv8, b3: bv8)
    ensures Number(Swar(Word(b0, b1, b2, b3, true))) == Packed(ByteOnes(b0), ByteOnes(b1), ByteOnes(b2), ByteOnes(b3))
  {
    SwarNumber(Word(b0, b1, b2, b3, true));
    WordByte0(b0, b1, b2, b3);
    WordByte1(b0, b1, b2, b3);
    WordByte2(b0, b1, b2, b3);
    WordByte3(b0, b1, b2, b3);
  }

  const WORD := 0x1_0000_0000

  lemma PackedPlus(a: nat, b: nat, c: nat, d: nat, a': nat, b': nat, c': nat, d': nat)
    ensures Packed(a, b, c, d) + Packed(a', b', c', d') == Packed(a + a', b + b', c + c', d + d')
  {
  }

  lemma PackedFits(a: nat, b: nat, c: nat, d: nat)
    requires a <= 56 && b <= 56 && c <= 56 && d <= 56
    ensures Packed(a, b, c, d) % WORD == Packed(a, b, c, d)
  {
    assert Packed(a, b, c, d) < WORD;
  }

  // Multiplying by 0x01010101 adds all lanes into the top one.
  function TopLane(sum: nat): nat { sum * 0x01010101 % WORD / 0x1000000 }

  lemma TopLaneSums(a: nat, b: nat, c: nat, d: nat)
    requires a + b + c + d <= 255
    ensures TopLane(Packed(a, b, c, d)) == a + b + c + d
  {
    var low := a + 0x100 * (a + b) + 0x10000 * (a + b + c);
    var top := a + b + c + d;
    var over := b + c + d + 0x100 * (c + d) + 0x10000 * d;
    assert Packed(a, b, c, d) * 0x01010101 == over * WORD + (top * 0x1000000 + low);
    QuotientIs(Packed(a, b, c, d) * 0x01010101, WORD, over, top * 0x1000000 + low);
    QuotientIs(top * 0x1000000 + low, 0x1000000, top, low);
  }
}

/** Counting bits over bytes of which only this is known: their bits, their number, and the word count. */
module ByteReaders {
  import opened Bitfields
  import opened Lanes

  datatype Reader<!B> = Reader(
    bit: (B, nat) -> bool,
    ones: B -> nat,                    // the table of bits in a byte
    counted: (B, B, B, B) -> nat,      // four bytes as a word, bits counted per byte
    pack: Lane4 -> nat,                // four counts in one word
    plus: (nat, nat) -> nat,           // 32-bit addition
    top: nat -> nat)                   // the top byte of the word times 0x01010101

  datatype Lane4 = Lane4(a: nat, b: nat, c: nat, d: nat)

  function Total(l: Lane4): nat { l.a + l.b + l.c + l.d }

  function Plus(l: Lane4, m: Lane4): Lane4 { Lane4(l.a + m.a, l.b + m.b, l.c + m.c, l.d + m.d) }

  // The counts of w words.
  predicate Bounded(l: Lane4, w: nat) { l.a <= 8 * w && l.b <= 8 * w && l.c <= 8 * w && l.d <= 8 * w }

  ghost predicate OnesAt<B>(r: Reader<B>, b: B) {
    r.ones(b) == Digit(r.bit(b, 7)) + Digit(r.bit(b, 6)) + Digit(r.bit(b, 5)) + Digit(r.bit(b, 4))
                 + Digit(r.bit(b, 3)) + Digit(r.bit(b, 2)) + Digit(r.bit(b, 1)) + Digit(r.bit(b, 0))
  }

  // The four counts stand in the four lanes, in this or the other order.
  ghost predicate CountedAt<B>(r: Reader<B>, b0: B, b1: B, b2: B, b3: B) {
    || r.counted(b0, b1, b2, b3) == r.pack(Lane4(r.ones(b0), r.ones(b1), r.ones(b2), r.ones(b3)))
    || r.counted(b0, b1, b2, b3) == r.pack(Lane4(r.ones(b3), r.ones(b2), r.ones(b1), r.ones(b0)))
  }

  ghost predicate PlusAt<B>(r: Reader<B>, l: Lane4, m: Lane4) {
    Bounded(Plus(l, m), 7) ==> r.plus(r.pack(l), r.pack(m)) == r.pack(Plus(l, m))
  }

  ghost predicate TopAt<B>(r: Reader<B>, l: Lane4) { Bounded(l, 7) ==> r.top(r.pack(l)) == Total(l) }

  ghost predicate Lawful<B(!new)>(r: Reader<B>) {
    && (forall b :: OnesAt(r, b)) && (forall b0, b1, b2, b3 :: CountedAt(r, b0, b1, b2, b3))
    && (forall l, m :: PlusAt(r, l, m)) && (forall l :: TopAt(r, l))
  }

  predicate BitIn<B>(r: Reader<B>, s: seq<B>, k: nat) { k < 8 * |s| && r.bit(s[k / 8], 7 - k % 8) }

  // How many of the first n bits are set, bit by bit and byte by byte.
  function Ones<B>(r: Reader<B>, s: seq<B>, n: nat): nat {
    if n == 0 then 0 else Ones(r, s, n - 1) + Digit(BitIn(r, s, n - 1))
  }

  function Tally<B>(r: Reader<B>, s: seq<B>, n: nat): nat
    requires n <= |s|
  {
    if n == 0 then 0 else Tally(r, s, n - 1) + r.ones(s[n - 1])
  }

  lemma NextBit<B>(r: Reader<B>, s: seq<B>, i: nat, j: nat)
    requires i < |s| && j < 8
    ensures Ones(r, s, 8 * i + j + 1) == Ones(r, s, 8 * i + j) + Digit(r.bit(s[i], 7 - j))
  {
    assert (8 * i + j) / 8 == i && (8 * i + j) % 8 == j;
  }

  lemma TwoBits<B>(r: Reader<B>, s: seq<B>, i: nat, j: nat)
    requires i < |s| && j < 7
    ensures Ones(r, s, 8 * i + j + 2) == Ones(r, s, 8 * i + j) + Digit(r.bit(s[i], 7 - j)) + Digit(r.bit(s[i], 6 - j))
  {
    NextBit(r, s, i, j);
    NextBit(r, s, i, j + 1);
  }

  lemma FourBits<B>(r: Reader<B>, s: seq<B>, i: nat, j: nat)
    requires i < |s| && j < 5
    ensures Ones(r, s, 8 * i + j + 4) == Ones(r, s, 8 * i + j)
      + Digit(r.bit(s[i], 7 - j)) + Digit(r.bit(s[i], 6 - j)) + Digit(r.bit(s[i], 5 - j)) + Digit(r.bit(s[i], 4 - j))
  {
    TwoBits(r, s, i, j);
    TwoBits(r, s, i, j + 2);
  }

  function HighOnes<B>(r: Reader<B>, b: B): nat {
    Digit(r.bit(b, 7)) + Digit(r.bit(b, 6)) + Digit(r.bit(b, 5)) + Digit(r.bit(b, 4))
  }

  lemma HighHalf<B>(r: Reader<B>, s: seq<B>, i: nat)
    requires i < |s|
    ensures Ones(r, s, 8 * i + 4) == Ones(r, s, 8 * i) + HighOnes(r, s[i])
  {
    FourBits(r, s, i, 0);
  }

  lemma OneByte<B>(r: Reader<B>, s: seq<B>, i: nat)
    requires i < |s| && OnesAt(r, s[i])
    ensures Ones(r, s, 8 * i + 8) == Ones(r, s, 8 * i) + r.ones(s[i])
  {
    HighHalf(r, s, i);
    FourBits(r, s, i, 4);
  }

  lemma {:induction false} TallyIsOnes<B(!new)>(r: Reader<B>, s: seq<B>, n: nat)
    requires Lawful(r) && n <= |s|
    ensures Tally(r, s, n) == Ones(r, s, 8 * n)
  {
    if n > 0 {
      TallyIsOnes(r, s, n - 1);
      assert OnesAt(r, s[n - 1]);
      OneByte(r, s, n - 1);
    }
  }

  lemma OnesSmall<B>(r: Reader<B>, b: B)
    requires OnesAt(r, b)
    ensures r.ones(b) <= 8
  {
  }

  lemma TallyFour<B>(r: Reader<B>, s: seq<B>, i: nat)
    requires i + 4 <= |s|
    ensures Tally(r, s, i + 4) == Tally(r, s, i) + r.ones(s[i]) + r.ones(s[i + 1]) + r.ones(s[i + 2]) + r.ones(s[i + 3])
  {
    assert Tally(r, s, i + 2) == Tally(r, s, i) + r.ones(s[i]) + r.ones(s[i + 1]);
  }

  lemma AllSmall<B(!new)>(r: Reader<B>, b0: B, b1: B, b2: B, b3: B)
    requires Lawful(r)
    ensures r.ones(b0) <= 8 && r.ones(b1) <= 8 && r.ones(b2) <= 8 && r.ones(b3) <= 8
  {
    assert OnesAt(r, b0) && OnesAt(r, b1) && OnesAt(r, b2) && OnesAt(r, b3);
    OnesSmall(r, b0);
    OnesSmall(r, b1);
    OnesSmall(r, b2);
    OnesSmall(r, b3);
  }

  // Four more bytes, in the lanes of one word.
  lemma FourMore<B(!new)>(r: Reader<B>, s: seq<B>, i: nat) returns (l: Lane4)
    requires Lawful(r) && i + 4 <= |s|
    ensures Tally(r, s, i + 4) == Tally(r, s, i) + Total(l)
    ensures r.counted(s[i], s[i + 1], s[i + 2], s[i + 3]) == r.pack(l) && Bounded(l, 1)
  {
    TallyFour(r, s, i);
    AllSmall(r, s[i], s[i + 1], s[i + 2], s[i + 3]);
    assert CountedAt(r, s[i], s[i + 1], s[i + 2], s[i + 3]);
    l := Lane4(r.ones(s[i]), r.ones(s[i + 1]), r.ones(s[i + 2]), r.ones(s[i + 3]));
    if r.counted(s[i], s[i + 1], s[i + 2], s[i + 3]) != r.pack(l) {
      l := Lane4(l.d, l.c, l.b, l.a);
    }
  }

  // Twenty-eight bytes: the counts of seven words are added before the lanes are.
  method CountBlock<B(!new)>(r: Reader<B>, s: seq<B>, i: nat) returns (n: nat)
    requires Lawful(r) && i + 28 <= |s|
    ensures Tally(r, s, i + 28) == Tally(r, s, i) + n
  {
    ghost var l := FourMore(r, s, i);
    var sum := r.counted(s[i], s[i + 1], s[i + 2], s[i + 3]);
    for w := 1 to 7
      invariant sum == r.pack(l) && Bounded(l, w) && Tally(r, s, i + 4 * w) == Tally(r, s, i) + Total(l)
    {
      var at := i + 4 * w;
      ghost var m := FourMore(r, s, at);
      assert PlusAt(r, l, m);
      sum := r.plus(sum, r.counted(s[at], s[at + 1], s[at + 2], s[at + 3]));
      l := Plus(l, m);
    }
    assert TopAt(r, l);
    n := r.top(sum);
  }

  method CountBytes<B>(r: Reader<B>, s: seq<B>, from: nat, to: nat) returns (n: nat)
    requires from <= to <= |s|
    ensures Tally(r, s, to) == Tally(r, s, from) + n
  {
    n := 0;
    for i := from to to
      invariant Tally(r, s, i) == Tally(r, s, from) + n
    {
      n := n + r.ones(s[i]);
    }
  }

  // Bytes before the first aligned one, blocks of seven words, and the bytes that remain.
  method CountAll<B(!new)>(r: Reader<B>, s: seq<B>, skew: nat) returns (bits: nat)
    requires Lawful(r)
    ensures bits == Ones(r, s, 8 * |s|)
  {
    var i := if skew < |s| then skew else |s|;
    bits := CountBytes(r, s, 0, i);
    while |s| - i >= 28
      invariant i <= |s| && bits == Tally(r, s, i)
    {
      var n := CountBlock(r, s, i);
      bits := bits + n;
      i := i + 28;
    }
    var n := CountBytes(r, s, i, |s|);
    bits := bits + n;
    TallyIsOnes(r, s, |s|);
  }
}

/** Words put together from bits, and searched bit by bit. */
module BitWords {
  import opened Bits
  import opened Bitfields

  // The n bits from one on as a number, the first bit being the highest.
  function NumberOf(bit: nat -> bool, from: nat, n: nat): nat {
    if n == 0 then 0 else 2 * NumberOf(bit, from, n - 1) + Digit(bit(from + n - 1))
  }

  function FourAt(bit: nat -> bool, k: nat): nat {
    8 * Digit(bit(k)) + 4 * Digit(bit(k + 1)) + 2 * Digit(bit(k + 2)) + Digit(bit(k + 3))
  }

  lemma FourMoreBits(bit: nat -> bool, from: nat, n: nat)
    ensures NumberOf(bit, from, n + 4) == 16 * NumberOf(bit, from, n) + FourAt(bit, from + n)
  {
    assert NumberOf(bit, from, n + 2) == 2 * NumberOf(bit, from, n + 1) + Digit(bit(from + n + 1));
    assert NumberOf(bit, from, n + 4) == 2 * NumberOf(bit, from, n + 3) + Digit(bit(from + n + 3));
  }

  lemma EightMoreBits(bit: nat -> bool, from: nat, n: nat, k: nat)
    requires k == from + n
    ensures NumberOf(bit, from, n + 8) == 256 * NumberOf(bit, from, n) + 16 * FourAt(bit, k) + FourAt(bit, k + 4)
  {
    FourMoreBits(bit, from, n);
    FourMoreBits(bit, from, n + 4);
  }

  lemma {:induction false} NumberBit(bit: nat -> bool, from: nat, n: nat, k: nat)
    requires from <= k < from + n
    ensures ValueBit(NumberOf(bit, from, n), from + n - 1 - k) == bit(k)
  {
    if k < from + n - 1 {
      HalfBit(NumberOf(bit, from, n), from + n - 2 - k);
      NumberBit(bit, from, n - 1, k);
    }
  }

  lemma {:induction false} NumberZero(bit: nat -> bool, from: nat, n: nat)
    ensures NumberOf(bit, from, n) == 0 <==> forall k: nat | from <= k < from + n :: !bit(k)
  {
    if n > 0 {
      NumberZero(bit, from, n - 1);
    }
  }

  // The bits of a string of bytes, each with its highest bit first, and zeroes after the end.
  function BitsOf<B>(bit: (B, nat) -> bool, s: seq<B>): nat -> bool {
    (k: nat) => k / 8 < |s| && bit(s[k / 8], 7 - k % 8)
  }

  // The number that a byte is.
  function ByteNumber<B>(bit: (B, nat) -> bool, b: B): nat {
    16 * (8 * Digit(bit(b, 7)) + 4 * Digit(bit(b, 6)) + 2 * Digit(bit(b, 5)) + Digit(bit(b, 4)))
    + (8 * Digit(bit(b, 3)) + 4 * Digit(bit(b, 2)) + 2 * Digit(bit(b, 1)) + Digit(bit(b, 0)))
  }

  lemma BitsOfByte<B>(bit: (B, nat) -> bool, s: seq<B>, i: nat, m: nat)
    requires m < 8
    ensures BitsOf(bit, s)(8 * i + m) == (i < |s| && bit(s[i], 7 - m))
  {
    assert (8 * i + m) / 8 == i && (8 * i + m) % 8 == m;
  }

  function ByteAt<B>(bit: (B, nat) -> bool, s: seq<B>, i: nat): nat { if i < |s| then ByteNumber(bit, s[i]) else 0 }

  lemma HighHalfAt<B>(bit: (B, nat) -> bool, s: seq<B>, i: nat)
    requires i < |s|
    ensures FourAt(BitsOf(bit, s), 8 * i)
      == 8 * Digit(bit(s[i], 7)) + 4 * Digit(bit(s[i], 6)) + 2 * Digit(bit(s[i], 5)) + Digit(bit(s[i], 4))
  {
    BitsOfByte(bit, s, i, 0);
    BitsOfByte(bit, s, i, 1);
    BitsOfByte(bit, s, i, 2);
    BitsOfByte(bit, s, i, 3);
  }

  lemma LowHalfAt<B>(bit: (B, nat) -> bool, s: seq<B>, i: nat)
    requires i < |s|
    ensures FourAt(BitsOf(bit, s), 8 * i + 4)
      == 8 * Digit(bit(s[i], 3)) + 4 * Digit(bit(s[i], 2)) + 2 * Digit(bit(s[i], 1)) + Digit(bit(s[i], 0))
  {
    BitsOfByte(bit, s, i, 4);
    BitsOfByte(bit, s, i, 5);
    BitsOfByte(bit, s, i, 6);
    BitsOfByte(bit, s, i, 7);
  }

  function ByteFrom(bits: nat -> bool, i: nat): nat { 16 * FourAt(bits, 8 * i) + FourAt(bits, 8 * i + 4) }

  lemma WholeByte<B>(bit: (B, nat) -> bool, s: seq<B>, i: nat)
    ensures ByteFrom(BitsOf(bit, s), i) == ByteAt(bit, s, i)
  {
    if i < |s| {
      HighHalfAt(bit, s, i);
      LowHalfAt(bit, s, i);
    }
  }

  // The bytes of a string and zeroes after them, as numbers, are the bits eight by eight.
  ghost predicate Spelled<B>(bits: nat -> bool, number: B -> nat, s: seq<B>) {
    forall i: nat :: ByteFrom(bits, i) == if i < |s| then number(s[i]) else 0
  }

  lemma BytesSpelled<B>(bit: (B, nat) -> bool, s: seq<B>)
    ensures Spelled(BitsOf(bit, s), b => ByteNumber(bit, b), s)
  {
    var number := b => ByteNumber(bit, b);
    forall i: nat ensures ByteFrom(BitsOf(bit, s), i) == if i < |s| then number(s[i]) else 0 {
      WholeByte(bit, s, i);
    }
  }

  lemma ByteMore(bits: nat -> bool, i: nat, j: nat)
    ensures NumberOf(bits, 8 * i, 8 * j + 8) == 256 * NumberOf(bits, 8 * i, 8 * j) + ByteFrom(bits, i + j)
  {
    EightMoreBits(bits, 8 * i, 8 * j, 8 * (i + j));
  }

  // The word at byte i, the first byte being the highest, padded with zeroes.
  method LoadWord<B>(ghost bits: nat -> bool, number: B -> nat, s: seq<B>, i: nat) returns (word: nat)
    requires i <= |s| && Spelled(bits, number, s)
    ensures word == NumberOf(bits, 8 * i, 64)
  {
    word := 0;
    for j := 0 to 8
      invariant word == NumberOf(bits, 8 * i, 8 * j)
    {
      ByteMore(bits, i, j);
      word := 256 * word;
      if i + j < |s| {
        word := word + number(s[i + j]);
      }
    }
  }

  // The wanted bit is there, so that the mask does not run out before it is found.
  method ScanBits(ghost bit: nat -> bool, from: nat, size: nat, word: nat, wanted: bool, ghost last: nat)
    returns (pos: nat)
    requires word == NumberOf(bit, from, size) && from <= last < from + size && bit(last) == wanted
    ensures from <= pos <= last && bit(pos) == wanted && forall k: nat | from <= k < pos :: bit(k) != wanted
  {
    var one := Pow2(size - 1);
    pos := from;
    NumberBit(bit, from, size, from);
    while (word / one % 2 == 1) != wanted
      invariant from <= pos <= last && one == Pow2(from + size - 1 - pos) && (word / one % 2 == 1) == bit(pos)
      invariant forall k: nat | from <= k < pos :: bit(k) != wanted
      decreases last - pos
    {
      pos := pos + 1;
      NumberBit(bit, from, size, pos);
      one := one / 2;
    }
  }
}

/** Counting and finding bits in strings, whole words at a time, for every length and alignment. */
module BitScans {
  import opened Bits
  import opened Bitfields
  import opened Lanes
  import opened ByteReaders
  import opened BitWords

  // A bit of the string padded with zeroes on the right.
  predicate PaddedBit(s: seq<bv8>, k: nat) { k < 8 * |s| && BitAt(s, k) }

  predicate BitOrNot(b: bv8, i: nat) { i < 8 && BitOf(b, i) }

  function LittleCount(b0: bv8, b1: bv8, b2: bv8, b3: bv8): nat { Number(Swar(Word(b0, b1, b2, b3, true))) }

  function BigCount(b0: bv8, b1: bv8, b2: bv8, b3: bv8): nat { Number(Swar(Word(b0, b1, b2, b3, false))) }

  function PackLanes(l: Lane4): nat { Packed(l.a, l.b, l.c, l.d) }

  function Plus32(x: nat, y: nat): nat { (x + y) % WORD }

  function Bytes(little: bool): Reader<bv8> {
    Reader(BitOrNot, ByteOnes, if little then LittleCount else BigCount, PackLanes, Plus32, TopLane)
  }

  lemma PlusLaw(l: Lane4, m: Lane4)
    requires Bounded(Plus(l, m), 7)
    ensures Plus32(PackLanes(l), PackLanes(m)) == PackLanes(Plus(l, m))
  {
    PackedPlus(l.a, l.b, l.c, l.d, m.a, m.b, m.c, m.d);
    PackedFits(l.a + m.a, l.b + m.b, l.c + m.c, l.d + m.d);
    SameMod(PackLanes(l) + PackLanes(m), PackLanes(Plus(l, m)));
  }

  lemma SameMod(x: nat, p: nat)
    requires x == p && p % WORD == p
    ensures x % WORD == p
  {
  }

  lemma LittleLaw(b0: bv8, b1: bv8, b2: bv8, b3: bv8)
    ensures LittleCount(b0, b1, b2, b3) == Packed(ByteOnes(b0), ByteOnes(b1), ByteOnes(b2), ByteOnes(b3))
  {
    WordOnes(b0, b1, b2, b3);
  }

  lemma BigLaw(b0: bv8, b1: bv8, b2: bv8, b3: bv8)
    ensures BigCount(b0, b1, b2, b3) == Packed(ByteOnes(b3), ByteOnes(b2), ByteOnes(b1), ByteOnes(b0))
  {
    BigIsReversed(b0, b1, b2, b3);
    WordOnes(b3, b2, b1, b0);
  }

  lemma BytesLawful(little: bool)
    ensures Lawful(Bytes(little))
  {
    var r := Bytes(little);
    forall b ensures OnesAt(r, b) {
      OnesLaw(b, little);
    }
    forall b0, b1, b2, b3 ensures CountedAt(r, b0, b1, b2, b3) {
      CountLaw(b0, b1, b2, b3, little);
    }
    forall l, m ensures PlusAt(r, l, m) {
      if Bounded(Plus(l, m), 7) {
        PlusLaw(l, m);
      }
    }
    forall l: Lane4 ensures TopAt(r, l) {
      if Bounded(l, 7) {
        TopLaneSums(l.a, l.b, l.c, l.d);
      }
    }
  }

  lemma OnesLaw(b: bv8, little: bool)
    ensures OnesAt(Bytes(little), b)
  {
  }

  lemma CountLaw(b0: bv8, b1: bv8, b2: bv8, b3: bv8, little: bool)
    ensures CountedAt(Bytes(little), b0, b1, b2, b3)
  {
    if little {
      LittleLaw(b0, b1, b2, b3);
    } else {
      BigLaw(b0, b1, b2, b3);
    }
  }

  // How many of the first n bits are set.
  function OnesBefore(s: seq<bv8>, n: nat): nat {
    if n == 0 then 0 else OnesBefore(s, n - 1) + Digit(PaddedBit(s, n - 1))
  }

  lemma {:induction false} SameOnes(s: seq<bv8>, n: nat, little: bool)
    ensures Ones(Bytes(little), s, n) == OnesBefore(s, n)
  {
    if n > 0 {
      SameOnes(s, n - 1, little);
    }
  }

  /** redisPopcount: `skew` is how many bytes come before the first aligned one, `little` the host's byte order. */
  method Popcount(s: seq<bv8>, skew: nat, little: bool) returns (bits: nat)
    ensures bits == OnesBefore(s, 8 * |s|)
  {
    BytesLawful(little);
    bits := CountAll(Bytes(little), s, skew);
    SameOnes(s, 8 * |s|, little);
  }

  lemma BitOfByte(s: seq<bv8>, i: nat, j: nat)
    requires i < |s| && j < 8
    ensures BitAt(s, 8 * i + j) == BitOf(s[i], 7 - j)
  {
    assert (8 * i + j) / 8 == i && (8 * i + j) % 8 == j;
  }

  /******* The first set or clear bit *******/

  function SkipByte(bit: bool): bv8 { if bit then 0 else 0xFF }

  lemma SkippedByte(b: bv8, bit: bool, j: nat)
    requires j < 8 && b == SkipByte(bit)
    ensures BitOf(b, j) != bit
  {
  }

  lemma KeptByte(b: bv8, bit: bool)
    requires b != SkipByte(bit)
    ensures exists m: nat :: m < 8 && BitOf(b, m) == bit
  {
    assert || BitOf(b, 0) == bit || BitOf(b, 1) == bit || BitOf(b, 2) == bit || BitOf(b, 3) == bit
           || BitOf(b, 4) == bit || BitOf(b, 5) == bit || BitOf(b, 6) == bit || BitOf(b, 7) == bit;
  }

  ghost predicate NoneBefore(s: seq<bv8>, bit: bool, n: nat) {
    forall k: nat | k < n :: PaddedBit(s, k) != bit
  }

  lemma SkipOne(s: seq<bv8>, bit: bool, i: nat)
    requires i < |s| && s[i] == SkipByte(bit) && NoneBefore(s, bit, 8 * i)
    ensures NoneBefore(s, bit, 8 * i + 8)
  {
    forall k: nat | k < 8 * i + 8 ensures PaddedBit(s, k) != bit {
      if k >= 8 * i {
        SkippedByte(s[i], bit, 7 - k % 8);
      }
    }
  }

  /**
   redisBitpos: the first bit of the padded string that is `bit`, or -1 when a set bit is wanted and there is
   none.
   */
  method Bitpos(s: seq<bv8>, skew: nat, bit: bool) returns (pos: int)
    ensures pos == -1 ==> bit && forall k: nat | k < 8 * |s| :: !BitAt(s, k)
    ensures pos != -1 ==> 0 <= pos <= 8 * |s| && PaddedBit(s, pos) == bit && NoneBefore(s, bit, pos)
  {
    var i := 0;
    var found := false;
    while i < skew && i < |s| && !found
      invariant i <= |s| && NoneBefore(s, bit, 8 * i) && (found ==> i < |s| && s[i] != SkipByte(bit))
      decreases |s| - i, if found then 0 else 1
    {
      if s[i] != SkipByte(bit) {
        found := true;
      } else {
        SkipOne(s, bit, i);
        i := i + 1;
      }
    }
    if !found {
      i := SkipWords(s, bit, i);
    }
    pos := ScanWord(s, bit, i);
  }

  // Whole words of bytes that hold no such bit.
  method SkipWords(s: seq<bv8>, bit: bool, start: nat) returns (i: nat)
    requires start <= |s| && NoneBefore(s, bit, 8 * start)
    ensures i <= |s| && NoneBefore(s, bit, 8 * i)
    ensures |s| - i < 8 || exists j | i <= j < i + 8 :: s[j] != SkipByte(bit)
  {
    i := start;
    while |s| - i >= 8
      invariant i <= |s| && NoneBefore(s, bit, 8 * i)
    {
      if exists j | i <= j < i + 8 :: s[j] != SkipByte(bit) {
        return;
      }
      for j := 0 to 8
        invariant NoneBefore(s, bit, 8 * (i + j))
      {
        SkipOne(s, bit, i + j);
      }
      i := i + 8;
    }
  }

  function Padded(s: seq<bv8>): nat -> bool { BitsOf(BitOrNot, s) }

  lemma PaddedIs(s: seq<bv8>, k: nat)
    ensures Padded(s)(k) == PaddedBit(s, k)
  {
  }

  // The word at byte i, bit by bit from the highest; the mask never runs out of bits.
  method ScanWord(s: seq<bv8>, bit: bool, i: nat) returns (pos: int)
    requires i <= |s| && NoneBefore(s, bit, 8 * i)
    requires |s| - i < 8 || exists j | i <= j < |s| && j < i + 8 :: s[j] != SkipByte(bit)
    ensures pos == -1 ==> bit && forall k: nat | k < 8 * |s| :: !BitAt(s, k)
    ensures pos != -1 ==> 0 <= pos <= 8 * |s| && PaddedBit(s, pos) == bit && NoneBefore(s, bit, pos)
  {
    BytesSpelled(BitOrNot, s);
    var word := LoadWord(Padded(s), b => ByteNumber(BitOrNot, b), s, i);
    NumberZero(Padded(s), 8 * i, 64);
    if bit && word == 0 {
      NoneFurther(s, bit, i, 8 * i + 64);
      NothingInWord(s, bit, i);
      return -1;
    }
    ghost var last := Found(s, bit, i);
    pos := ScanBits(Padded(s), 8 * i, 64, word, bit, last);
    NoneFurther(s, bit, i, pos);
    PaddedIs(s, pos);
    assert pos > 8 * |s| ==> PaddedBit(s, 8 * |s|) != bit;
  }

  lemma NoneFurther(s: seq<bv8>, bit: bool, i: nat, n: nat)
    requires NoneBefore(s, bit, 8 * i) && forall k: nat | 8 * i <= k < n :: Padded(s)(k) != bit
    ensures NoneBefore(s, bit, n)
  {
    forall k: nat | k < n ensures PaddedBit(s, k) != bit {
      PaddedIs(s, k);
    }
  }

  // A word that is not all zeroes, or in which a zero is wanted, has the wanted bit.
  lemma Found(s: seq<bv8>, bit: bool, i: nat) returns (last: nat)
    requires i <= |s| && NoneBefore(s, bit, 8 * i) && (bit ==> NumberOf(Padded(s), 8 * i, 64) != 0)
    requires |s| - i < 8 || exists j | i <= j < |s| && j < i + 8 :: s[j] != SkipByte(bit)
    ensures 8 * i <= last < 8 * i + 64 && Padded(s)(last) == bit
  {
    NumberZero(Padded(s), 8 * i, 64);
    if forall k: nat | 8 * i <= k < 8 * i + 64 :: Padded(s)(k) != bit {
      NoneFurther(s, bit, i, 8 * i + 64);
      NothingInWord(s, bit, i);
      assert false;
    }
    last :| 8 * i <= last < 8 * i + 64 && Padded(s)(last) == bit;
  }

  // Sixty-four bits without the wanted one: the string has ended and has no set bit.
  lemma NothingInWord(s: seq<bv8>, bit: bool, i: nat)
    requires i <= |s| && NoneBefore(s, bit, 8 * i + 64)
    requires |s| - i < 8 || exists j | i <= j < |s| && j < i + 8 :: s[j] != SkipByte(bit)
    ensures bit && forall k: nat | k < 8 * |s| :: !BitAt(s, k)
  {
    forall j | i <= j < |s| && j < i + 8 ensures s[j] == SkipByte(bit) {
      ByteSkipped(s, bit, j);
    }
    assert |s| - i < 8;
    assert PaddedBit(s, 8 * |s|) != bit;
    forall k: nat | k < 8 * |s| ensures !BitAt(s, k) {
      assert PaddedBit(s, k) != bit;
    }
  }

  lemma ByteSkipped(s: seq<bv8>, bit: bool, j: nat)
    requires j < |s| && NoneBefore(s, bit, 8 * j + 8)
    ensures s[j] == SkipByte(bit)
  {
    if s[j] != SkipByte(bit) {
      KeptByte(s[j], bit);
      var m: nat :| m < 8 && BitOf(s[j], m) == bit;
      assert PaddedBit(s, 8 * j + (7 - m)) != bit;
      BitOfByte(s, j, 7 - m);
    }
  }
}
