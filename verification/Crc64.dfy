/**
 CRC-64 as used for RDB files and DUMP payloads: the bit-by-bit reference, the
 slicing-by-8 tables and the two endian-specific table walks.

 Both sides are measured against `Crc`, which feeds the message into a register that
 shifts right, a whole byte at a time; `Z` is one bit step of the reflected generator.
 */
module Crc64 {
  import opened Iteration
  import opened Slicing

  /******* Bit reversal *******/

  function Reflect(x: bv64): bv64 {
    var a := ((x >> 1) & 0x5555555555555555) | ((x & 0x5555555555555555) << 1);
    var b := ((a >> 2) & 0x3333333333333333) | ((a & 0x3333333333333333) << 2);
    var c := ((b >> 4) & 0x0f0f0f0f0f0f0f0f) | ((b & 0x0f0f0f0f0f0f0f0f) << 4);
    var d := ((c >> 8) & 0x00ff00ff00ff00ff) | ((c & 0x00ff00ff00ff00ff) << 8);
    var e := ((d >> 16) & 0x0000ffff0000ffff) | ((d & 0x0000ffff0000ffff) << 16);
    (e >> 32) | (e << 32)
  }

  // The reflecting loop: the lowest bits of d move to the end of r, 1, 2, 4, ... at a time.
  function Push1(r: bv64, d: bv64): bv64 { (r << 1) | (d & 1) }
  function Push2(r: bv64, d: bv64): bv64 { (r << 2) | (Reflect(d) >> 62) }
  function Push4(r: bv64, d: bv64): bv64 { (r << 4) | (Reflect(d) >> 60) }
  function Push8(r: bv64, d: bv64): bv64 { (r << 8) | (Reflect(d) >> 56) }
  function Push16(r: bv64, d: bv64): bv64 { (r << 16) | (Reflect(d) >> 48) }
  function Push32(r: bv64, d: bv64): bv64 { (r << 32) | (Reflect(d) >> 32) }
  function Push64(r: bv64, d: bv64): bv64 { Reflect(d) }

  function Shift(r: bv64): bv64 { r >> 1 }
  function Shift2(r: bv64): bv64 { r >> 2 }
  function Shift4(r: bv64): bv64 { r >> 4 }
  function Shift8(r: bv64): bv64 { r >> 8 }
  function Shift16(r: bv64): bv64 { r >> 16 }
  function Shift32(r: bv64): bv64 { r >> 32 }
  function Shift64(r: bv64): bv64 { 0 }

  lemma PushTwice1(r: bv64, d: bv64)
    ensures Push2(r, d) == Push1(Push1(r, d), Shift(d))
  {
  }

  lemma ShiftTwice1(d: bv64)
    ensures Shift2(d) == Shift(Shift(d))
  {
  }

  lemma PushTwice2(r: bv64, d: bv64)
    ensures Push4(r, d) == Push2(Push2(r, d), Shift2(d))
  {
  }

  lemma ShiftTwice2(d: bv64)
    ensures Shift4(d) == Shift2(Shift2(d))
  {
  }

  lemma PushTwice4(r: bv64, d: bv64)
    ensures Push8(r, d) == Push4(Push4(r, d), Shift4(d))
  {
  }

  lemma ShiftTwice4(d: bv64)
    ensures Shift8(d) == Shift4(Shift4(d))
  {
  }

  lemma PushTwice8(r: bv64, d: bv64)
    ensures Push16(r, d) == Push8(Push8(r, d), Shift8(d))
  {
  }

  lemma ShiftTwice8(d: bv64)
    ensures Shift16(d) == Shift8(Shift8(d))
  {
  }

  lemma PushTwice16(r: bv64, d: bv64)
    ensures Push32(r, d) == Push16(Push16(r, d), Shift16(d))
  {
  }

  lemma ShiftTwice16(d: bv64)
    ensures Shift32(d) == Shift16(Shift16(d))
  {
  }

  lemma PushTwice32(r: bv64, d: bv64)
    ensures Push64(r, d) == Push32(Push32(r, d), Shift32(d))
  {
  }

  lemma ShiftTwice32(d: bv64)
    ensures Shift64(d) == Shift32(Shift32(d))
  {
  }

  lemma FeedDouble1(d: bv64)
    ensures Feed(Push1, Shift, 0, d, 64) == Feed(Push2, Shift2, 0, d, 32)
  {
    forall y, m ensures Push2(y, m) == Push1(Push1(y, m), Shift(m)) { PushTwice1(y, m); }
    forall m ensures Shift2(m) == Shift(Shift(m)) { ShiftTwice1(m); }
    FeedDouble(Push1, Shift, Push2, Shift2, 0, d, 32);
  }

  lemma FeedDouble2(d: bv64)
    ensures Feed(Push2, Shift2, 0, d, 32) == Feed(Push4, Shift4, 0, d, 16)
  {
    forall y, m ensures Push4(y, m) == Push2(Push2(y, m), Shift2(m)) { PushTwice2(y, m); }
    forall m ensures Shift4(m) == Shift2(Shift2(m)) { ShiftTwice2(m); }
    FeedDouble(Push2, Shift2, Push4, Shift4, 0, d, 16);
  }

  lemma FeedDouble4(d: bv64)
    ensures Feed(Push4, Shift4, 0, d, 16) == Feed(Push8, Shift8, 0, d, 8)
  {
    forall y, m ensures Push8(y, m) == Push4(Push4(y, m), Shift4(m)) { PushTwice4(y, m); }
    forall m ensures Shift8(m) == Shift4(Shift4(m)) { ShiftTwice4(m); }
    FeedDouble(Push4, Shift4, Push8, Shift8, 0, d, 8);
  }

  lemma FeedDouble8(d: bv64)
    ensures Feed(Push8, Shift8, 0, d, 8) == Feed(Push16, Shift16, 0, d, 4)
  {
    forall y, m ensures Push16(y, m) == Push8(Push8(y, m), Shift8(m)) { PushTwice8(y, m); }
    forall m ensures Shift16(m) == Shift8(Shift8(m)) { ShiftTwice8(m); }
    FeedDouble(Push8, Shift8, Push16, Shift16, 0, d, 4);
  }

  lemma FeedDouble16(d: bv64)
    ensures Feed(Push16, Shift16, 0, d, 4) == Feed(Push32, Shift32, 0, d, 2)
  {
    forall y, m ensures Push32(y, m) == Push16(Push16(y, m), Shift16(m)) { PushTwice16(y, m); }
    forall m ensures Shift32(m) == Shift16(Shift16(m)) { ShiftTwice16(m); }
    FeedDouble(Push16, Shift16, Push32, Shift32, 0, d, 2);
  }

  lemma FeedDouble32(d: bv64)
    ensures Feed(Push32, Shift32, 0, d, 2) == Feed(Push64, Shift64, 0, d, 1)
  {
    forall y, m ensures Push64(y, m) == Push32(Push32(y, m), Shift32(m)) { PushTwice32(y, m); }
    forall m ensures Shift64(m) == Shift32(Shift32(m)) { ShiftTwice32(m); }
    FeedDouble(Push32, Shift32, Push64, Shift64, 0, d, 1);
  }

  // Sixty-four turns mirror the whole word.
  lemma PushesMirror(d: bv64)
    ensures Feed(Push1, Shift, 0, d, 64) == Reflect(d)
  {
    FeedDouble1(d);
    FeedDouble2(d);
    FeedDouble4(d);
    FeedDouble8(d);
    FeedDouble16(d);
    FeedDouble32(d);
    FeedOne(Push64, Shift64, 0, d, 1);
  }

  lemma ReflectInvolution(x: bv64)
    ensures Reflect(Reflect(x)) == x
  {
  }

  method CrcReflect(data: bv64, dataLen: nat) returns (ret: bv64)
    ensures ret == Feed(Push1, Shift, 0, data, if dataLen == 0 then 1 else dataLen)
    ensures dataLen == 64 ==> ret == Reflect(data)
  {
    ghost var n := if dataLen == 0 then 1 else dataLen;
    var d := data;
    ret := d & 0x01;
    FeedOne(Push1, Shift, 0, data, n);
    FirstPush(data);
    var i := 1;
    while i < dataLen
      invariant 1 <= i <= n && Feed(Push1, Shift, 0, data, n) == Feed(Push1, Shift, ret, Shift(d), n - i)
    {
      FeedOne(Push1, Shift, ret, Shift(d), n - i);
      d := d >> 1;
      ret := (ret << 1) | (d & 0x01);
      i := i + 1;
    }
    PushesMirror(data);
  }

  lemma FirstPush(d: bv64)
    ensures Push1(0, d) == d & 1
  {
  }

  /******* The register *******/

  function Xor(a: bv64, b: bv64): bv64 { a ^ b }

  // What the bit leaving the reflected register feeds back. The constant is the generator
  // 0xad93d23594c935a9 of `Step` with its 64 bits in the opposite order.
  function Tap(r: bv64): bv64 { if r & 1 == 0 then 0 else 0x95ac9329ac4bc9b5 }

  // One bit step of the reflected register, with no input.
  function Z(r: bv64): bv64 { Xor(Shift(r), Tap(r)) }

  function Z8(r: bv64): bv64 {
    Z(Z(Z(Z(Z(Z(Z(Z(r))))))))
  }

  function CrcByte(r: bv64, c: bv8): bv64 {
    Z8(Xor(r, c as bv64))
  }

  lemma XorMeaning(a: bv64, b: bv64, c: bv64, d: bv64)
    requires a == c && b == d
    ensures Xor(a, b) == c ^ d
  {
  }

  lemma XorCommutes(a: bv64, b: bv64)
    ensures Xor(a, b) == Xor(b, a)
  {
  }

  lemma XorBitsAssociate(a: bv64, b: bv64, c: bv64)
    ensures (a ^ b) ^ c == a ^ (b ^ c)
  {
  }

  lemma XorAssociates(a: bv64, b: bv64, c: bv64)
    ensures Xor(Xor(a, b), c) == Xor(a, Xor(b, c))
  {
    XorMeaning(a, b, a, b);
    XorMeaning(Xor(a, b), c, a ^ b, c);
    XorBitsAssociate(a, b, c);
    XorMeaning(b, c, b, c);
    XorMeaning(a, Xor(b, c), a, b ^ c);
  }

  lemma ShiftXor(a: bv64, b: bv64)
    ensures Shift(Xor(a, b)) == Xor(Shift(a), Shift(b))
  {
  }

  lemma LowBitXor(a: bv64, b: bv64)
    ensures Xor(a, b) & 1 == 0 <==> (a & 1 == 0 <==> b & 1 == 0)
  {
  }

  lemma TapCases(r: bv64)
    ensures r & 1 == 0 ==> Tap(r) == 0
    ensures r & 1 != 0 ==> Tap(r) == 0x95ac9329ac4bc9b5
  {
  }

  lemma TapXor(a: bv64, b: bv64)
    ensures Tap(Xor(a, b)) == Xor(Tap(a), Tap(b))
  {
    LowBitXor(a, b);
    TapCases(a);
    TapCases(b);
    TapCases(Xor(a, b));
    if a & 1 == 0 {
      if b & 1 == 0 {
        XorMeaning(Tap(a), Tap(b), 0, 0);
      } else {
        XorMeaning(Tap(a), Tap(b), 0, 0x95ac9329ac4bc9b5);
      }
    } else {
      if b & 1 == 0 {
        XorMeaning(Tap(a), Tap(b), 0x95ac9329ac4bc9b5, 0);
      } else {
        XorMeaning(Tap(a), Tap(b), 0x95ac9329ac4bc9b5, 0x95ac9329ac4bc9b5);
      }
    }
  }

  lemma ZXor(a: bv64, b: bv64)
    ensures Z(Xor(a, b)) == Xor(Z(a), Z(b))
  {
    forall x, y ensures Shift(Xor(x, y)) == Xor(Shift(x), Shift(y)) { ShiftXor(x, y); }
    forall x, y ensures Tap(Xor(x, y)) == Xor(Tap(x), Tap(y)) { TapXor(x, y); }
    forall x, y ensures Xor(x, y) == Xor(y, x) { XorCommutes(x, y); }
    forall x, y, w ensures Xor(Xor(x, y), w) == Xor(x, Xor(y, w)) { XorAssociates(x, y, w); }
    SumOfHomomorphisms(Z, Shift, Tap, Xor, a, b);
  }

  // Z, and so the whole register, is linear over exclusive-or.
  lemma Z8Xor(a: bv64, b: bv64)
    ensures Z8(Xor(a, b)) == Xor(Z8(a), Z8(b))
  {
    forall x, y ensures Z(Xor(x, y)) == Xor(Z(x), Z(y)) { ZXor(x, y); }
    IterateHomomorphism(Z, Xor, a, b, 8);
    IterateEight(Z, Xor(a, b));
    IterateEight(Z, a);
    IterateEight(Z, b);
  }

  function LowByte(m: bv64): bv64 { m & 0xff }

  function HighBytes(m: bv64): bv64 { m & 0xffffffffffffff00 }

  // What has eight zero bits below it moves down by one byte.
  lemma Z8OfHighBytes(m: bv64)
    ensures Z8(HighBytes(m)) == Shift8(m)
  {
  }

  lemma ByteAndRest(m: bv64)
    ensures Xor(LowByte(m), HighBytes(m)) == m
  {
  }

  /** One byte step splits into a lookup of the low byte and a shift. */
  lemma Z8Lookup(m: bv64)
    ensures Z8(m) == Xor(Z8(LowByte(m)), Shift8(m))
  {
    ByteAndRest(m);
    Z8Xor(LowByte(m), HighBytes(m));
    Z8OfHighBytes(m);
  }

  /******* Bit-by-bit reference *******/

  // One bit step of _crc64, whose register shifts left and takes in one message bit.
  function Step(crc: bv64, b: bool): bv64 {
    var bit := (crc & 0x8000000000000000 != 0) != b;
    if bit then (crc << 1) ^ 0xad93d23594c935a9 else crc << 1
  }

  // One step of the inner loop of _crc64, m holding the message bits still to come.
  function ReferenceStep(crc: bv64, m: bv64): bv64 { Step(crc, m & 1 != 0) }

  function ReferenceByte(crc: bv64, c: bv8): bv64 {
    Feed(ReferenceStep, Shift, crc, c as bv64, 8)
  }

  function Low(m: bv64): bv64 { m & 1 }

  function High(m: bv64): bv64 { m & 0xfffffffffffffffe }

  // The same step on the mirrored register.
  function MirrorStep(r: bv64, m: bv64): bv64 { Z(Xor(r, Low(m))) }

  lemma ReflectedShift(crc: bv64)
    ensures Reflect(crc << 1) == Reflect(crc) >> 1
  {
  }

  lemma ReflectedTopBit(crc: bv64)
    ensures crc & 0x8000000000000000 != 0 <==> Reflect(crc) & 1 != 0
  {
  }

  lemma ReflectedPolyShift(crc: bv64)
    ensures Reflect((crc << 1) ^ 0xad93d23594c935a9) == (Reflect(crc) >> 1) ^ 0x95ac9329ac4bc9b5
  {
  }

  lemma MirrorStepCases(r: bv64, m: bv64)
    ensures MirrorStep(r, m) == if (r & 1 != 0) != (m & 1 != 0) then (r >> 1) ^ 0x95ac9329ac4bc9b5 else r >> 1
  {
  }

  // Mirroring the register turns a left-shifting step into a right-shifting one.
  lemma StepMirrored(crc: bv64, m: bv64)
    ensures Reflect(ReferenceStep(crc, m)) == MirrorStep(Reflect(crc), m)
  {
    ReflectedTopBit(crc);
    MirrorStepCases(Reflect(crc), m);
    if (crc & 0x8000000000000000 != 0) != (m & 1 != 0) {
      ReflectedPolyShift(crc);
      assert ReferenceStep(crc, m) == (crc << 1) ^ 0xad93d23594c935a9;
    } else {
      ReflectedShift(crc);
      assert ReferenceStep(crc, m) == crc << 1;
    }
  }

  lemma LowAndHigh(m: bv64)
    ensures Xor(Low(m), High(m)) == m
  {
  }

  lemma ZOfHigh(m: bv64)
    ensures Z(High(m)) == Shift(m)
  {
  }

  // Only the lowest message bit matters now; the others move down with the register.
  lemma MirrorStepAbsorbs(r: bv64, m: bv64)
    ensures Xor(MirrorStep(r, m), Shift(m)) == Z(Xor(r, m))
  {
    LowAndHigh(m);
    XorAssociates(r, Low(m), High(m));
    ZXor(Xor(r, Low(m)), High(m));
    ZOfHigh(m);
  }

  lemma PendingByteRunsOut(c: bv8)
    ensures Iterate(Shift, c as bv64, 8) == 0
  {
    IterateEight(Shift, c as bv64);
  }

  lemma XorZero(x: bv64)
    ensures Xor(x, 0) == x
  {
  }

  /** Mirrored, the reference loop feeds a message byte all at once. */
  lemma ReferenceByteMirrored(crc: bv64, c: bv8)
    ensures Reflect(ReferenceByte(crc, c)) == CrcByte(Reflect(crc), c)
  {
    forall y, k ensures Reflect(ReferenceStep(y, k)) == MirrorStep(Reflect(y), k) { StepMirrored(y, k); }
    forall y, k ensures Xor(MirrorStep(y, k), Shift(k)) == Z(Xor(y, k)) { MirrorStepAbsorbs(y, k); }
    var m := c as bv64;
    FeedMirrored(ReferenceStep, MirrorStep, Reflect, Shift, crc, m, 8);
    FeedAtOnce(MirrorStep, Z, Xor, Shift, Reflect(crc), m, 8);
    PendingByteRunsOut(c);
    XorZero(Feed(MirrorStep, Shift, Reflect(crc), m, 8));
    IterateEight(Z, Xor(Reflect(crc), m));
  }

  method ReferenceBit(crc0: bv64, c: bv8, i: bv8) returns (crc: bv64)
    ensures crc == Step(crc0, c & i != 0)
  {
    var bit := crc0 & 0x8000000000000000 != 0;
    if c & i != 0 {
      bit := !bit;
    }
    crc := crc0 << 1;
    if bit {
      crc := crc ^ 0xad93d23594c935a9;
    }
  }

  method ReferenceByteLoop(crc0: bv64, c: bv8) returns (crc: bv64)
    ensures crc == ReferenceByte(crc0, c)
  {
    crc := crc0;
    var i: bv8 := 0x01;
    ghost var k := 0;
    while i & 0xff != 0
      invariant k <= 8 && i == BitMask(k)
      invariant ReferenceByte(crc0, c) == Feed(ReferenceStep, Shift, crc, BitsFrom(c, k), 8 - k)
      decreases 8 - k
    {
      MaskNotEmpty(i, k);
      FeedOne(ReferenceStep, Shift, crc, BitsFrom(c, k), 8 - k);
      MaskedStep(crc, c, i, k);
      MaskShift(i, k);
      crc := ReferenceBit(crc, c, i);
      i := i << 1;
      k := k + 1;
    }
    MaskNotEmpty(i, k);
  }

  // 1 << k in eight bits.
  function BitMask(k: nat): bv8
    requires k <= 8
  {
    match k
    case 0 => 0x01 case 1 => 0x02 case 2 => 0x04 case 3 => 0x08
    case 4 => 0x10 case 5 => 0x20 case 6 => 0x40 case 7 => 0x80 case _ => 0
  }

  // The bits of c from bit k upwards.
  function BitsFrom(c: bv8, k: nat): bv64
    requires k <= 8
  {
    if k == 0 then c as bv64 else Shift(BitsFrom(c, k - 1))
  }

  lemma MaskNotEmpty(i: bv8, k: nat)
    requires k <= 8 && i == BitMask(k)
    ensures i & 0xff != 0 <==> k < 8
  {
  }

  lemma MaskShift(i: bv8, k: nat)
    requires k < 8 && i == BitMask(k)
    ensures i << 1 == BitMask(k + 1)
  {
  }

  lemma MaskedBit(c: bv8, i: bv8, k: nat)
    requires k < 8 && i == BitMask(k)
    ensures c & i != 0 <==> BitsFrom(c, k) & 1 != 0
  {
    BitsFromShift(c);
  }

  lemma MaskedStep(crc: bv64, c: bv8, i: bv8, k: nat)
    requires k < 8 && i == BitMask(k)
    ensures Step(crc, c & i != 0) == ReferenceStep(crc, BitsFrom(c, k))
    ensures Shift(BitsFrom(c, k)) == BitsFrom(c, k + 1)
  {
    MaskedBit(c, i, k);
  }

  lemma BitsFromShift(c: bv8)
    ensures BitsFrom(c, 1) == (c as bv64) >> 1 && BitsFrom(c, 2) == (c as bv64) >> 2
    ensures BitsFrom(c, 3) == (c as bv64) >> 3 && BitsFrom(c, 4) == (c as bv64) >> 4
    ensures BitsFrom(c, 5) == (c as bv64) >> 5 && BitsFrom(c, 6) == (c as bv64) >> 6
    ensures BitsFrom(c, 7) == (c as bv64) >> 7
  {
    assert BitsFrom(c, 1) == Shift(BitsFrom(c, 0));
    assert BitsFrom(c, 2) == Shift(BitsFrom(c, 1));
    assert BitsFrom(c, 3) == Shift(BitsFrom(c, 2));
    assert BitsFrom(c, 4) == Shift(BitsFrom(c, 3));
    assert BitsFrom(c, 5) == Shift(BitsFrom(c, 4));
    assert BitsFrom(c, 6) == Shift(BitsFrom(c, 5));
    assert BitsFrom(c, 7) == Shift(BitsFrom(c, 6));
  }

  /******* 64-bit words *******/

  function Widen(c: bv8): bv64 { c as bv64 }

  // x & 0xff as an array index.
  function Index(x: bv64): int { ((x & 0xff) as bv8) as int }

  function ByteOf(n: int): bv8 { if 0 <= n < 256 then n as bv8 else 0 }

  // The word at an address that holds the bytes s, on a little-endian machine.
  function LoadLittle(s: seq<bv8>): bv64 {
    if |s| != 8 then 0 else
      Join(s[0], Join(s[1], Join(s[2], Join(s[3], Join(s[4], Join(s[5], Join(s[6], Join(s[7], 0))))))))
  }

  // c below the bytes of m.
  function Join(c: bv8, m: bv64): bv64 { (m << 8) | (c as bv64) }

  function Word64(): Ops<bv64, bv8> {
    Ops(Z8, Xor, 0, LowByte, Shift8, Widen, Index, ByteOf, LoadLittle)
  }

  /** The checksum register after the message s. */
  function Crc(r: bv64, s: seq<bv8>): bv64 { Checksum(Word64(), r, s) }

  lemma WordsAdditive()
    ensures Additive(Word64())
  {
    forall x, y ensures Xor(x, y) == Xor(y, x) { XorCommutes(x, y); }
    forall x, y, z ensures Xor(Xor(x, y), z) == Xor(x, Xor(y, z)) { XorAssociates(x, y, z); }
  }

  lemma WordsLinear()
    ensures Linear(Word64())
  {
    forall x, y ensures Z8(Xor(x, y)) == Xor(Z8(x), Z8(y)) { Z8Xor(x, y); }
    forall x ensures Z8(x) == Xor(Z8(LowByte(x)), Shift8(x)) { Z8Lookup(x); }
  }

  lemma WordsRunOut()
    ensures RunsOut(Word64())
  {
    forall x ensures Xor(x, 0) == x { XorZero(x); }
    forall w ensures Iterate(Shift8, w, 8) == 0 { EightShifts(w); }
  }

  lemma EightShifts(w: bv64)
    ensures Iterate(Shift8, w, 8) == 0
  {
    IterateEight(Shift8, w);
  }

  lemma IndexRoundTrip(c: bv8)
    ensures 0 <= c as int < 256 && (c as int) as bv8 == c
  {
  }

  lemma IndexLaw(x: bv64)
    ensures 0 <= Index(x) < 256 && Widen(ByteOf(Index(x))) == LowByte(x)
  {
    IndexRoundTrip((x & 0xff) as bv8);
  }

  lemma ByteDoesNotReach(x: bv64, c: bv8)
    ensures Shift8(Xor(x, Widen(c))) == Shift8(x)
  {
  }

  lemma WordsIndexed()
    ensures Indexed(Word64())
  {
    forall x ensures 0 <= Index(x) < 256 && Widen(ByteOf(Index(x))) == LowByte(x) { IndexLaw(x); }
    forall x, c ensures Shift8(Xor(x, Widen(c))) == Shift8(x) { ByteDoesNotReach(x, c); }
  }

  lemma JoinParts(c: bv8, m: bv64)
    requires m < 0x100000000000000
    ensures LowByte(Join(c, m)) == Widen(c) && Shift8(Join(c, m)) == m
  {
  }

  lemma JoinBounds(c: bv8, m: bv64)
    ensures m == 0 ==> Join(c, m) < 0x100
    ensures m < 0x100 ==> Join(c, m) < 0x10000
    ensures m < 0x10000 ==> Join(c, m) < 0x1000000
    ensures m < 0x1000000 ==> Join(c, m) < 0x100000000
    ensures m < 0x100000000 ==> Join(c, m) < 0x10000000000
    ensures m < 0x10000000000 ==> Join(c, m) < 0x1000000000000
    ensures m < 0x1000000000000 ==> Join(c, m) < 0x100000000000000
  {
  }

  lemma JoinSpells(o: Ops<bv64, bv8>, c: bv8, m: bv64, s: seq<bv8>)
    requires o.low == LowByte && o.shr == Shift8 && o.inject == Widen
    requires m < 0x100000000000000 && Spells(o, m, s)
    ensures Spells(o, Join(c, m), [c] + s)
  {
    JoinParts(c, m);
    assert ([c] + s)[1..] == s;
  }

  // What is being spelled only depends on how words are taken apart.
  lemma LoadSpells(o: Ops<bv64, bv8>, s: seq<bv8>)
    requires o.low == LowByte && o.shr == Shift8 && o.inject == Widen && o.zero == 0
    requires |s| == 8
    ensures Spells(o, LoadLittle(s), s)
  {
    var m7 := Join(s[7], 0);
    var m6 := Join(s[6], m7);
    var m5 := Join(s[5], m6);
    var m4 := Join(s[4], m5);
    var m3 := Join(s[3], m4);
    var m2 := Join(s[2], m3);
    var m1 := Join(s[1], m2);
    JoinBounds(s[7], 0);
    JoinBounds(s[6], m7);
    JoinBounds(s[5], m6);
    JoinBounds(s[4], m5);
    JoinBounds(s[3], m4);
    JoinBounds(s[2], m3);
    JoinBounds(s[1], m2);
    JoinSpells(o, s[7], 0, []);
    JoinSpells(o, s[6], m7, [s[7]] + []);
    JoinSpells(o, s[5], m6, [s[6]] + ([s[7]] + []));
    JoinSpells(o, s[4], m5, [s[5]] + ([s[6]] + ([s[7]] + [])));
    JoinSpells(o, s[3], m4, [s[4]] + ([s[5]] + ([s[6]] + ([s[7]] + []))));
    JoinSpells(o, s[2], m3, [s[3]] + ([s[4]] + ([s[5]] + ([s[6]] + ([s[7]] + [])))));
    JoinSpells(o, s[1], m2, [s[2]] + ([s[3]] + ([s[4]] + ([s[5]] + ([s[6]] + ([s[7]] + []))))));
    JoinSpells(o, s[0], m1, [s[1]] + ([s[2]] + ([s[3]] + ([s[4]] + ([s[5]] + ([s[6]] + ([s[7]] + [])))))));
    assert s == [s[0]] + ([s[1]] + ([s[2]] + ([s[3]] + ([s[4]] + ([s[5]] + ([s[6]] + ([s[7]] + [])))))));
  }

  lemma WordsWalkable()
    ensures Walkable(Word64())
  {
    WordsAdditive();
    WordsLinear();
    LinearAbsorbs(Word64());
    WordsRunOut();
    WordsIndexed();
    forall s: seq<bv8> | |s| == 8 ensures Spells(Word64(), Word64().load(s), s) { LoadSpells(Word64(), s); }
  }

  /******* The reference *******/

  lemma CrcByteStep(r: bv64, c: bv8)
    ensures CrcByte(r, c) == Word64().step(Word64().add(r, Word64().inject(c)))
  {
  }

  lemma CrcSnoc(r: bv64, s: seq<bv8>, i: nat)
    requires i < |s|
    ensures Crc(r, s[..i + 1]) == CrcByte(Crc(r, s[..i]), s[i])
  {
    ChecksumSnoc(Word64(), r, s, i);
    CrcByteStep(Crc(r, s[..i]), s[i]);
  }

  lemma CrcEmpty(r: bv64)
    ensures Crc(r, []) == r
  {
  }

  // The register of _crc64 after it has taken in the data.
  function ReferenceRegister(crc: bv64, data: seq<bv8>): bv64
    decreases |data|
  {
    if data == [] then crc
    else ReferenceByte(ReferenceRegister(crc, data[..|data| - 1]), data[|data| - 1])
  }

  // What _crc64 returns.
  function ReferenceValue(crc: bv64, data: seq<bv8>): bv64 { Reflect(ReferenceRegister(crc, data)) }

  lemma RegisterSnoc(crc: bv64, data: seq<bv8>, i: nat)
    requires i < |data|
    ensures ReferenceRegister(crc, data[..i + 1]) == ReferenceByte(ReferenceRegister(crc, data[..i]), data[i])
  {
    assert data[..i + 1][..i] == data[..i];
  }

  /** _crc64: the loop over the data, then the register mirrored. */
  method ReferenceCrc64(crc: bv64, data: seq<bv8>) returns (r: bv64)
    ensures r == ReferenceValue(crc, data)
  {
    var c := crc;
    assert data[..0] == [];
    for offset := 0 to |data|
      invariant c == ReferenceRegister(crc, data[..offset])
    {
      RegisterSnoc(crc, data, offset);
      c := ReferenceByteLoop(c, data[offset]);
    }
    assert data[..|data|] == data;
    r := CrcReflect(c, 64);
  }

  /** The left-shifting reference computes, byte by byte and mirrored at both ends, the right-shifting checksum. */
  lemma {:induction false} ReferenceMirrored(crc: bv64, data: seq<bv8>)
    ensures ReferenceValue(crc, data) == Crc(Reflect(crc), data)
    decreases |data|
  {
    if data == [] {
      CrcEmpty(Reflect(crc));
    } else {
      var n := |data| - 1;
      ReferenceMirrored(crc, data[..n]);
      ReferenceByteMirrored(ReferenceRegister(crc, data[..n]), data[n]);
      CrcSnoc(Reflect(crc), data, n);
      assert data[..n + 1] == data;
    }
  }

  lemma ReflectZero()
    ensures Reflect(0) == 0
  {
  }

  /******* Little-endian hosts *******/

  // The first byte in memory of the 32-bit int n.
  function LittleFirst(n: int): bv8 { ByteOf(n % 256) }
  function BigFirst(n: int): bv8 { ByteOf(n / 0x1000000) }

  lemma XorZeroLeft(x: bv64)
    ensures Xor(0, x) == x
  {
  }

  lemma CrcOfByte(c: bv8)
    ensures Crc(0, [c]) == Z8(Widen(c))
  {
    CrcEmpty(0);
    CrcSnoc(0, [c], 0);
    assert [c][..1] == [c] && [c][..0] == [];
    XorZeroLeft(Widen(c));
  }

  lemma ReferenceFromZero(data: seq<bv8>)
    ensures ReferenceValue(0, data) == Crc(0, data)
  {
    ReferenceMirrored(0, data);
    ReflectZero();
  }

  lemma SingleByte(c: bv8)
    ensures ReferenceValue(0, [c]) == Z8(Widen(c))
  {
    ReferenceFromZero([c]);
    CrcOfByte(c);
  }

  method LittleInit(t: array2<bv64>)
    requires t.Length0 == 8 && t.Length1 == 256
    modifies t
    ensures IsTable(Word64(), t)
  {
    WordsLinear();
    WordsIndexed();
    forall n | 0 <= n < 256
      ensures ReferenceValue(Word64().zero, [LittleFirst(n)]) == Word64().step(Word64().inject(Word64().byte(n)))
    {
      SingleByte(LittleFirst(n));
    }
    FillTable(Word64(), ReferenceValue, LittleFirst, t);
  }

  /** crc64 on a little-endian host. */
  method LittleCrc64(t: array2<bv64>, crc: bv64, data: seq<bv8>, address: nat) returns (r: bv64)
    requires IsTable(Word64(), t)
    ensures r == Crc(crc, data)
  {
    WordsWalkable();
    r := TableWalk(Word64(), t, crc, data, address);
  }

  /** The fast form and the reference agree, and the reference's start value is mirrored. */
  lemma FastFormRefinesReference(crc: bv64, data: seq<bv8>)
    ensures Crc(0, data) == ReferenceValue(0, data)
    ensures Crc(crc, data) == ReferenceValue(Reflect(crc), data)
  {
    ReferenceFromZero(data);
    ReferenceMirrored(Reflect(crc), data);
    ReflectInvolution(crc);
  }

  /** Checksums can be resumed, as the incremental callers of crc64 do. */
  lemma CrcResumes(crc: bv64, s: seq<bv8>, t: seq<bv8>)
    ensures Crc(Crc(crc, s), t) == Crc(crc, s + t)
  {
    ChecksumConcat(Word64(), crc, s, t);
  }

  /******* Big-endian hosts *******/

  // rev8: the bytes of a word in the opposite order.
  function Rev8(x: bv64): bv64 {
    var a := ((x >> 8) & 0x00ff00ff00ff00ff) | ((x & 0x00ff00ff00ff00ff) << 8);
    var b := ((a >> 16) & 0x0000ffff0000ffff) | ((a & 0x0000ffff0000ffff) << 16);
    (b >> 32) | (b << 32)
  }

  function HighByte(x: bv64): bv64 { x & 0xff00000000000000 }
  function ShiftUp8(x: bv64): bv64 { x << 8 }
  function WidenHigh(c: bv8): bv64 { (c as bv64) << 56 }
  function HighIndex(x: bv64): int { ((x >> 56) as bv8) as int }
  function LoadBig(s: seq<bv8>): bv64 { Rev8(LoadLittle(s)) }
  function BigStep(x: bv64): bv64 { Rev8(Z8(Rev8(x))) }

  // The operations of crcspeed64big: the register leaves at the top.
  function BigWord64(): Ops<bv64, bv8> {
    Ops(BigStep, Xor, 0, HighByte, ShiftUp8, WidenHigh, HighIndex, ByteOf, LoadBig)
  }

  lemma Rev8Involution(x: bv64)
    ensures Rev8(Rev8(x)) == x
  {
  }

  lemma Rev8Xor(x: bv64, y: bv64)
    ensures Xor(Rev8(x), Rev8(y)) == Rev8(Xor(x, y))
  {
  }

  lemma Rev8Low(x: bv64)
    ensures HighByte(Rev8(x)) == Rev8(LowByte(x))
  {
  }

  lemma Rev8ShiftBits(x: bv64)
    ensures Rev8(x) << 8 == Rev8(x >> 8)
  {
  }

  lemma Rev8Shift(x: bv64)
    ensures ShiftUp8(Rev8(x)) == Rev8(Shift8(x))
  {
    Rev8ShiftBits(x);
  }

  lemma Rev8Widen(c: bv8)
    ensures WidenHigh(c) == Rev8(Widen(c))
  {
  }

  lemma Rev8TopByte(x: bv64)
    ensures Rev8(x) >> 56 == x & 0xff
  {
  }

  lemma Rev8Index(x: bv64)
    ensures HighIndex(Rev8(x)) == Index(x)
  {
    Rev8TopByte(x);
  }

  lemma Rev8Zero()
    ensures Rev8(0) == 0
  {
  }

  lemma Rev8Step(x: bv64)
    ensures BigStep(Rev8(x)) == Rev8(Z8(x))
  {
    Rev8Involution(x);
  }

  lemma BigArithmetic()
    ensures ReversedArithmetic(Word64(), BigWord64(), Rev8)
  {
    forall x ensures Rev8(Rev8(x)) == x { Rev8Involution(x); }
    forall x, y ensures Xor(Rev8(x), Rev8(y)) == Rev8(Xor(x, y)) { Rev8Xor(x, y); }
    Rev8Zero();
    forall x ensures BigStep(Rev8(x)) == Rev8(Z8(x)) { Rev8Step(x); }
  }

  lemma BigAccess()
    ensures ReversedAccess(Word64(), BigWord64(), Rev8)
  {
    forall x ensures HighByte(Rev8(x)) == Rev8(LowByte(x)) { Rev8Low(x); }
    forall x ensures ShiftUp8(Rev8(x)) == Rev8(Shift8(x)) { Rev8Shift(x); }
    forall c ensures WidenHigh(c) == Rev8(Widen(c)) { Rev8Widen(c); }
    forall x ensures HighIndex(Rev8(x)) == Index(x) { Rev8Index(x); }
  }

  // Words taken apart from the top are reversed words taken apart from the bottom.
  lemma BigWordsReversed()
    ensures Reversed(Word64(), BigWord64(), Rev8)
  {
    BigArithmetic();
    BigAccess();
  }

  /** crcspeed64big on byte-reversed tables computes the same checksum. */
  method BigCrc64(t: array2<bv64>, crc: bv64, data: seq<bv8>, address: nat) returns (r: bv64)
    requires IsTable(BigWord64(), t)
    ensures r == Crc(crc, data)
  {
    WordsWalkable();
    BigWordsReversed();
    r := ReversedTableWalk(Word64(), BigWord64(), Rev8, t, crc, data, address);
  }

  // Reversing every entry of the little-endian tables gives the tables BigCrc64 needs.
  method BigTable(t: array2<bv64>)
    requires IsTable(Word64(), t)
    modifies t
    ensures IsTable(BigWord64(), t)
  {
    BigWordsReversed();
    ReverseTable(Word64(), BigWord64(), Rev8, t);
  }

  /******* The tables a big-endian host really gets *******/

  // A register with no feedback: bytes only fall out of it.
  function Unfed(): Ops<bv64, bv8> { Word64().(step := Shift8) }
  function BigUnfed(): Ops<bv64, bv8> { BigWord64().(step := ShiftUp8) }

  lemma Shift8Xor(x: bv64, y: bv64)
    ensures Shift8(Xor(x, y)) == Xor(Shift8(x), Shift8(y))
  {
  }

  lemma Shift8OfByte(x: bv64)
    ensures Shift8(x) == Xor(Shift8(LowByte(x)), Shift8(x))
  {
  }

  lemma Shift8OfWidened(c: bv8)
    ensures Shift8(Widen(c)) == 0 && Shift8(0) == 0
  {
  }

  lemma UnfedLinear()
    ensures Linear(Unfed())
  {
    forall x, y ensures Shift8(Xor(x, y)) == Xor(Shift8(x), Shift8(y)) { Shift8Xor(x, y); }
    forall x ensures Shift8(x) == Xor(Shift8(LowByte(x)), Shift8(x)) { Shift8OfByte(x); }
  }

  lemma UnfedAbsorbs()
    ensures Absorbs(Unfed())
  {
    UnfedLinear();
    WordsAdditive();
    assert Unfed().add == Word64().add;
    LinearAbsorbs(Unfed());
  }

  lemma UnfedAccess()
    ensures RunsOut(Unfed()) && Indexed(Unfed())
  {
    WordsRunOut();
    WordsIndexed();
  }

  lemma UnfedLoads()
    ensures LoadsLittle(Unfed())
  {
    forall s: seq<bv8> | |s| == 8 ensures Spells(Unfed(), Unfed().load(s), s) { LoadSpells(Unfed(), s); }
  }

  lemma UnfedWalkable()
    ensures Walkable(Unfed())
  {
    UnfedLinear();
    UnfedAbsorbs();
    UnfedAccess();
    UnfedLoads();
  }

  lemma BigUnfedReversed()
    ensures Reversed(Unfed(), BigUnfed(), Rev8)
  {
    BigArithmetic();
    BigAccess();
    forall x ensures ShiftUp8(Rev8(x)) == Rev8(Shift8(x)) { Rev8Shift(x); }
  }

  lemma {:induction false} UnfedStaysZero(s: seq<bv8>)
    ensures Checksum(Unfed(), 0, s) == 0
    decreases |s|
  {
    if s != [] {
      XorZeroLeft(Widen(s[0]));
      Shift8OfWidened(s[0]);
      UnfedStaysZero(s[1..]);
    }
  }

  lemma ReferenceOfZeroByte()
    ensures ReferenceValue(0, [0]) == 0
  {
    SingleByte(0);
  }

  lemma UnfedRowZero(n: int)
    requires 0 <= n < 256
    ensures ReferenceValue(0, [BigFirst(n)]) == Shift8(Widen(ByteOf(n)))
  {
    ReferenceOfZeroByte();
    Shift8OfWidened(ByteOf(n));
    assert n / 0x1000000 == 0;
  }

  // crcspeed64little_init on a big-endian host: every int below 256 starts with a zero byte there.
  method LittleInitOnBigHost(t: array2<bv64>)
    requires t.Length0 == 8 && t.Length1 == 256
    modifies t
    ensures IsTable(Unfed(), t)
  {
    UnfedLinear();
    UnfedAccess();
    forall n | 0 <= n < 256 ensures ReferenceValue(0, [BigFirst(n)]) == Shift8(Widen(ByteOf(n))) {
      UnfedRowZero(n);
    }
    FillTable(Unfed(), ReferenceValue, BigFirst, t);
  }

  // crcspeed64big_init.
  method BigInit(t: array2<bv64>)
    requires t.Length0 == 8 && t.Length1 == 256
    modifies t
    ensures IsTable(BigUnfed(), t)
  {
    LittleInitOnBigHost(t);
    BigUnfedReversed();
    ReverseTable(Unfed(), BigUnfed(), Rev8, t);
  }

  // What crc64 computes after crc64_init, by the byte order of the host.
  function NativeValue(big: bool, crc: bv64, data: seq<bv8>): bv64 {
    if big then Checksum(Unfed(), crc, data) else Crc(crc, data)
  }

  method NativeInit(big: bool, t: array2<bv64>)
    requires t.Length0 == 8 && t.Length1 == 256
    modifies t
    ensures big ==> IsTable(BigUnfed(), t)
    ensures !big ==> IsTable(Word64(), t)
  {
    if big {
      BigInit(t);
    } else {
      LittleInit(t);
    }
  }

  method NativeCrc64(big: bool, t: array2<bv64>, crc: bv64, data: seq<bv8>, address: nat) returns (r: bv64)
    requires if big then IsTable(BigUnfed(), t) else IsTable(Word64(), t)
    ensures r == NativeValue(big, crc, data)
  {
    if big {
      UnfedWalkable();
      BigUnfedReversed();
      r := ReversedTableWalk(Unfed(), BigUnfed(), Rev8, t, crc, data, address);
    } else {
      r := LittleCrc64(t, crc, data, address);
    }
  }

  lemma ReferenceOfOne()
    ensures ReferenceValue(0, [1]) != 0
  {
    SingleByte(1);
    Z8OfOne();
  }

  lemma Z8OfOne()
    ensures Z8(Widen(1)) != 0
  {
  }

  /** crc64 agrees with _crc64 on every message exactly on little-endian hosts. */
  lemma NativeAgreesOnLittleEndianOnly(big: bool)
    ensures (forall data :: NativeValue(big, 0, data) == ReferenceValue(0, data)) <==> !big
  {
    if big {
      UnfedStaysZero([1]);
      ReferenceOfOne();
      assert NativeValue(big, 0, [1]) != ReferenceValue(0, [1]);
    } else {
      forall data ensures NativeValue(big, 0, data) == ReferenceValue(0, data) { FastFormRefinesReference(0, data); }
    }
  }
}
