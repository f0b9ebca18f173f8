/** Bits of bytes and of numbers. */
module Bits {

  function Pow2(n: nat): (r: nat)
    ensures r >= 1
  {
    if n == 0 then 1 else 2 * Pow2(n - 1)
  }

  // 1 << i in a byte.
  function Mask(i: nat): bv8
    requires i < 8
  {
    if i == 0 then 1 else if i == 1 then 2 else if i == 2 then 4 else if i == 3 then 8
    else if i == 4 then 16 else if i == 5 then 32 else if i == 6 then 64 else 128
  }

  predicate BitOf(b: bv8, i: nat)
    requires i < 8
  {
    b & Mask(i) != 0
  }

  function WithBit(b: bv8, i: nat, on: bool): bv8
    requires i < 8
  {
    (b & !Mask(i)) | (if on then Mask(i) else 0)
  }

  lemma WithBitSets(b: bv8, i: nat, on: bool, j: nat)
    requires i < 8 && j < 8
    ensures BitOf(WithBit(b, i, on), j) == if j == i then on else BitOf(b, j)
  {
  }

  // Bit i of a number, the lowest being bit 0.
  predicate ValueBit(v: nat, i: nat) { v / Pow2(i) % 2 == 1 }

  lemma HalfBit(v: nat, i: nat)
    ensures ValueBit(v, i + 1) == ValueBit(v / 2, i)
  {
    DivTwice(v, Pow2(i));
  }

  lemma DivTwice(v: nat, m: nat)
    requires m >= 1
    ensures v / (2 * m) == v / 2 / m
  {
    var q := v / 2 / m;
    var r := v / 2 % m;
    assert v / 2 == q * m + r;
    assert v == q * (2 * m) + (2 * r + v % 2);
    QuotientIs(v, 2 * m, q, 2 * r + v % 2);
  }

  lemma MulAtLeast(a: int, m: nat)
    requires a >= 1
    ensures a * m >= m
  {
    assert a * m == m + (a - 1) * m;
  }

  lemma QuotientIs(v: int, m: nat, q: int, r: int)
    requires m >= 1 && v == q * m + r && 0 <= r < m
    ensures v / m == q && v % m == r
  {
    var q', r' := v / m, v % m;
    SameDivision(m, q, r, q', r');
  }

  lemma SameDivision(m: nat, q: int, r: int, q': int, r': int)
    requires q * m + r == q' * m + r' && 0 <= r < m && 0 <= r' < m
    ensures q == q' && r == r'
  {
    assert (q - q') * m == q * m - q' * m && (q' - q) * m == q' * m - q * m;
    if q > q' {
      MulAtLeast(q - q', m);
    } else if q < q' {
      MulAtLeast(q' - q, m);
    }
  }

  lemma ModHalf(v: nat, m: nat)
    requires m >= 1
    ensures v % (2 * m) == 2 * (v / 2 % m) + v % 2
  {
    var q := v / 2 / m;
    var r := v / 2 % m;
    assert v / 2 == q * m + r;
    assert v == q * (2 * m) + (2 * r + v % 2);
    QuotientIs(v, 2 * m, q, 2 * r + v % 2);
  }

  // Taking a remainder twice, when one modulus divides the other.
  lemma ModMod(x: int, m: nat, k: nat)
    requires m >= 1 && k >= 1
    ensures k * m >= 1 && x % (k * m) % m == x % m
  {
    assert k * m >= 1;
    var q, r := x / (k * m), x % (k * m);
    assert x == q * (k * m) + r;
    var q', r' := r / m, r % m;
    assert x == (q * k + q') * m + r' by {
      assert q * (k * m) == (q * k) * m;
    }
    QuotientIs(x, m, q * k + q', r');
  }

  lemma {:induction false} PowSplit(a: nat, b: nat)
    ensures Pow2(a + b) == Pow2(a) * Pow2(b)
  {
    if a > 0 {
      PowSplit(a - 1, b);
    }
  }

  lemma {:induction false} TopBit(c: nat, n: nat)
    requires n >= 1
    ensures ValueBit(c, n - 1) <==> c % Pow2(n) >= Pow2(n - 1)
  {
    if n > 1 {
      HalfBit(c, n - 2);
      TopBit(c / 2, n - 1);
      ModHalf(c, Pow2(n - 1));
    }
  }

  lemma {:induction false} PowMono(a: nat, b: nat)
    requires a <= b
    ensures Pow2(a) <= Pow2(b)
  {
    PowSplit(a, b - a);
    MulAtLeast(Pow2(b - a), Pow2(a));
  }

  lemma ModPowers(x: int, n: nat, word: nat)
    requires n <= word
    ensures x % Pow2(word) % Pow2(n) == x % Pow2(n)
  {
    PowSplit(word - n, n);
    ModMod(x, Pow2(n), Pow2(word - n));
  }
}

/** Integers of any width at any bit offset of a string, bit 0 being the highest bit of the first byte. */
module Bitfields {
  import opened Bits

  predicate BitAt(s: seq<bv8>, k: nat)
    requires k < 8 * |s|
  {
    BitOf(s[k / 8], 7 - k % 8)
  }

  function Digit(on: bool): nat { if on then 1 else 0 }

  // The number written in `bits` bits from `offset` on.
  function Field(s: seq<bv8>, offset: nat, bits: nat): (v: nat)
    requires offset + bits <= 8 * |s|
    ensures v < Pow2(bits)
  {
    if bits == 0 then 0 else 2 * Field(s, offset, bits - 1) + Digit(BitAt(s, offset + bits - 1))
  }

  // The same bits in two's complement.
  function Signed(u: nat, bits: nat): int
    requires bits >= 1
  {
    if u >= Pow2(bits - 1) then u - Pow2(bits) else u
  }

  // The bits of a field are those of a number.
  ghost predicate Spells(s: seq<bv8>, offset: nat, bits: nat, v: nat)
    requires offset + bits <= 8 * |s|
  {
    forall k: nat | offset <= k < offset + bits :: BitAt(s, k) == ValueBit(v, offset + bits - 1 - k)
  }

  lemma SpellsHalf(s: seq<bv8>, offset: nat, bits: nat, v: nat)
    requires bits >= 1 && offset + bits <= 8 * |s| && Spells(s, offset, bits, v)
    ensures Spells(s, offset, bits - 1, v / 2) && BitAt(s, offset + bits - 1) == (v % 2 == 1)
  {
    forall k: nat | offset <= k < offset + bits - 1 ensures BitAt(s, k) == ValueBit(v / 2, offset + bits - 2 - k) {
      HalfBit(v, offset + bits - 2 - k);
    }
  }

  lemma {:induction false} FieldReads(s: seq<bv8>, offset: nat, bits: nat, v: nat)
    requires offset + bits <= 8 * |s| && Spells(s, offset, bits, v)
    ensures Field(s, offset, bits) == v % Pow2(bits)
  {
    if bits > 0 {
      SpellsHalf(s, offset, bits, v);
      FieldReads(s, offset, bits - 1, v / 2);
      ModHalf(v, Pow2(bits - 1));
    }
  }

  // The string with a number written into a field, bit by bit.
  ghost predicate Written(s: seq<bv8>, s': seq<bv8>, offset: nat, bits: nat, v: nat)
    requires offset + bits <= 8 * |s| && |s'| == |s|
  {
    forall k: nat | k < 8 * |s| ::
      BitAt(s', k) == if offset <= k < offset + bits then ValueBit(v, offset + bits - 1 - k) else BitAt(s, k)
  }

  method SetUnsignedBitfield(p: array<bv8>, offset: nat, bits: nat, value: nat)
    requires offset + bits <= 8 * p.Length
    modifies p
    ensures Written(old(p[..]), p[..], offset, bits, value)
  {
    for j := 0 to bits
      invariant forall k: nat | k < 8 * p.Length ::
        BitAt(p[..], k) == if offset <= k < offset + j then ValueBit(value, offset + bits - 1 - k)
                           else BitAt(old(p[..]), k)
    {
      ghost var before := p[..];
      var at := offset + j;
      var bit := ValueBit(value, bits - 1 - j);
      OneBitWritten(p[..], at, bit);
      p[at / 8] := WithBit(p[at / 8], 7 - at % 8, bit);
      assert p[..] == before[at / 8 := WithBit(before[at / 8], 7 - at % 8, bit)];
    }
  }

  lemma OneBitWritten(s: seq<bv8>, at: nat, bit: bool)
    requires at < 8 * |s|
    ensures var s' := s[at / 8 := WithBit(s[at / 8], 7 - at % 8, bit)];
      forall k: nat | k < 8 * |s| :: BitAt(s', k) == if k == at then bit else BitAt(s, k)
  {
    var s' := s[at / 8 := WithBit(s[at / 8], 7 - at % 8, bit)];
    forall k: nat | k < 8 * |s| ensures BitAt(s', k) == if k == at then bit else BitAt(s, k) {
      if k / 8 == at / 8 {
        WithBitSets(s[at / 8], 7 - at % 8, bit, 7 - k % 8);
      }
    }
  }

  method GetUnsignedBitfield(p: array<bv8>, offset: nat, bits: nat) returns (value: nat)
    requires offset + bits <= 8 * p.Length
    ensures value == Field(p[..], offset, bits)
  {
    value := 0;
    for j := 0 to bits
      invariant value == Field(p[..], offset, j)
    {
      var at := offset + j;
      value := 2 * value + (if BitOf(p[at / 8], 7 - at % 8) then 1 else 0);
    }
  }

  // A negative number is written as the unsigned number it is cast to.
  method SetSignedBitfield(p: array<bv8>, offset: nat, bits: nat, value: int, word: nat)
    requires offset + bits <= 8 * p.Length
    modifies p
    ensures Written(old(p[..]), p[..], offset, bits, value % Pow2(word))
  {
    SetUnsignedBitfield(p, offset, bits, value % Pow2(word));
  }

  /******* Sign extension *******/

  // A machine: the width of its words (64 here), and whether a word shifted left by its whole width,
  // which C leaves open, stays as it was (the count is taken modulo the width) or is cleared.
  datatype Host = Host(word: nat, keeps: bool)

  // The signed number in a word.
  function ToSigned(x: int, word: nat): int
    requires word >= 1
  {
    Signed(x % Pow2(word), word)
  }

  // A word with all bits from `bits` on set: or-ed with a word of ones shifted by `bits`.
  function OrHigh(c: nat, bits: nat, host: Host): nat
    requires 1 <= bits <= host.word
  {
    PowMono(bits, host.word);
    if bits < host.word then c % Pow2(bits) + (Pow2(host.word) - Pow2(bits))
    else if !host.keeps then c
    else Pow2(host.word) - 1
  }

  // A word with all bits from `bits` on clear: and-ed with the complement of that mask.
  function AndLow(c: nat, bits: nat, host: Host): nat
    requires 1 <= bits <= host.word
  {
    if bits < host.word then c % Pow2(bits) else if !host.keeps then c else 0
  }

  // What the host reads from a signed field that holds the bits of u.
  function ReadSigned(u: nat, bits: nat, host: Host): int
    requires 1 <= bits <= host.word
  {
    if bits == host.word && host.keeps && u >= Pow2(host.word - 1) then -1 else Signed(u, bits)
  }

  method GetSignedBitfield(p: array<bv8>, offset: nat, bits: nat, host: Host) returns (value: int)
    requires 1 <= bits <= host.word && offset + bits <= 8 * p.Length
    ensures value == ReadSigned(Field(p[..], offset, bits), bits, host)
  {
    var u := GetUnsignedBitfield(p, offset, bits);
    ExtendsSign(u, bits, host);
    value := if ValueBit(u, bits - 1) then ToSigned(OrHigh(u, bits, host), host.word) else ToSigned(u, host.word);
  }

  lemma ToSignedOf(x: nat, word: nat)
    requires word >= 1 && x < Pow2(word)
    ensures ToSigned(x, word) == if x >= Pow2(word - 1) then x - Pow2(word) else x
  {
    QuotientIs(x, Pow2(word), 0, x);
  }

  lemma SignExtended(low: nat, bits: nat, word: nat)
    requires 1 <= bits <= word && low < Pow2(bits)
    ensures Pow2(bits) <= Pow2(word)
    ensures low >= Pow2(bits - 1) ==> ToSigned(low + (Pow2(word) - Pow2(bits)), word) == low - Pow2(bits)
    ensures low < Pow2(bits - 1) ==> ToSigned(low, word) == low
  {
    PowMono(bits - 1, word - 1);
    PowMono(bits, word);
    if low >= Pow2(bits - 1) {
      ToSignedOf(low + (Pow2(word) - Pow2(bits)), word);
    } else {
      ToSignedOf(low, word);
    }
  }

  lemma ExtendsSign(u: nat, bits: nat, host: Host)
    requires 1 <= bits <= host.word && u < Pow2(bits)
    ensures ReadSigned(u, bits, host)
      == if ValueBit(u, bits - 1) then ToSigned(OrHigh(u, bits, host), host.word) else ToSigned(u, host.word)
  {
    TopBit(u, bits);
    QuotientIs(u, Pow2(bits), 0, u);
    SignExtended(u, bits, host.word);
    ToSignedOf(Pow2(host.word) - 1, host.word);
  }

  /** A signed field is read for the number in it, except a negative one of 64 bits on a host that keeps the word. */
  lemma SignedFieldsReadRight(u: nat, bits: nat, host: Host)
    requires 1 <= bits <= host.word && u < Pow2(bits)
    ensures ReadSigned(u, bits, host) == Signed(u, bits)
      <==> bits < host.word || !host.keeps || Signed(u, host.word) >= -1
  {
  }

  /** Reading a field gives what was written to it, cut to its width; no other bit changes. */
  lemma ReadsWhatWasWritten(s: seq<bv8>, s': seq<bv8>, offset: nat, bits: nat, v: nat)
    requires offset + bits <= 8 * |s| && |s'| == |s| && Written(s, s', offset, bits, v)
    ensures Field(s', offset, bits) == v % Pow2(bits)
    ensures forall o: nat, b: nat | o + b <= 8 * |s| && (o + b <= offset || offset + bits <= o) ::
      Field(s', o, b) == Field(s, o, b)
  {
    FieldReads(s', offset, bits, v);
    forall o: nat, b: nat | o + b <= 8 * |s| && (o + b <= offset || offset + bits <= o)
      ensures Field(s', o, b) == Field(s, o, b)
    {
      SameBitsSameField(s, s', o, b);
    }
  }

  lemma {:induction false} SameBitsSameField(s: seq<bv8>, s': seq<bv8>, o: nat, b: nat)
    requires |s'| == |s| && o + b <= 8 * |s| && forall k: nat | o <= k < o + b :: BitAt(s', k) == BitAt(s, k)
    ensures Field(s', o, b) == Field(s, o, b)
  {
    if b > 0 {
      SameBitsSameField(s, s', o, b - 1);
    }
  }

  // The numbers a signed field of a width can hold.
  predicate Fits(v: int, bits: nat)
    requires bits >= 1
  {
    0 - Pow2(bits - 1) <= v < Pow2(bits - 1)
  }

  /** A signed number that fits comes back as it was. */
  lemma SignedRoundTrip(v: int, bits: nat, word: nat)
    requires 1 <= bits <= word && Fits(v, bits)
    ensures Signed(v % Pow2(word) % Pow2(bits), bits) == v
  {
    ModPowers(v, bits, word);
    if v < 0 {
      QuotientIs(v, Pow2(bits), -1, v + Pow2(bits));
    } else {
      QuotientIs(v, Pow2(bits), 0, v);
    }
  }
}

/** Overflow of signed fields of 1 to 64 bits and unsigned ones of 1 to 63, and the BITFIELD operations that meet it. */
module BitfieldOverflow {
  import opened Options
  import opened Bits
  import opened Bitfields

  datatype Policy = Wrap | Saturate | Fail

  // What a check returns: 0, or 1 or -1 for the direction, and the value to use instead.
  datatype Verdict = Verdict(direction: int, limit: int)

  function CheckUnsigned(value: nat, incr: int, bits: nat, policy: Policy, word: nat): Verdict
    requires 1 <= bits < word
  {
    var max := Pow2(bits) - 1;
    var wrapped := (value + incr) % Pow2(word) % Pow2(bits);
    if value > max || (incr > 0 && incr > max - value) then
      Verdict(1, if policy == Wrap then wrapped else max)
    else if incr < 0 && incr < 0 - value then
      if policy == Wrap then Verdict(1, wrapped) else Verdict(-1, 0)
    else Verdict(0, 0)
  }

  // The two margins are 64-bit differences: they can wrap around.
  function CheckSigned(value: int, incr: int, bits: nat, policy: Policy, host: Host): Verdict
    requires 1 <= bits <= host.word
  {
    var max := Pow2(bits - 1) - 1;
    var min := 0 - max - 1;
    var maxincr := ToSigned(max - value, host.word);
    var minincr := ToSigned(min - value, host.word);
    if value > max || (bits != host.word && incr > maxincr) || (value >= 0 && incr > 0 && incr > maxincr) then
      Verdict(1, if policy == Wrap then Wrapped(value + incr, bits, host) else max)
    else if value < min || (bits != host.word && incr < minincr) || (value < 0 && incr < 0 && incr < minincr) then
      if policy == Wrap then Verdict(1, Wrapped(value + incr, bits, host)) else Verdict(-1, min)
    else Verdict(0, 0)
  }

  function Wrapped(sum: int, bits: nat, host: Host): int
    requires 1 <= bits <= host.word
  {
    var c := sum % Pow2(host.word);
    ToSigned(if ValueBit(c, bits - 1) then OrHigh(c, bits, host) else AndLow(c, bits, host), host.word)
  }

  /******* What the answers mean *******/

  predicate InRange(v: int, bits: nat, sign: bool)
    requires bits >= 1
  {
    if sign then Fits(v, bits) else 0 <= v < Pow2(bits)
  }

  ghost predicate Congruent(a: int, b: int, m: nat)
    requires m >= 1
  {
    a % m == b % m
  }

  function Clamped(v: int, bits: nat, sign: bool): int
    requires bits >= 1
  {
    var max := if sign then Pow2(bits - 1) - 1 else Pow2(bits) - 1;
    var min := if sign then 0 - Pow2(bits - 1) else 0;
    if v > max then max else if v < min then min else v
  }

  // A field that should become `sum` becomes r, or is left alone.
  ghost predicate Outcome(sum: int, bits: nat, sign: bool, policy: Policy, r: Option<int>)
    requires bits >= 1
  {
    if InRange(sum, bits, sign) then r == Some(sum)
    else match policy
      case Wrap => r.Some? && InRange(r.value, bits, sign) && Congruent(r.value, sum, Pow2(bits))
      case Saturate => r == Some(Clamped(sum, bits, sign))
      case Fail => r == None
  }

  lemma ModTwice(x: int, m: nat)
    requires m >= 1
    ensures x % m % m == x % m
  {
    QuotientIs(x % m, m, 0, x % m);
  }

  lemma UnsignedVerdict(value: nat, incr: int, bits: nat, policy: Policy, word: nat)
    requires 1 <= bits < word && value < Pow2(bits)
    ensures var v := CheckUnsigned(value, incr, bits, policy, word);
      && (v.direction == 0 <==> InRange(value + incr, bits, false))
      && Outcome(value + incr, bits, false, policy,
                 if v.direction == 0 then Some(value + incr) else if policy == Fail then None else Some(v.limit))
  {
    ModPowers(value + incr, bits, word);
    ModTwice(value + incr, Pow2(bits));
  }

  lemma FitsWord(x: int, word: nat)
    requires word >= 1 && Fits(x, word)
    ensures ToSigned(x, word) == x
  {
    SignedRoundTrip(x, word, word);
    ModTwice(x, Pow2(word));
  }

  // The host's shifts by `bits` do what the code expects of them.
  predicate Shifts(bits: nat, host: Host) { bits < host.word || !host.keeps }

  lemma WrappedIs(sum: int, bits: nat, host: Host)
    requires 1 <= bits <= host.word && Shifts(bits, host)
    ensures Wrapped(sum, bits, host) == Signed(sum % Pow2(bits), bits)
  {
    var c := sum % Pow2(host.word);
    ModPowers(sum, bits, host.word);
    TopBit(c, bits);
    SignExtended(c % Pow2(bits), bits, host.word);
    if bits == host.word {
      ModTwice(sum, Pow2(host.word));
    }
  }

  lemma WrappedRight(sum: int, bits: nat, host: Host)
    requires 1 <= bits <= host.word && Shifts(bits, host)
    ensures Fits(Wrapped(sum, bits, host), bits) && Congruent(Wrapped(sum, bits, host), sum, Pow2(bits))
  {
    WrappedIs(sum, bits, host);
    SignedCongruent(sum % Pow2(bits), bits);
  }

  lemma SignedCongruent(u: nat, bits: nat)
    requires bits >= 1 && u < Pow2(bits)
    ensures Fits(Signed(u, bits), bits) && Signed(u, bits) % Pow2(bits) == u
  {
    if u >= Pow2(bits - 1) {
      QuotientIs(u - Pow2(bits), Pow2(bits), -1, u);
    } else {
      QuotientIs(u, Pow2(bits), 0, u);
    }
  }

  // What the check leaves to be written; nothing when the policy refuses.
  function Checked(value: int, incr: int, bits: nat, policy: Policy, host: Host): Option<int>
    requires 1 <= bits <= host.word
  {
    var v := CheckSigned(value, incr, bits, policy, host);
    if v.direction == 0 then Some(value + incr) else if policy == Fail then None else Some(v.limit)
  }

  lemma SignedVerdict(value: int, incr: int, bits: nat, policy: Policy, host: Host)
    requires 1 <= bits <= host.word && Fits(value, bits) && Fits(incr, host.word) && Shifts(bits, host)
    ensures CheckSigned(value, incr, bits, policy, host).direction == 0 <==> InRange(value + incr, bits, true)
    ensures Outcome(value + incr, bits, true, policy, Checked(value, incr, bits, policy, host))
  {
    Margins(value, bits, host.word);
    WrappedRight(value + incr, bits, host);
  }

  // The margins that the check relies on do not wrap around.
  lemma Margins(value: int, bits: nat, word: nat)
    requires 1 <= bits <= word && Fits(value, bits)
    ensures bits < word || value >= 0 ==> ToSigned(Pow2(bits - 1) - 1 - value, word) == Pow2(bits - 1) - 1 - value
    ensures bits < word || value < 0 ==> ToSigned(0 - Pow2(bits - 1) - value, word) == 0 - Pow2(bits - 1) - value
  {
    if bits < word {
      PowMono(bits, word - 1);
      FitsWord(Pow2(bits - 1) - 1 - value, word);
      FitsWord(0 - Pow2(bits - 1) - value, word);
    } else if value >= 0 {
      FitsWord(Pow2(word - 1) - 1 - value, word);
    } else {
      FitsWord(0 - Pow2(word - 1) - value, word);
    }
  }

  /**
   A number written to a signed field gets what the policy makes of it, except under saturation a number so
   far below the field's range that its distance to the field's maximum wraps around.
   */
  lemma SignedSetVerdict(value: int, bits: nat, policy: Policy, host: Host)
    requires 1 <= bits <= host.word && Fits(value, host.word) && Shifts(bits, host)
    ensures Outcome(value, bits, true, policy, Checked(value, 0, bits, policy, host))
      <==> !(policy == Saturate && TooFarBelow(value, bits, host.word))
  {
    SetChecked(value, bits, policy, host);
    if TooFarBelow(value, bits, host.word) {
      PowMono(bits, host.word - 1);
    }
    if policy == Wrap && !Fits(value, bits) {
      WrappedRight(value, bits, host);
    }
  }

  lemma SetChecked(value: int, bits: nat, policy: Policy, host: Host)
    requires 1 <= bits <= host.word && Fits(value, host.word)
    ensures Checked(value, 0, bits, policy, host)
      == if Fits(value, bits) then Some(value)
         else match policy
           case Wrap => Some(Wrapped(value, bits, host))
           case Fail => None
           case Saturate =>
             Some(if value >= Pow2(bits - 1) || TooFarBelow(value, bits, host.word) then Pow2(bits - 1) - 1
                  else 0 - Pow2(bits - 1))
  {
    if bits < host.word {
      SetMargins(value, bits, host.word);
      if TooFarBelow(value, bits, host.word) {
        PowMono(bits, host.word - 1);
      }
    }
  }

  predicate TooFarBelow(value: int, bits: nat, word: nat)
    requires bits >= 1
  {
    bits < word && value < Pow2(bits - 1) - Pow2(word - 1)
  }

  lemma SetMargins(value: int, bits: nat, word: nat)
    requires 1 <= bits < word && Fits(value, word)
    ensures 0 > ToSigned(Pow2(bits - 1) - 1 - value, word)
       <==> value >= Pow2(bits - 1) || TooFarBelow(value, bits, word)
    ensures Fits(value, bits) ==> 0 >= ToSigned(0 - Pow2(bits - 1) - value, word)
  {
    PowMono(bits - 1, word - 2);
    if TooFarBelow(value, bits, word) {
      var room := Pow2(bits - 1) - 1 - value;
      QuotientIs(room, Pow2(word), 0, room);
    } else {
      FitsWord(Pow2(bits - 1) - 1 - value, word);
    }
    if Fits(value, bits) {
      FitsWord(0 - Pow2(bits - 1) - value, word);
    }
  }

  /** Saturation takes the least 64-bit number to the greatest value of a narrower field. */
  lemma LeastSaturatesUpwards(bits: nat, host: Host)
    requires 1 <= bits < host.word
    ensures Checked(0 - Pow2(host.word - 1), 0, bits, Saturate, host) == Some(Pow2(bits - 1) - 1)
  {
    PowMono(bits - 1, host.word - 2);
    SetMargins(0 - Pow2(host.word - 1), bits, host.word);
  }

  /******* BITFIELD INCRBY *******/

  function Value(s: seq<bv8>, offset: nat, bits: nat, sign: bool): int
    requires bits >= 1 && offset + bits <= 8 * |s|
  {
    if sign then Signed(Field(s, offset, bits), bits) else Field(s, offset, bits)
  }

  // Only the field may have changed.
  ghost predicate OnlyField(s: seq<bv8>, s': seq<bv8>, offset: nat, bits: nat) {
    |s'| == |s| && forall k: nat | k < 8 * |s| && !(offset <= k < offset + bits) :: BitAt(s', k) == BitAt(s, k)
  }

  /**
   The reply is the field's new value, or nothing when the field was left alone; no other bit changes. It is the
   sum, or what the policy makes of a sum out of range, except for signed fields as wide as a word on a host
   that keeps words as they are when shifting by their width.
   */
  method IncrBy(p: array<bv8>, offset: nat, bits: nat, sign: bool, incr: int, policy: Policy, host: Host)
    returns (reply: Option<int>)
    requires 1 <= bits <= (if sign then host.word else host.word - 1) && offset + bits <= 8 * p.Length
    requires Fits(incr, host.word)
    modifies p
    ensures OnlyField(old(p[..]), p[..], offset, bits)
    ensures Value(p[..], offset, bits, sign)
      == if reply.Some? then reply.value else old(Value(p[..], offset, bits, sign))
    ensures Outcome(old(Value(p[..], offset, bits, sign)) + incr, bits, sign, policy, reply)
       <==> !sign || GoesRight(old(Value(p[..], offset, bits, sign)), incr, bits, policy, host)
  {
    if sign {
      reply := IncrBySigned(p, offset, bits, incr, policy, host);
    } else {
      reply := IncrByUnsigned(p, offset, bits, incr, policy, host.word);
    }
  }

  method IncrBySigned(p: array<bv8>, offset: nat, bits: nat, incr: int, policy: Policy, host: Host)
    returns (reply: Option<int>)
    requires 1 <= bits <= host.word && offset + bits <= 8 * p.Length && Fits(incr, host.word)
    modifies p
    ensures OnlyField(old(p[..]), p[..], offset, bits)
    ensures reply == IncrReply(old(Field(p[..], offset, bits)), incr, bits, policy, host)
    ensures reply.None? ==> p[..] == old(p[..])
    ensures reply.Some? ==> Signed(Field(p[..], offset, bits), bits) == reply.value
    ensures RightExactly(old(Signed(Field(p[..], offset, bits), bits)), incr, bits, policy, host, reply)
  {
    var oldval := GetSignedBitfield(p, offset, bits, host);
    ghost var u := Field(p[..], offset, bits);
    ReplyFits(u, oldval, incr, bits, policy, host);
    ReplyRightExactly(u, incr, bits, policy, host);
    reply := Checked(oldval, incr, bits, policy, host);
    if reply.Some? {
      WriteSigned(p, offset, bits, reply.value, host.word);
    }
  }

  // What INCRBY replies when the field holds the bits of u.
  function IncrReply(u: nat, incr: int, bits: nat, policy: Policy, host: Host): Option<int>
    requires 1 <= bits <= host.word
  {
    Checked(ReadSigned(u, bits, host), incr, bits, policy, host)
  }

  lemma ReplyFits(u: nat, value: int, incr: int, bits: nat, policy: Policy, host: Host)
    requires 1 <= bits <= host.word && u < Pow2(bits) && value == ReadSigned(u, bits, host) && Fits(incr, host.word)
    ensures Checked(value, incr, bits, policy, host).Some? ==>
      Fits(Checked(value, incr, bits, policy, host).value, bits)
  {
    ReadFits(u, bits, host);
    CheckedFits(value, incr, bits, policy, host);
  }

  // A value and what the host reads it as.
  lemma CheckedRightExactly(t: int, value: int, incr: int, bits: nat, policy: Policy, host: Host)
    requires 1 <= bits <= host.word && Fits(t, bits) && Fits(incr, host.word)
    requires value == if !Shifts(bits, host) && t < 0 then -1 else t
    ensures RightExactly(t, incr, bits, policy, host, Checked(value, incr, bits, policy, host))
  {
    if Shifts(bits, host) {
      SignedVerdict(t, incr, bits, policy, host);
    } else {
      KeptWordRightExactly(t, incr, policy, host);
    }
  }

  /** Every increment of every signed field. */
  lemma ReplyRightExactly(u: nat, incr: int, bits: nat, policy: Policy, host: Host)
    requires 1 <= bits <= host.word && u < Pow2(bits) && Fits(incr, host.word)
    ensures RightExactly(Signed(u, bits), incr, bits, policy, host, IncrReply(u, incr, bits, policy, host))
  {
    var t, value := ReadAs(u, bits, host);
    CheckedRightExactly(t, value, incr, bits, policy, host);
  }

  lemma ReadAs(u: nat, bits: nat, host: Host) returns (t: int, value: int)
    requires 1 <= bits <= host.word && u < Pow2(bits)
    ensures t == Signed(u, bits) && value == ReadSigned(u, bits, host)
    ensures Fits(t, bits) && value == if !Shifts(bits, host) && t < 0 then -1 else t
  {
    t, value := Signed(u, bits), ReadSigned(u, bits, host);
  }

  lemma ReadFits(u: nat, bits: nat, host: Host)
    requires 1 <= bits <= host.word && u < Pow2(bits)
    ensures Fits(ReadSigned(u, bits, host), bits)
    ensures Shifts(bits, host) ==> ReadSigned(u, bits, host) == Signed(u, bits)
  {
  }

  lemma CheckedFits(value: int, incr: int, bits: nat, policy: Policy, host: Host)
    requires 1 <= bits <= host.word && Fits(value, bits) && Fits(incr, host.word)
    ensures Checked(value, incr, bits, policy, host).Some? ==>
      Fits(Checked(value, incr, bits, policy, host).value, bits)
    ensures Shifts(bits, host) ==> Outcome(value + incr, bits, true, policy, Checked(value, incr, bits, policy, host))
  {
    if Shifts(bits, host) {
      SignedVerdict(value, incr, bits, policy, host);
      OutcomeFits(value + incr, bits, policy, Checked(value, incr, bits, policy, host));
    } else {
      KeptWordChecked(value, incr, policy, host);
    }
  }

  lemma OutcomeFits(sum: int, bits: nat, policy: Policy, r: Option<int>)
    requires bits >= 1 && Outcome(sum, bits, true, policy, r)
    ensures r.Some? ==> Fits(r.value, bits)
  {
  }

  /**
   Which increments of which values go right. On a keeping host a field as wide as a word that is below -1 reads as
   -1, and only an increment so far down that both leave the range hides it; and an overflow wraps to 0 or -1.
   */
  predicate GoesRight(t: int, incr: int, bits: nat, policy: Policy, host: Host)
    requires 1 <= bits <= host.word
  {
    var min := 0 - Pow2(host.word - 1);
    || Shifts(bits, host)
    || host.word == 1
    || (t >= -1 && (policy != Wrap || Fits(t + incr, host.word)))
    || (t < -1 && incr == min && (policy != Wrap || t == min))
    || (t < -1 && incr == min + 1 && policy == Saturate)
  }

  lemma KeptWordWraps(sum: int, host: Host)
    requires host.word >= 1 && host.keeps && !Fits(sum, host.word) && 0 - Pow2(host.word) <= sum < Pow2(host.word)
    ensures Wrapped(sum, host.word, host) == if sum >= 0 then -1 else 0
  {
    var m := Pow2(host.word);
    var c := if sum >= 0 then sum else sum + m;
    QuotientIs(sum, m, if sum >= 0 then 0 else -1, c);
    TopBit(c, host.word);
    QuotientIs(c, m, 0, c);
    QuotientIs(m - 1, m, 0, m - 1);
    QuotientIs(0, m, 0, 0);
  }

  // The reply to INCRBY is what the policy asks for exactly when GoesRight says so.
  ghost predicate RightExactly(t: int, incr: int, bits: nat, policy: Policy, host: Host, reply: Option<int>)
    requires 1 <= bits <= host.word
  {
    Outcome(t + incr, bits, true, policy, reply) <==> GoesRight(t, incr, bits, policy, host)
  }

  // What the check makes of a field as wide as a word on a keeping host.
  lemma KeptWordChecked(value: int, incr: int, policy: Policy, host: Host)
    requires host.word >= 1 && Fits(value, host.word) && Fits(incr, host.word) && host.keeps
    ensures Checked(value, incr, host.word, policy, host)
      == if Fits(value + incr, host.word) then Some(value + incr)
         else match policy
           case Wrap => Some(if value + incr >= 0 then -1 else 0)
           case Saturate => Some(Clamped(value + incr, host.word, true))
           case Fail => None
  {
    Margins(value, host.word, host.word);
    if !Fits(value + incr, host.word) {
      KeptWordWraps(value + incr, host);
    }
  }

  // The one number in range that a sum out of range wraps around to.
  lemma WrapsTo(sum: int, bits: nat, r: int)
    requires bits >= 1 && !Fits(sum, bits) && 0 - Pow2(bits) <= sum < Pow2(bits)
    ensures Fits(r, bits) && Congruent(r, sum, Pow2(bits))
       <==> r == if sum >= 0 then sum - Pow2(bits) else sum + Pow2(bits)
  {
    var m := Pow2(bits);
    var to := if sum >= 0 then sum - m else sum + m;
    QuotientIs(sum, m, if sum >= 0 then 0 else -1, if sum >= 0 then sum else sum + m);
    QuotientIs(to, m, if sum >= 0 then -1 else 0, if sum >= 0 then sum else sum + m);
    if Fits(r, bits) && Congruent(r, sum, m) {
      FitsWord(r, bits);
      FitsWord(to, bits);
    }
  }

  lemma KeptWordRightExactly(t: int, incr: int, policy: Policy, host: Host)
    requires host.word >= 1 && Fits(t, host.word) && Fits(incr, host.word) && host.keeps
    ensures Outcome(t + incr, host.word, true, policy, Checked(if t < 0 then -1 else t, incr, host.word, policy, host))
       <==> GoesRight(t, incr, host.word, policy, host)
  {
    var value := if t < 0 then -1 else t;
    KeptWordChecked(value, incr, policy, host);
    if !Fits(t + incr, host.word) && policy == Wrap {
      WrapsTo(t + incr, host.word, Checked(value, incr, host.word, policy, host).value);
    }
  }

  /**
   INCRBY meets its policy on every signed field of a width exactly when the host's shifts do what the code
   expects.
   */
  lemma SignedIncrementsRightExactly(bits: nat, host: Host)
    requires 1 <= bits <= host.word && host.word >= 2
    ensures Shifts(bits, host) <==> forall u: nat, incr: int, policy | u < Pow2(bits) && Fits(incr, host.word) ::
      Outcome(Signed(u, bits) + incr, bits, true, policy, IncrReply(u, incr, bits, policy, host))
  {
    if Shifts(bits, host) {
      forall u: nat, incr: int, policy | u < Pow2(bits) && Fits(incr, host.word)
        ensures Outcome(Signed(u, bits) + incr, bits, true, policy, IncrReply(u, incr, bits, policy, host))
      {
        ReplyRightExactly(u, incr, bits, policy, host);
      }
    } else {
      MisreadIncrement(host);
    }
  }

  // A 64-bit field that holds -2 reads as -1: adding nothing to it changes it.
  lemma MisreadIncrement(host: Host)
    requires host.keeps && host.word >= 2
    ensures !Outcome(Signed(Pow2(host.word) - 2, host.word) + 0, host.word, true, Wrap,
                     IncrReply(Pow2(host.word) - 2, 0, host.word, Wrap, host))
  {
    Margins(-1, host.word, host.word);
  }

  method WriteSigned(p: array<bv8>, offset: nat, bits: nat, value: int, word: nat)
    requires 1 <= bits <= word && offset + bits <= 8 * p.Length && Fits(value, bits)
    modifies p
    ensures OnlyField(old(p[..]), p[..], offset, bits) && Signed(Field(p[..], offset, bits), bits) == value
  {
    ghost var s := p[..];
    SetSignedBitfield(p, offset, bits, value, word);
    ReadsWhatWasWritten(s, p[..], offset, bits, value % Pow2(word));
    SignedRoundTrip(value, bits, word);
  }

  /** BITFIELD SET of a signed field: the reply is what was read before. */
  method SetSigned(p: array<bv8>, offset: nat, bits: nat, operand: int, policy: Policy, host: Host)
    returns (reply: Option<int>)
    requires 1 <= bits <= host.word && offset + bits <= 8 * p.Length && Fits(operand, host.word)
    modifies p
    ensures OnlyField(old(p[..]), p[..], offset, bits)
    ensures reply.None? <==> policy == Fail && !InRange(operand, bits, true)
    ensures reply.None? ==> p[..] == old(p[..])
    ensures reply.Some? ==> reply.value == ReadSigned(old(Field(p[..], offset, bits)), bits, host)
    ensures reply.Some? ==> (Outcome(operand, bits, true, policy, Some(Signed(Field(p[..], offset, bits), bits)))
                             <==> !(policy == Saturate && TooFarBelow(operand, bits, host.word)))
  {
    var oldval := GetSignedBitfield(p, offset, bits, host);
    var newval := Checked(operand, 0, bits, policy, host);
    SetReply(operand, bits, policy, host);
    if newval.None? {
      return None;
    }
    WriteSigned(p, offset, bits, newval.value, host.word);
    return Some(oldval);
  }

  lemma SetReply(value: int, bits: nat, policy: Policy, host: Host)
    requires 1 <= bits <= host.word && Fits(value, host.word)
    ensures Checked(value, 0, bits, policy, host).None? <==> policy == Fail && !InRange(value, bits, true)
    ensures Checked(value, 0, bits, policy, host).Some? ==> Fits(Checked(value, 0, bits, policy, host).value, bits)
    ensures Outcome(value, bits, true, policy, Checked(value, 0, bits, policy, host))
      <==> !(policy == Saturate && TooFarBelow(value, bits, host.word))
  {
    SetChecked(value, bits, policy, host);
    if Shifts(bits, host) {
      SignedSetVerdict(value, bits, policy, host);
      WrappedRight(value, bits, host);
    }
  }

  method IncrByUnsigned(p: array<bv8>, offset: nat, bits: nat, incr: int, policy: Policy, word: nat)
    returns (reply: Option<int>)
    requires 1 <= bits < word && offset + bits <= 8 * p.Length
    modifies p
    ensures Outcome(old(Field(p[..], offset, bits)) + incr, bits, false, policy, reply)
    ensures OnlyField(old(p[..]), p[..], offset, bits)
    ensures reply.None? ==> p[..] == old(p[..])
    ensures reply.Some? ==> Field(p[..], offset, bits) == reply.value
  {
    var oldval := GetUnsignedBitfield(p, offset, bits);
    var check := CheckUnsigned(oldval, incr, bits, policy, word);
    UnsignedVerdict(oldval, incr, bits, policy, word);
    if check.direction != 0 && policy == Fail {
      return None;
    }
    var newval := if check.direction != 0 then check.limit else oldval + incr;
    ghost var s := p[..];
    SetUnsignedBitfield(p, offset, bits, newval);
    ReadsWhatWasWritten(s, p[..], offset, bits, newval);
    QuotientIs(newval, Pow2(bits), 0, newval);
    return Some(newval);
  }

  /** BITFIELD SET of an unsigned field: the previous value is the reply; the operand is cast first. */
  method SetUnsigned(p: array<bv8>, offset: nat, bits: nat, operand: int, policy: Policy, word: nat)
    returns (reply: Option<int>)
    requires 1 <= bits < word && offset + bits <= 8 * p.Length
    modifies p
    ensures OnlyField(old(p[..]), p[..], offset, bits)
    ensures reply.None? <==> policy == Fail && !InRange(operand % Pow2(word), bits, false)
    ensures reply.Some? ==> reply.value == old(Field(p[..], offset, bits))
    ensures reply.Some? ==> Outcome(operand % Pow2(word), bits, false, policy, Some(Field(p[..], offset, bits)))
    ensures reply.None? ==> p[..] == old(p[..])
  {
    var oldval := GetUnsignedBitfield(p, offset, bits);
    var cast := operand % Pow2(word);
    var check := CheckUnsigned(cast, 0, bits, policy, word);
    ModPowers(cast, bits, word);
    ModTwice(cast, Pow2(bits));
    if check.direction != 0 && policy == Fail {
      return None;
    }
    var newval := if check.direction != 0 then check.limit else cast;
    ghost var s := p[..];
    SetUnsignedBitfield(p, offset, bits, newval);
    ReadsWhatWasWritten(s, p[..], offset, bits, newval);
    QuotientIs(newval, Pow2(bits), 0, newval);
    return Some(oldval);
  }
}
