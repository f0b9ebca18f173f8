/** Numbers as the append-only file writes and reads them. */
module Decimals {

  predicate IsDigit(c: char) { '0' <= c <= '9' }

  function DigitOf(d: nat): (c: char)
    requires d < 10
    ensures IsDigit(c) && c as int - '0' as int == d
  {
    '0' + d as char
  }

  // ll2string on a number that is not negative.
  function Decimal(n: nat): (s: string)
    ensures |s| >= 1 && forall i | 0 <= i < |s| :: IsDigit(s[i])
  {
    if n < 10 then [DigitOf(n)] else Decimal(n / 10) + [DigitOf(n % 10)]
  }

  const LONG_MAX := 0x7FFF_FFFF_FFFF_FFFF
  const INT_MAX := 0x7FFF_FFFF

  function Digits(s: string, acc: nat): nat {
    if s == "" || !IsDigit(s[0]) then acc else Digits(s[1..], 10 * acc + (s[0] as int - '0' as int))
  }

  predicate IsSpace(c: char) { c == ' ' || '\t' <= c <= '\r' }

  // strtol in base ten: blanks, a sign, digits; out-of-range values are clamped.
  function Strtol(s: string): int {
    if s == "" then 0
    else if IsSpace(s[0]) then Strtol(s[1..])
    else if s[0] == '-' then 0 - Min(Digits(s[1..], 0), LONG_MAX + 1)
    else if s[0] == '+' then Min(Digits(s[1..], 0), LONG_MAX)
    else Min(Digits(s, 0), LONG_MAX)
  }

  function Min(a: nat, b: nat): nat { if a < b then a else b }

  // atoi: the value of strtol, cut down to an int.
  function Atoi(s: string): int {
    var v := Strtol(s) % (2 * (INT_MAX + 1));
    if v > INT_MAX then v - 2 * (INT_MAX + 1) else v
  }

  lemma {:induction false} DigitsOfDecimal(n: nat, tail: string)
    ensures Digits(Decimal(n) + tail, 0) == Digits(tail, n)
  {
    if n < 10 {
      assert (Decimal(n) + tail)[1..] == tail;
    } else {
      var d := [DigitOf(n % 10)];
      assert Decimal(n) + tail == Decimal(n / 10) + (d + tail);
      DigitsOfDecimal(n / 10, d + tail);
      assert (d + tail)[1..] == tail;
    }
  }

  /** Reading back what was written, whatever follows the digits. */
  lemma StrtolDecimal(n: nat, tail: string)
    requires n <= LONG_MAX && (tail == "" || !IsDigit(tail[0]))
    ensures Strtol(Decimal(n) + tail) == n
  {
    DigitsOfDecimal(n, tail);
    assert IsDigit((Decimal(n) + tail)[0]);
  }

  lemma AtoiInRange(s: string)
    requires 0 <= Strtol(s) <= INT_MAX
    ensures Atoi(s) == Strtol(s)
  {
  }

  /** The digits of a number, cut short, are the digits of a smaller number. */
  lemma {:induction false} DecimalCut(n: nat, k: nat) returns (m: nat)
    requires 1 <= k <= |Decimal(n)|
    ensures Decimal(n)[..k] == Decimal(m) && m <= n && (n >= 1 ==> m >= 1)
  {
    if k == |Decimal(n)| {
      m := n;
    } else {
      assert n >= 10;
      assert Decimal(n)[..k] == Decimal(n / 10)[..k];
      m := DecimalCut(n / 10, k);
    }
  }

  lemma {:induction false} DecimalLength(n: nat, k: nat)
    requires n < Power(k) && k >= 1
    ensures |Decimal(n)| <= k
  {
    if n >= 10 {
      DecimalLength(n / 10, k - 1);
    }
  }

  function Power(k: nat): nat { if k == 0 then 1 else 10 * Power(k - 1) }

  lemma LongIsShort(n: nat)
    requires n <= LONG_MAX
    ensures |Decimal(n)| <= 19
  {
    assert Power(3) == 1000;
    assert Power(5) == 100 * Power(3);
    assert Power(7) == 100 * Power(5);
    assert Power(9) == 100 * Power(7);
    assert Power(11) == 100 * Power(9);
    assert Power(13) == 100 * Power(11);
    assert Power(15) == 100 * Power(13);
    assert Power(17) == 100 * Power(15);
    assert Power(19) == 100 * Power(17);
    DecimalLength(n, 19);
  }
}

/**
 Commands in the append-only file: arrays of bulk strings as in the "Redis serialization
 protocol specification" (RESP), section "Arrays", and how the loader takes them apart.
 */
module AofText {
  import opened Decimals

  type Command = seq<string>

  function EncodeArg(arg: string): string { "$" + Decimal(|arg|) + "\r\n" + arg + "\r\n" }

  function EncodeArgs(args: Command): string {
    if args == [] then "" else EncodeArg(args[0]) + EncodeArgs(args[1..])
  }

  function Encode(c: Command): string { "*" + Decimal(|c|) + "\r\n" + EncodeArgs(c) }

  // What the server's types allow: argc is an int, a length fits a long.
  predicate Encodable(c: Command) {
    1 <= |c| <= INT_MAX && forall i | 0 <= i < |c| :: |c[i]| <= LONG_MAX
  }

  lemma Associative(a: string, b: string, c: string)
    ensures (a + b) + c == a + (b + c)
  {
  }

  method CatAppendOnlyGenericCommand(dst: string, argv: Command) returns (r: string)
    ensures r == dst + Encode(argv)
  {
    var count := "*" + Decimal(|argv|) + "\r\n";
    r := dst + count;
    Associative(dst, count, EncodeArgs(argv));
    assert argv[0..] == argv;
    for j := 0 to |argv|
      invariant r + EncodeArgs(argv[j..]) == dst + Encode(argv)
    {
      assert argv[j..][1..] == argv[j + 1..];
      var bulk := "$" + Decimal(|argv[j]|) + "\r\n" + argv[j] + "\r\n";
      Associative(r, bulk, EncodeArgs(argv[j + 1..]));
      r := r + bulk;
    }
  }

  /******* Reading *******/

  // How much fgets takes: up to a newline, the buffer's 127 characters or the end of the file.
  function LineEnd(s: string, room: nat): (k: nat)
    ensures k <= |s| && k <= room && (s != "" && room > 0 ==> k > 0)
  {
    if s == "" || room == 0 then 0 else if s[0] == '\n' then 1 else 1 + LineEnd(s[1..], room - 1)
  }

  const LINE := 127

  datatype Scan =
    | End                                       // nothing left
    | Complete(args: Command, rest: string)
    | CutShort                                  // the file ends inside the command
    | BadFormat
    | Unreadable                                // a read error that is not the end of the file
    | NoMemory                                  // a negative length, taken as a huge one

  function ScanArgs(s: string, n: nat): (r: Scan)
    ensures r.Complete? ==> |r.rest| <= |s| && |r.args| == n
    decreases n
  {
    if n == 0 then Complete([], s)
    else if s == "" then CutShort
    else
      var k := LineEnd(s, LINE);
      if s[0] != '$' then BadFormat
      else
        var len := Strtol(s[1..k]);
        if len < 0 then NoMemory
        else if len + 2 > |s| - k then CutShort
        else
          Prepend(s[k..k + len], ScanArgs(s[k + len + 2..], n - 1))
  }

  function Prepend(arg: string, r: Scan): Scan {
    match r
    case Complete(args, rest) => Complete([arg] + args, rest)
    case failed => failed
  }

  function PrependAll(argv: Command, r: Scan): Scan {
    match r
    case Complete(args, rest) => Complete(argv + args, rest)
    case failed => failed
  }

  lemma PrependNothing(r: Scan)
    ensures PrependAll([], r) == r
  {
    if r.Complete? {
      assert [] + r.args == r.args;
    }
  }

  function ScanCommand(s: string): (r: Scan)
    ensures r.Complete? ==> |r.rest| < |s| && |r.args| >= 1
  {
    if s == "" then End
    else
      var k := LineEnd(s, LINE);
      if s[0] != '*' then BadFormat
      else if k == 1 || s[1] == '\0' then
        if k == |s| && k < LINE && s[k - 1] != '\n' then CutShort else Unreadable
      else
        var argc := Atoi(s[1..k]);
        if argc < 1 then BadFormat else ScanArgs(s[k..], argc)
  }

  lemma {:induction false} LineEndAt(s: string, room: nat, k: nat)
    requires k < |s| && k < room && s[k] == '\n' && forall i | 0 <= i < k :: s[i] != '\n'
    ensures LineEnd(s, room) == k + 1
  {
    if k > 0 {
      LineEndAt(s[1..], room - 1, k - 1);
    }
  }

  lemma {:induction false} LineEndAtEof(s: string, room: nat)
    requires |s| <= room && forall i | 0 <= i < |s| :: s[i] != '\n'
    ensures LineEnd(s, room) == |s|
  {
    if s != "" {
      LineEndAtEof(s[1..], room - 1);
    }
  }

  // A header line: a mark, a number and the end of the line.
  function Header(mark: char, n: nat): string { [mark] + Decimal(n) + "\r\n" }

  lemma ReadHeader(mark: char, n: nat, rest: string)
    requires n <= LONG_MAX && mark != '\n'
    ensures LineEnd(Header(mark, n) + rest, LINE) == |Header(mark, n)|
    ensures Strtol((Header(mark, n) + rest)[1..|Header(mark, n)|]) == n
    ensures n <= INT_MAX ==> Atoi((Header(mark, n) + rest)[1..|Header(mark, n)|]) == n
  {
    LongIsShort(n);
    var h := Header(mark, n);
    LineEndAt(h + rest, LINE, |h| - 1);
    assert (h + rest)[1..|h|] == Decimal(n) + "\r\n";
    StrtolDecimal(n, "\r\n");
    if n <= INT_MAX {
      AtoiInRange((h + rest)[1..|h|]);
    }
  }

  lemma CutMiddle(mark: char, d: string, k: nat)
    requires 1 <= k < |d| + 3
    ensures ([mark] + d + "\r\n")[..k][1..k] == if k - 1 <= |d| then d[..k - 1] else d + "\r"
  {
    var h := [mark] + d + "\r\n";
    assert forall i | 0 <= i < |d| :: h[i + 1] == d[i];
    assert h[|d| + 1] == '\r';
  }

  // A header line cut before its end: what is read is the number of the digits that are there.
  lemma ReadCutHeader(mark: char, n: nat, k: nat) returns (m: nat)
    requires n <= LONG_MAX && mark != '\n' && 2 <= k < |Header(mark, n)|
    ensures LineEnd(Header(mark, n)[..k], LINE) == k
    ensures m <= n && (n >= 1 ==> m >= 1) && Strtol(Header(mark, n)[..k][1..k]) == m
    ensures n <= INT_MAX ==> Atoi(Header(mark, n)[..k][1..k]) == m
  {
    LongIsShort(n);
    var h, d := Header(mark, n), |Decimal(n)|;
    LineEndAtEof(h[..k], LINE);
    CutMiddle(mark, Decimal(n), k);
    if k <= 1 + d {
      m := DecimalCut(n, k - 1);
      StrtolDecimal(m, "");
      assert Decimal(m) + "" == Decimal(m);
    } else {
      m := n;
      StrtolDecimal(n, "\r");
    }
    if n <= INT_MAX {
      AtoiInRange(h[..k][1..k]);
    }
  }

  lemma BulkParts(a: string, more: string)
    ensures EncodeArg(a) + more == Header('$', |a|) + (a + "\r\n" + more)
    ensures |EncodeArg(a)| == |Header('$', |a|)| + |a| + 2
    ensures (EncodeArg(a) + more)[|Header('$', |a|)|..|Header('$', |a|)| + |a|] == a
    ensures (EncodeArg(a) + more)[|Header('$', |a|)| + |a| + 2..] == more
  {
  }

  lemma ScanArgsStep(s: string, k: nat, arg: string, more: string, n: nat)
    requires s != "" && s[0] == '$' && LineEnd(s, LINE) == k && Strtol(s[1..k]) == |arg| && k + |arg| + 2 <= |s|
    requires s[k..k + |arg|] == arg && s[k + |arg| + 2..] == more && n >= 1
    ensures ScanArgs(s, n) == Prepend(arg, ScanArgs(more, n - 1))
  {
  }

  lemma ScanBulk(a: string, more: string, n: nat)
    requires |a| <= LONG_MAX && n >= 1
    ensures ScanArgs(EncodeArg(a) + more, n) == Prepend(a, ScanArgs(more, n - 1))
  {
    var s, h := EncodeArg(a) + more, |Header('$', |a|)|;
    BulkParts(a, more);
    assert LineEnd(s, LINE) == h && Strtol(s[1..h]) == |a| by {
      ReadHeader('$', |a|, a + "\r\n" + more);
    }
    ScanArgsStep(s, h, a, more, n);
  }

  lemma {:induction false} ScanEncodedArgs(args: Command, rest: string)
    requires forall i | 0 <= i < |args| :: |args[i]| <= LONG_MAX
    ensures ScanArgs(EncodeArgs(args) + rest, |args|) == Complete(args, rest)
  {
    if args == [] {
      assert "" + rest == rest;
    } else {
      Associative(EncodeArg(args[0]), EncodeArgs(args[1..]), rest);
      ScanBulk(args[0], EncodeArgs(args[1..]) + rest, |args|);
      ScanEncodedArgs(args[1..], rest);
      assert [args[0]] + args[1..] == args;
    }
  }

  /** The loader takes back exactly the command that was written, and stops right behind it. */
  lemma ScanEncoded(c: Command, rest: string)
    requires Encodable(c)
    ensures ScanCommand(Encode(c) + rest) == Complete(c, rest)
  {
    var h, more := Header('*', |c|), EncodeArgs(c) + rest;
    assert Encode(c) + rest == h + more;
    ReadHeader('*', |c|, more);
    assert (h + more)[|h|..] == more;
    ScanEncodedArgs(c, rest);
    assert IsDigit((h + more)[1]) by {
      assert (h + more)[1] == Decimal(|c|)[0];
    }
  }

  lemma ScanCutBulk(a: string, k: nat, n: nat)
    requires |a| <= LONG_MAX && k < |EncodeArg(a)| && n >= 1
    ensures ScanArgs(EncodeArg(a)[..k], n) == CutShort
  {
    var h := Header('$', |a|);
    var s := EncodeArg(a)[..k];
    assert EncodeArg(a) == h + (a + "\r\n");
    if k == 1 {
      LineEndAtEof(s, LINE);
      assert s[1..1] == "";
    } else if 2 <= k < |h| {
      assert s == h[..k];
      var m := ReadCutHeader('$', |a|, k);
    } else if k >= |h| {
      assert s == h + (a + "\r\n")[..k - |h|];
      ReadHeader('$', |a|, (a + "\r\n")[..k - |h|]);
    }
  }

  lemma {:induction false} ScanCutArgs(args: Command, k: nat)
    requires (forall i | 0 <= i < |args| :: |args[i]| <= LONG_MAX) && k < |EncodeArgs(args)|
    ensures ScanArgs(EncodeArgs(args)[..k], |args|) == CutShort
  {
    var a := args[0];
    var b := EncodeArg(a);
    if k < |b| {
      assert EncodeArgs(args)[..k] == b[..k];
      ScanCutBulk(a, k, |args|);
    } else {
      var more := EncodeArgs(args[1..])[..k - |b|];
      assert EncodeArgs(args)[..k] == b + more;
      ScanBulk(a, more, |args|);
      ScanCutArgs(args[1..], k - |b|);
    }
  }

  /** A command cut anywhere inside is recognised as cut short, never as a different command or bad format. */
  lemma ScanCut(c: Command, k: nat)
    requires Encodable(c) && 0 < k < |Encode(c)|
    ensures ScanCommand(Encode(c)[..k]) == CutShort
  {
    var h := Header('*', |c|);
    var s := Encode(c)[..k];
    assert Encode(c) == h + EncodeArgs(c);
    assert h[1] == Decimal(|c|)[0];
    if k == 1 {
      LineEndAtEof(s, LINE);
    } else if k < |h| {
      assert s == h[..k];
      var m := ReadCutHeader('*', |c|, k);
      assert s[k..] == "";
    } else {
      var more := EncodeArgs(c)[..k - |h|];
      assert s == h + more;
      ReadHeader('*', |c|, more);
      assert s[|h|..] == more;
      ScanCutArgs(c, k - |h|);
    }
  }
}
