/** What firmware/OS/libs/printf.c makes of one number: digits in reverse, padding, prefix, sign. */
module Numerals {
  import opened Arith

  const BUFFER_SIZE: nat := 32
  const UNSIGNED: int := 0x1_0000_0000

  datatype Flags = Flags(
    zeropad: bool, left: bool, plus: bool, space: bool, hash: bool, upper: bool,
    chr: bool, short: bool, long: bool, longLong: bool, precision: bool)

  predicate IsDigit(c: char) {
    '0' <= c <= '9'
  }

  function DigitChar(d: nat, upper: bool): char
    requires d < 16
  {
    if d < 10 then '0' + d as char else (if upper then 'A' else 'a') + (d - 10) as char
  }

  predicate Base(b: nat) {
    b == 2 || b == 8 || b == 10 || b == 16
  }

  /** The do-while loop of _ntoa_long: least significant digit first, at most `room` digits. */
  function DigitsRev(value: nat, base: nat, upper: bool, room: nat): (s: string)
    requires Base(base) && room > 0
    ensures 1 <= |s| <= room
    decreases room
  {
    [DigitChar(value % base, upper)] +
    (if value / base != 0 && room > 1 then DigitsRev(value / base, base, upper, room - 1) else [])
  }

  function DigitOf(c: char): int {
    if c <= '9' then c as int - '0' as int
    else if c <= 'F' then c as int - 'A' as int + 10
    else c as int - 'a' as int + 10
  }

  /** The number a reversed numeral stands for. */
  function ValueRev(s: string, base: nat): int {
    if s == [] then 0 else DigitOf(s[0]) + base * ValueRev(s[1..], base)
  }

  function Repeat(c: char, n: nat): (s: string)
    ensures |s| == n
  {
    seq(n, _ => c)
  }

  /** Fill with zeros up to n characters or the end of the buffer. */
  function Fill(s: string, n: nat): (r: string)
    requires |s| <= BUFFER_SIZE
    ensures |s| <= |r| <= BUFFER_SIZE
  {
    var m := if n < BUFFER_SIZE then n else BUFFER_SIZE;
    if |s| < m then s + Repeat('0', m - |s|) else s
  }

  function Push(s: string, c: char): (r: string)
    requires |s| <= BUFFER_SIZE
    ensures |r| <= BUFFER_SIZE
  {
    if |s| < BUFFER_SIZE then s + [c] else s
  }

  function Hashed(s: string, base: nat, prec: nat, width: nat, f: Flags): (r: string)
    requires |s| <= BUFFER_SIZE
    ensures |r| <= BUFFER_SIZE
  {
    var t := if !f.precision && |s| > 0 && (|s| == prec || |s| == width)
             then (if |s| > 1 && base == 16 then s[..|s| - 2] else s[..|s| - 1]) else s;
    var u := if base == 16 then Push(t, if f.upper then 'X' else 'x') else if base == 2 then Push(t, 'b') else t;
    Push(u, '0')
  }

  function SignOf(negative: bool, f: Flags): string {
    if negative then "-" else if f.plus then "+" else if f.space then " " else ""
  }

  /** Room kept for the sign when zeros are padded. */
  function InnerWidth(negative: bool, width: nat, f: Flags): nat {
    if !f.left && width > 0 && f.zeropad && (negative || f.plus || f.space) then width - 1 else width
  }

  /** The buffer of _ntoa_format before it is turned round. */
  function Buffered(digits: string, negative: bool, base: nat, prec: nat, width: nat, f: Flags): (r: string)
    requires |digits| <= BUFFER_SIZE
    ensures |r| <= BUFFER_SIZE
  {
    var w := InnerWidth(negative, width, f);
    var a := if f.left then digits else Fill(Fill(digits, prec), if f.zeropad then w else 0);
    var b := if f.hash then Hashed(a, base, prec, w, f) else a;
    if |b| < BUFFER_SIZE then b + SignOf(negative, f) else b
  }

  function Reverse(s: string): (r: string)
    ensures |r| == |s|
  {
    if s == [] then [] else Reverse(s[1..]) + [s[0]]
  }

  function Gap(len: nat, width: nat): nat {
    if len < width then width - len else 0
  }

  /** _out_rev */
  function Turned(s: string, width: nat, f: Flags): string {
    Repeat(' ', if f.left || f.zeropad then 0 else Gap(|s|, width)) + Reverse(s) +
    Repeat(' ', if f.left then Gap(|s|, width) else 0)
  }

  /** The characters of one integer. */
  function NumberText(value: nat, negative: bool, base: nat, prec: nat, width: nat, f: Flags): string
    requires Base(base)
  {
    var g := if value == 0 then f.(hash := false) else f;
    var digits := if !f.precision || value != 0 then DigitsRev(value, base, f.upper, BUFFER_SIZE) else [];
    Turned(Buffered(digits, negative, base, prec, width, g), InnerWidth(negative, width, g), g)
  }

  // ------------------------------------------------------------ properties

  lemma DigitRoundTrip(d: nat, upper: bool)
    requires d < 16
    ensures DigitOf(DigitChar(d, upper)) == d
  {
  }

  /** The digits are the positional representation: they stand for the value, and the leading one is not zero. */
  lemma {:induction false} DigitsMean(value: nat, base: nat, upper: bool, room: nat)
    requires Base(base) && room > 0 && value < Power(base, room)
    ensures var s := DigitsRev(value, base, upper, room);
            && ValueRev(s, base) == value && (value > 0 ==> DigitOf(s[|s| - 1]) != 0)
            && forall i :: 0 <= i < |s| ==> 0 <= DigitOf(s[i]) < base
    decreases room
  {
    hide DigitOf, DigitChar;
    var s := DigitsRev(value, base, upper, room);
    DigitRoundTrip(value % base, upper);
    DivModBasic(value, base);
    if value / base != 0 {
      assert Power(base, room) == base * Power(base, room - 1);
      QuotientBelow(value, base, Power(base, room - 1));
      DigitsMean(value / base, base, upper, room - 1);
      var t := DigitsRev(value / base, base, upper, room - 1);
      hide DigitsRev, Power;
      assert s == [DigitChar(value % base, upper)] + t;
      assert s[1..] == t && s[|s| - 1] == t[|t| - 1];
      assert ValueRev(s, base) == value % base + base * ValueRev(t, base);
    } else {
      assert s[1..] == [] && ValueRev(s[1..], base) == 0;
      assert base * 0 == 0;
    }
  }

  lemma QuotientBelow(v: nat, b: nat, p: int)
    requires b > 0 && v < b * p
    ensures v / b < p
  {
    DivModBasic(v, b);
    if v / b >= p { MulLe(p, v / b, b); }
  }

  /** Thirty-two digits are enough for every 32-bit value in every base. */
  lemma WordFits(value: nat, base: nat)
    requires Base(base) && value < UNSIGNED
    ensures value < Power(base, BUFFER_SIZE)
  {
    PowerOfTwo();
    PowerGrows(2, base, BUFFER_SIZE);
  }

  lemma PowerOfTwo()
    ensures Power(2, BUFFER_SIZE) == UNSIGNED
  {
    assert Power(2, 8) == 256;
    PowerSum(2, 8, 8);
    PowerSum(2, 16, 16);
  }

  lemma {:induction false} PowerGrows(a: nat, b: nat, n: nat)
    requires 1 <= a <= b
    ensures 1 <= Power(a, n) <= Power(b, n)
  {
    if n > 0 {
      PowerGrows(a, b, n - 1);
      MulLe(a, b, Power(a, n - 1));
      MulLe(Power(a, n - 1), Power(b, n - 1), b);
      MulLe(1, a, Power(a, n - 1));
    }
  }

  /** The whole of every 32-bit value is printed. */
  lemma WordDigitsMean(value: nat, base: nat, upper: bool)
    requires Base(base) && value < UNSIGNED
    ensures ValueRev(DigitsRev(value, base, upper, BUFFER_SIZE), base) == value
  {
    WordFits(value, base);
    DigitsMean(value, base, upper, BUFFER_SIZE);
  }

  // ------------------------------------------------------------ _atoi

  /** The loop of _atoi from position i with i digits read so far: the number and where it ends. */
  function Atoi(s: string, i: nat, acc: nat): (r: (nat, nat))
    requires i <= |s|
    ensures i <= r.1 <= |s|
    decreases |s| - i
  {
    if i < |s| && IsDigit(s[i]) then Atoi(s, i + 1, (acc * 10 + (s[i] as int - '0' as int)) % UNSIGNED) else (acc, i)
  }

  /** Reading the reverse of a reversed numeral, most significant digit first. */
  lemma {:induction false} AtoiReverse(t: string, rest: string, pre: string)
    requires AllDigits(t)
    requires rest == [] || !IsDigit(rest[0])
    requires ValueRev(t, 10) < UNSIGNED
    ensures Atoi(pre + Reverse(t) + rest, |pre|, 0) == (ValueRev(t, 10), |pre| + |t|)
  {
    hide Atoi;
    DigitsNonNegative(t);
    AtoiSplits(t, rest, pre, pre + Reverse(t) + rest);
    var s := pre + Reverse(t) + rest;
    assert |pre| + |t| < |s| ==> s[|pre| + |t|] == rest[0];
    AtoiStops(s, |pre| + |t|, ValueRev(t, 10));
  }

  lemma AtoiStops(s: string, i: nat, acc: nat)
    requires i <= |s| && (i < |s| ==> !IsDigit(s[i]))
    ensures Atoi(s, i, acc) == (acc, i)
  {
  }

  lemma AtoiTakes(s: string, i: nat, acc: nat)
    requires i < |s| && IsDigit(s[i])
    ensures Atoi(s, i, acc) == Atoi(s, i + 1, (acc * 10 + (s[i] as int - '0' as int)) % UNSIGNED)
  {
  }

  /** After the digits of t, what has been read is their value. */
  lemma {:induction false} AtoiSplits(t: string, rest: string, pre: string, s: string)
    requires AllDigits(t)
    requires 0 <= ValueRev(t, 10) < UNSIGNED
    requires s == pre + Reverse(t) + rest
    ensures Atoi(s, |pre|, 0) == Atoi(s, |pre| + |t|, ValueRev(t, 10))
  {
    hide Atoi;
    if t != [] {
      var u := t[1..];
      DigitsNonNegative(u);
      assert s == pre + Reverse(u) + ([t[0]] + rest);
      AtoiSplits(u, [t[0]] + rest, pre, s);
      assert s[|pre| + |u|] == t[0];
      AtoiTakes(s, |pre| + |u|, ValueRev(u, 10));
    }
  }

  lemma {:induction false} DigitsNonNegative(t: string)
    requires AllDigits(t)
    ensures ValueRev(t, 10) >= 0
  {
    if t != [] { DigitsNonNegative(t[1..]); }
  }

  const PLAIN: Flags := Flags(false, false, false, false, false, false, false, false, false, false, false)

  /** Print, then parse: every 32-bit value printed in plain decimal is read back by _atoi, in full, whatever stands
      before it and provided no digit follows. */
  lemma PrintParse(value: nat, pre: string, rest: string)
    requires value < UNSIGNED && (rest == [] || !IsDigit(rest[0]))
    ensures var text := NumberText(value, false, 10, 0, 0, PLAIN);
            Atoi(pre + text + rest, |pre|, 0) == (value, |pre| + |text|)
  {
    hide Atoi, ValueRev, DigitsRev, Reverse, Power;
    var t := DigitsRev(value, 10, false, BUFFER_SIZE);
    WordFits(value, 10);
    DigitsMean(value, 10, false, BUFFER_SIZE);
    DecimalDigits(value, BUFFER_SIZE);
    PlainText(value);
    AtoiReverse(t, rest, pre);
  }

  lemma PlainText(value: nat)
    ensures NumberText(value, false, 10, 0, 0, PLAIN) == Reverse(DigitsRev(value, 10, false, BUFFER_SIZE))
  {
    hide DigitsRev, Reverse, Turned, Buffered;
    assert PLAIN.(upper := false) == PLAIN;
    BareText(value, false, 10, false);
  }

  /** Without flags, width and precision a number is printed as its sign and its digits. */
  lemma BareText(value: nat, negative: bool, base: nat, upper: bool)
    requires Base(base) && (negative ==> |DigitsRev(value, base, upper, BUFFER_SIZE)| < BUFFER_SIZE)
    ensures NumberText(value, negative, base, 0, 0, PLAIN.(upper := upper))
         == (if negative then "-" else "") + Reverse(DigitsRev(value, base, upper, BUFFER_SIZE))
  {
    hide DigitsRev, Reverse;
    var d, f := DigitsRev(value, base, upper, BUFFER_SIZE), PLAIN.(upper := upper);
    var s := if negative then "-" else "";
    assert f.(hash := false) == f;
    assert d + [] == d;
    assert Buffered(d, negative, base, 0, 0, f) == d + s;
    ReverseAppend(d, s);
    assert Turned(d + s, 0, f) == Reverse(d + s);
  }

  lemma {:induction false} ReverseAppend(s: string, t: string)
    requires |t| <= 1
    ensures Reverse(s + t) == t + Reverse(s)
  {
    if s == [] {
      assert s + t == t;
      if t != [] { assert t[1..] == []; }
    } else {
      ReverseAppend(s[1..], t);
      assert (s + t)[1..] == s[1..] + t;
    }
  }

  /** The number a numeral stands for, most significant digit first. */
  function Horner(s: string, base: nat): int {
    if s == [] then 0 else Horner(s[..|s| - 1], base) * base + DigitOf(s[|s| - 1])
  }

  lemma {:induction false} HornerReverse(t: string, base: nat)
    ensures Horner(Reverse(t), base) == ValueRev(t, base)
  {
    if t != [] {
      HornerReverse(t[1..], base);
      var r := Reverse(t);
      assert r[..|r| - 1] == Reverse(t[1..]) && r[|r| - 1] == t[0];
      Commute(Horner(Reverse(t[1..]), base), base);
    }
  }

  /** The positional notation of a value: digits of the base, no leading zero, and the right value. */
  predicate Numeral(s: string, base: nat, value: int) {
    && s != [] && Horner(s, base) == value && (value > 0 ==> DigitOf(s[0]) != 0) && (value == 0 ==> |s| == 1)
    && forall i :: 0 <= i < |s| ==> 0 <= DigitOf(s[i]) < base
  }

  /** Every 32-bit value is printed as its full numeral in each of the four bases, most significant digit first. */
  lemma PrintedNumeral(value: nat, base: nat, upper: bool)
    requires Base(base) && value < UNSIGNED
    ensures Numeral(Reverse(DigitsRev(value, base, upper, BUFFER_SIZE)), base, value)
  {
    hide DigitsRev, Reverse, DigitOf, ValueRev, Horner, Power;
    var t := DigitsRev(value, base, upper, BUFFER_SIZE);
    WordFits(value, base);
    DigitsMean(value, base, upper, BUFFER_SIZE);
    HornerReverse(t, base);
    ZeroIsOneDigit(value, base, upper);
    forall i | 0 <= i < |t| ensures Reverse(t)[i] == t[|t| - 1 - i] { ReverseAt(t, i); }
  }

  lemma ZeroIsOneDigit(value: nat, base: nat, upper: bool)
    requires Base(base)
    ensures value == 0 ==> |DigitsRev(value, base, upper, BUFFER_SIZE)| == 1
  {
  }

  lemma {:induction false} ReverseAt(t: string, i: nat)
    requires i < |t|
    ensures Reverse(t)[i] == t[|t| - 1 - i]
  {
    if i < |t| - 1 { ReverseAt(t[1..], i); }
  }

  predicate AllDigits(s: string) {
    forall i :: 0 <= i < |s| ==> IsDigit(s[i])
  }

  lemma ConsDigits(c: char, t: string)
    requires IsDigit(c) && AllDigits(t)
    ensures AllDigits([c] + t)
  {
  }

  lemma {:induction false} DecimalDigits(value: nat, room: nat)
    requires room > 0
    ensures AllDigits(DigitsRev(value, 10, false, room))
    decreases room
  {
    hide AllDigits;
    var more := value / 10 != 0 && room > 1;
    var t := if more then DigitsRev(value / 10, 10, false, room - 1) else [];
    if more { DecimalDigits(value / 10, room - 1); } else { NoDigits(); }
    ConsDigits(DigitChar(value % 10, false), t);
    assert DigitsRev(value, 10, false, room) == [DigitChar(value % 10, false)] + t;
  }

  lemma NoDigits()
    ensures AllDigits([])
  {
  }

  /** The number of decimal digits of a 32-bit value. */
  lemma {:induction false} FewDigits(value: nat, room: nat, n: nat)
    requires 1 <= n <= room && value < Power(10, n)
    ensures |DigitsRev(value, 10, false, room)| <= n
    decreases room
  {
    if value / 10 != 0 && room > 1 {
      assert Power(10, n) == 10 * Power(10, n - 1);
      QuotientBelow(value, 10, Power(10, n - 1));
      FewDigits(value / 10, room - 1, n - 1);
    }
  }

  lemma TenDigits(value: nat, n: nat)
    requires value < UNSIGNED && n == 10
    ensures value < Power(10, n)
  {
    PowerSum(10, 5, 5);
    assert Power(10, 5) == 100000;
  }

  /** Decimal output without precision and with a width of at most 32 is exactly as wide as asked, or as the digits and
      the sign need, for every 32-bit magnitude and every combination of the flags 0, -, + and space. */
  lemma DecimalWidth(value: nat, negative: bool, width: nat, f: Flags)
    requires value < UNSIGNED && width <= 32 && !f.precision && !f.hash && !f.upper
    ensures var need := |DigitsRev(value, 10, false, BUFFER_SIZE)| + |SignOf(negative, f)|;
            |NumberText(value, negative, 10, 0, width, f)| == if need < width then width else need
  {
    hide DigitsRev, Reverse;
    TenDigits(value, 10);
    FewDigits(value, BUFFER_SIZE, 10);
  }
}
