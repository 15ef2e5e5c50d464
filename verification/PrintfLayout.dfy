/** What every directive of firmware/OS/libs/printf.c prints, place by place. */
module PrintfLayout {
  import opened Arith
  import opened Numerals
  import opened Printf

  /** A datum of n characters in a field: as wide as asked or as needed, the datum at the right end, or with - at the
      left, and spaces elsewhere. */
  predicate InField(text: string, datum: string, n: nat, width: nat, left: bool)
    requires n <= |datum|
  {
    |text| == Max(width, n) && forall k: nat :: k < |text| ==> text[k] == FieldChar(datum, n, |text|, left, k)
  }

  /** Character k of a field of len characters. */
  function FieldChar(datum: string, n: nat, len: nat, left: bool, k: nat): char
    requires n <= |datum| && n <= len && k < len
  {
    if left then (if k < n then datum[k] else ' ') else if k < len - n then ' ' else datum[k - (len - n)]
  }

  lemma PaddedInField(s: string, width: nat, f: Flags)
    ensures InField(Padded(s, width, f), s, |s|, width, f.left)
  {
  }

  /** The place of the first zero character, or the end. */
  predicate EndsAt(s: string, z: nat) {
    z <= |s| && (forall k :: 0 <= k < z ==> s[k] != 0 as char) && (z < |s| ==> s[z] == 0 as char)
  }

  /** %s: the string up to its first zero and at most as long as the precision, in its field. */
  lemma StringPlaces(d: Directive, x: Arg, floats: FloatText, z: nat)
    requires EndsAt(x.s, z)
    ensures var n := if d.f.precision then Min(d.prec, z) else z;
            InField(DirectiveText('s', d, x, floats), x.s, n, d.width, d.f.left)
  {
    hide Padded, InField;
    var n := if d.f.precision then Min(d.prec, z) else z;
    assert CString(x.s, 0) == z;
    PaddedInField(x.s[..n], d.width, d.f);
    FieldOfPrefix(Padded(x.s[..n], d.width, d.f), x.s, n, d.width, d.f.left);
  }

  lemma FieldOfPrefix(text: string, s: string, n: nat, width: nat, left: bool)
    requires n <= |s| && InField(text, s[..n], n, width, left)
    ensures InField(text, s, n, width, left)
  {
    forall k: nat | k < |text| ensures FieldChar(s[..n], n, |text|, left, k) == FieldChar(s, n, |text|, left, k) {
    }
  }

  /** %c: one character, in its field. */
  lemma CharPlaces(d: Directive, x: Arg, floats: FloatText)
    ensures InField(DirectiveText('c', d, x, floats), [(x.n % 256) as char], 1, d.width, d.f.left)
  {
    hide Padded, InField;
    PaddedInField([(x.n % 256) as char], d.width, d.f);
  }

  /** %% and unknown specifiers print themselves and take no argument. */
  lemma PlainPlaces(c: char, d: Directive, x: Arg, floats: FloatText)
    requires c !in {'d', 'i', 'u', 'x', 'X', 'o', 'b', 'f', 'F', 'e', 'E', 'g', 'G', 'c', 's', 'p'}
    ensures DirectiveText(c, d, x, floats) == [c] && !TakesArgument(c)
  {
  }

  // ------------------------------------------------------------ the layout of a number

  lemma {:induction false} ReverseConcat(s: string, t: string)
    ensures Reverse(s + t) == Reverse(t) + Reverse(s)
  {
    if s == [] {
      assert s + t == t;
    } else {
      assert (s + t)[1..] == s[1..] + t;
      ReverseConcat(s[1..], t);
    }
  }

  lemma {:induction false} ReverseRepeat(c: char, n: nat)
    ensures Reverse(Repeat(c, n)) == Repeat(c, n)
  {
    if n > 0 {
      assert Repeat(c, n)[1..] == Repeat(c, n - 1);
      ReverseRepeat(c, n - 1);
      assert Repeat(c, n - 1) + [c] == Repeat(c, n);
    }
  }

  /** The digits of a number: none for zero with a precision. */
  function DigitsOf(value: nat, base: nat, f: Flags): (s: string)
    requires Base(base)
    ensures |s| <= BUFFER_SIZE
  {
    if f.precision && value == 0 then "" else DigitsRev(value, base, f.upper, BUFFER_SIZE)
  }

  /** Whether a sign is asked for, and which. */
  function Sign(negative: bool, f: Flags): string {
    if negative then "-" else if f.plus then "+" else if f.space then " " else ""
  }

  /** Room that zeros may fill: the width, less the sign's. */
  function Room(negative: bool, width: nat, f: Flags): nat {
    if f.zeropad && !f.left && width > 0 && Sign(negative, f) != "" then width - 1 else width
  }

  /** Zeros before n digits: up to the precision, and with the flag 0 up to the room, in a buffer of thirty-two. */
  function Zeros(n: nat, negative: bool, prec: nat, width: nat, f: Flags): nat
    requires n <= BUFFER_SIZE
  {
    if f.left then 0
    else Max(0, Min(BUFFER_SIZE, Max(prec, if f.zeropad then Room(negative, width, f) else 0)) - n)
  }

  /** The prefix of the flag #, as far as the buffer has room. */
  function Prefix(base: nat, upper: bool, room: nat): string {
    var mark := if base == 16 then (if upper then 'X' else 'x') else 'b';
    if room == 0 then ""
    else if base == 8 then ['0']
    else if room == 1 then [mark]
    else ['0', mark]
  }

  /** Leading characters the prefix takes the place of: one or two, when the number fills the precision or the width. */
  function Gives(len: nat, base: nat, prec: nat, room: nat, f: Flags): nat {
    if !f.precision && len > 0 && (len == prec || len == room) then (if base == 16 && len > 1 then 2 else 1) else 0
  }

  lemma ZerosFit(n: nat, negative: bool, prec: nat, width: nat, f: Flags)
    requires n <= BUFFER_SIZE
    ensures n + Zeros(n, negative, prec, width, f) <= BUFFER_SIZE
    ensures forall len: nat, base: nat, room: nat :: Gives(len, base, prec, room, f) <= len
  {
  }

  /** Sign, prefix, zeros and digits, before spaces are added. */
  function Core(value: nat, negative: bool, base: nat, prec: nat, width: nat, f: Flags): string
    requires Base(base)
  {
    var digits := DigitsOf(value, base, f);
    var body := Repeat('0', Zeros(|digits|, negative, prec, width, f)) + Reverse(digits);
    var hash := f.hash && value != 0;
    ZerosFit(|digits|, negative, prec, width, f);
    var number := if hash then Marked(body, Gives(|body|, base, prec, Room(negative, width, f), f), base, f.upper) else body;
    (if |number| < BUFFER_SIZE then Sign(negative, f) else "") + number
  }

  lemma FillsWithZeros(s: string, n: nat)
    requires |s| <= BUFFER_SIZE
    ensures var z := Max(0, Min(BUFFER_SIZE, n) - |s|);
            |s| + z <= BUFFER_SIZE && Fill(s, n) == s + Repeat('0', z)
  {
  }

  lemma FilledTwice(s: string, m: nat, n: nat)
    requires |s| <= BUFFER_SIZE
    ensures var z := Max(0, Min(BUFFER_SIZE, Max(m, n)) - |s|);
            |s| + z <= BUFFER_SIZE && Fill(Fill(s, m), n) == s + Repeat('0', z)
  {
    FillsWithZeros(s, m);
    FillsWithZeros(Fill(s, m), n);
    var y := Max(0, Min(BUFFER_SIZE, m) - |s|);
    var z := Max(0, Min(BUFFER_SIZE, Max(m, n)) - |s|);
    assert Repeat('0', y) + Repeat('0', z - y) == Repeat('0', z);
    assert (s + Repeat('0', y)) + Repeat('0', z - y) == s + (Repeat('0', y) + Repeat('0', z - y));
  }

  /** The buffer, before it is turned round, without the flag #. */
  lemma BufferedPlain(digits: string, negative: bool, base: nat, prec: nat, width: nat, f: Flags)
    requires |digits| <= BUFFER_SIZE
    ensures var z := Zeros(|digits|, negative, prec, width, f);
            && |digits| + z <= BUFFER_SIZE && Room(negative, width, f) == InnerWidth(negative, width, f)
            && (f.left ==> z == 0)
            && (if f.left then digits else Fill(Fill(digits, prec), if f.zeropad then InnerWidth(negative, width, f) else 0))
               == digits + Repeat('0', z)
  {
    hide Fill;
    FilledTwice(digits, prec, if f.zeropad then InnerWidth(negative, width, f) else 0);
    assert digits + Repeat('0', 0) == digits;
  }

  lemma DropFront(a: string, b: string)
    ensures (a + b)[|a|..] == b
  {
  }

  /** Turning round and taking from the front is dropping from the end and turning round. */
  lemma ReverseDrop(s: string, g: nat)
    requires g <= |s|
    ensures Reverse(s)[g..] == Reverse(s[..|s| - g])
  {
    hide Reverse;
    var t, u := s[..|s| - g], s[|s| - g..];
    assert s == t + u;
    ReverseConcat(t, u);
    DropFront(Reverse(u), Reverse(t));
  }

  /** The prefix pushed on the buffer, back to front. */
  function Prefixed(base: nat, upper: bool, s: string): (r: string)
    requires |s| <= BUFFER_SIZE
    ensures |r| <= BUFFER_SIZE
  {
    Push(if base == 16 then Push(s, if upper then 'X' else 'x') else if base == 2 then Push(s, 'b') else s, '0')
  }

  lemma PushFits(s: string, c: char)
    requires |s| < BUFFER_SIZE
    ensures Push(s, c) == s + [c] && |Push(s, c)| == |s| + 1 && Reverse(Push(s, c)) == [c] + Reverse(s)
  {
    hide Reverse;
    ReverseConcat(s, [c]);
    OneReversed(c);
  }

  lemma PushFull(s: string, c: char)
    requires |s| == BUFFER_SIZE
    ensures Push(s, c) == s
  {
  }

  lemma NothingBefore(r: string)
    ensures "" + r == r
  {
  }

  lemma OneBefore(a: char, b: char, r: string)
    ensures [a] + ([b] + r) == [a, b] + r
  {
  }

  lemma PrefixTurned(base: nat, upper: bool, s: string)
    requires (base == 2 || base == 8 || base == 16) && |s| <= BUFFER_SIZE
    ensures Reverse(Prefixed(base, upper, s)) == Prefix(base, upper, BUFFER_SIZE - |s|) + Reverse(s)
  {
    var m := if base == 16 then (if upper then 'X' else 'x') else 'b';
    var u, r, p := Push(s, m), Reverse(s), Prefix(base, upper, BUFFER_SIZE - |s|);
    assert Prefixed(base, upper, s) == Push(if base == 8 then s else u, '0');
    hide Reverse, Push, Prefixed;
    if |s| == BUFFER_SIZE {
      PushFull(s, m);
      PushFull(s, '0');
      NothingBefore(r);
    } else if base == 8 {
      PushFits(s, '0');
    } else if |s| == BUFFER_SIZE - 1 {
      PushFits(s, m);
      PushFull(u, '0');
    } else {
      PushFits(s, m);
      PushFits(u, '0');
      OneBefore('0', m, r);
    }
  }

  lemma OneReversed(c: char)
    ensures Reverse([c]) == [c]
  {
    assert Reverse([c][1..]) == [];
  }

  lemma HashedIs(s: string, base: nat, prec: nat, width: nat, f: Flags)
    requires (base == 2 || base == 8 || base == 16) && |s| <= BUFFER_SIZE
    ensures var g := Gives(|s|, base, prec, width, f); g <= |s|
    ensures Hashed(s, base, prec, width, f) == Prefixed(base, f.upper, s[..|s| - Gives(|s|, base, prec, width, f)])
  {
    hide Push;
    assert s[..|s|] == s;
  }

  /** The prefix and what is left after some characters have gone. */
  function Marked(body: string, g: nat, base: nat, upper: bool): string
    requires g <= |body| <= BUFFER_SIZE
  {
    Prefix(base, upper, BUFFER_SIZE - (|body| - g)) + body[g..]
  }

  lemma HashedTurned(s: string, base: nat, prec: nat, width: nat, f: Flags)
    requires (base == 2 || base == 8 || base == 16) && |s| <= BUFFER_SIZE
    ensures var g := Gives(|s|, base, prec, width, f);
            g <= |s| && Reverse(Hashed(s, base, prec, width, f)) == Marked(Reverse(s), g, base, f.upper)
  {
    hide Prefixed, Prefix, Gives, Hashed, Reverse;
    HashedIs(s, base, prec, width, f);
    MarkedTurned(s, Gives(|s|, base, prec, width, f), base, f.upper);
  }

  lemma MarkedTurned(s: string, g: nat, base: nat, upper: bool)
    requires (base == 2 || base == 8 || base == 16) && g <= |s| <= BUFFER_SIZE
    ensures Reverse(Prefixed(base, upper, s[..|s| - g])) == Marked(Reverse(s), g, base, upper)
  {
    hide Prefixed, Prefix, Reverse;
    ReverseDrop(s, g);
    PrefixTurned(base, upper, s[..|s| - g]);
  }

  lemma TurnedCore(buffered: string, core: string, width: nat, f: Flags)
    requires core == Reverse(buffered)
    ensures Turned(buffered, width, f) == if f.zeropad && !f.left then core else Padded(core, width, f)
  {
    assert "" + core + "" == core;
    if f.left {
      assert Repeat(' ', 0) + core + Repeat(' ', Gap(|core|, width)) == core + Repeat(' ', Gap(|core|, width));
    } else {
      assert Repeat(' ', Gap(|core|, width)) + core + Repeat(' ', 0) == Repeat(' ', Gap(|core|, width)) + core;
      assert Repeat(' ', 0) + core + Repeat(' ', 0) == core;
    }
  }

  lemma CoreTurned(value: nat, negative: bool, base: nat, prec: nat, width: nat, f: Flags)
    requires Base(base) && (f.hash ==> base != 10)
    ensures var g := if value == 0 then f.(hash := false) else f;
            Core(value, negative, base, prec, width, f) == Reverse(Buffered(DigitsOf(value, base, f), negative, base, prec, width, g))
  {
    hide Hashed, Fill, DigitsRev, Prefix, Gives, Zeros, Room, InnerWidth, SignOf, Sign, Reverse;
    var g := if value == 0 then f.(hash := false) else f;
    var digits := DigitsOf(value, base, f);
    BufferedPlain(digits, negative, base, prec, width, g);
    SameLayout(negative, |digits|, prec, width, f, g);
    var z := Zeros(|digits|, negative, prec, width, f);
    ReverseConcat(digits, Repeat('0', z));
    ReverseRepeat('0', z);
    var a := digits + Repeat('0', z);
    if g.hash { HashedTurned(a, base, prec, InnerWidth(negative, width, g), g); }
    SignOnTop(if g.hash then Hashed(a, base, prec, InnerWidth(negative, width, g), g) else a, negative, g);
  }

  lemma SignOnTop(b: string, negative: bool, f: Flags)
    requires |b| <= BUFFER_SIZE
    ensures Reverse(if |b| < BUFFER_SIZE then b + SignOf(negative, f) else b)
         == (if |b| < BUFFER_SIZE then Sign(negative, f) else "") + Reverse(b)
  {
    hide Reverse, SignOf, Sign;
    ReverseConcat(b, SignOf(negative, f));
    SignTurned(negative, f);
    assert "" + Reverse(b) == Reverse(b);
  }

  /** The flag # has no part in sign, room and zeros. */
  lemma SameLayout(negative: bool, n: nat, prec: nat, width: nat, f: Flags, g: Flags)
    requires n <= BUFFER_SIZE && (g == f || g == f.(hash := false))
    ensures Sign(negative, g) == Sign(negative, f) && Room(negative, width, g) == Room(negative, width, f)
    ensures Zeros(n, negative, prec, width, g) == Zeros(n, negative, prec, width, f)
    ensures forall len: nat, base: nat, room: nat :: Gives(len, base, prec, room, g) == Gives(len, base, prec, room, f)
  {
  }

  lemma SignTurned(negative: bool, f: Flags)
    ensures SignOf(negative, f) == Sign(negative, f) && Reverse(Sign(negative, f)) == Sign(negative, f)
  {
    OneReversed('-');
    OneReversed('+');
    OneReversed(' ');
  }

  /** Every number, whatever the flags: sign, prefix, zeros and digits in a field, on the left with -, filled with zeros
      instead of spaces with 0. */
  lemma NumberPlaces(value: nat, negative: bool, base: nat, prec: nat, width: nat, f: Flags)
    requires Base(base) && (f.hash ==> base != 10)
    ensures var text, core := NumberText(value, negative, base, prec, width, f), Core(value, negative, base, prec, width, f);
            if f.zeropad && !f.left then text == core else InField(text, core, |core|, width, f.left)
  {
    hide Core, Buffered, Turned, Padded, InField, DigitsRev;
    var g := if value == 0 then f.(hash := false) else f;
    var core := Core(value, negative, base, prec, width, f);
    CoreTurned(value, negative, base, prec, width, f);
    TurnedCore(Buffered(DigitsOf(value, base, f), negative, base, prec, width, g), core, InnerWidth(negative, width, g), g);
    PaddedInField(core, InnerWidth(negative, width, g), g);
  }

  // ------------------------------------------------------------ what the numeral stands for

  lemma {:induction false} HornerSplit(s: string, t: string, base: nat)
    ensures Horner(s + t, base) == Horner(s, base) * Power(base, |t|) + Horner(t, base)
  {
    if t == [] {
      assert s + t == s;
      assert Power(base, 0) == 1;
    } else {
      var u, n := t[..|t| - 1], |t| - 1;
      HornerSplit(s, u, base);
      assert (s + t)[..|s + t| - 1] == s + u && (s + t)[|s + t| - 1] == t[n];
      Distribute(Horner(s, base) * Power(base, n), Horner(u, base), base);
      Associate(Horner(s, base), Power(base, n), base);
      Commute(Power(base, n), base);
    }
  }

  predicate Digital(s: string, base: nat) {
    forall i :: 0 <= i < |s| ==> 0 <= DigitOf(s[i]) < base
  }

  /** A numeral is never negative, and zero exactly when all its digits are. */
  lemma {:induction false} HornerZero(s: string, base: nat)
    requires Digital(s, base) && base > 0
    ensures Horner(s, base) >= 0 && (Horner(s, base) == 0 <==> forall i :: 0 <= i < |s| ==> DigitOf(s[i]) == 0)
  {
    if s != [] {
      var u, n := s[..|s| - 1], |s| - 1;
      HornerZero(u, base);
      MulLe(0, Horner(u, base), base);
      if Horner(u, base) > 0 {
        MulLe(1, Horner(u, base), base);
        var i :| 0 <= i < |u| && DigitOf(u[i]) != 0;
        assert DigitOf(s[i]) != 0;
      } else {
        assert forall i :: 0 <= i < n ==> u[i] == s[i];
      }
    }
  }

  /** Zeros and then the numeral of a value above zero: without its first g characters it stands for the same value
      exactly when only padding zeros are gone. */
  lemma GivesKeepsValue(digits: string, value: int, base: nat, z: nat, g: nat)
    requires base >= 2 && value > 0 && Numeral(digits, base, value) && g <= z + |digits|
    ensures var body := Repeat('0', z) + digits;
            Horner(body, base) == value && (Horner(body[g..], base) == value <==> g <= z)
  {
    var body := Repeat('0', z) + digits;
    var front, rest := body[..g], body[g..];
    assert body == front + rest;
    HornerSplit(Repeat('0', z), digits, base);
    HornerZero(Repeat('0', z), base);
    HornerSplit(front, rest, base);
    assert Digital(front, base) by {
      assert forall i :: 0 <= i < |front| ==> front[i] == body[i];
    }
    HornerZero(front, base);
    PowerPositive(base, |rest|);
    if g > z {
      assert DigitOf(front[z]) != 0 by { assert front[z] == digits[0]; }
      MulLe(1, Horner(front, base), Power(base, |rest|));
    } else {
      assert forall i :: 0 <= i < g ==> front[i] == '0';
    }
  }

  /** The number printed with the flag # stands for its value exactly when the prefix takes the place of padding zeros
      only. */
  lemma PrefixKeepsValue(value: nat, negative: bool, base: nat, prec: nat, width: nat, f: Flags)
    requires (base == 2 || base == 8 || base == 16) && 0 < value < UNSIGNED
    ensures var digits := Reverse(DigitsRev(value, base, f.upper, BUFFER_SIZE));
            var z := Zeros(|digits|, negative, prec, width, f);
            var g := Gives(|digits| + z, base, prec, Room(negative, width, f), f);
            var body := Repeat('0', z) + digits;
            g <= |body| && (Horner(body[g..], base) == value <==> g <= z)
  {
    hide Numeral, Horner, DigitsRev, Reverse, Zeros, Room;
    var digits := Reverse(DigitsRev(value, base, f.upper, BUFFER_SIZE));
    var z := Zeros(|digits|, negative, prec, width, f);
    PrintedNumeral(value, base, f.upper);
    GivesKeepsValue(digits, value, base, z, Gives(|digits| + z, base, prec, Room(negative, width, f), f));
  }

  /** %#4x prints 0x1234 as 0x34. */
  lemma PrefixLosesDigits()
    ensures NumberText(0x1234, false, 16, 0, 4, PLAIN.(hash := true)) == "0x34"
  {
    var f := PLAIN.(hash := true);
    FourDigits(BUFFER_SIZE);
    assert Reverse("4321") == "1234" by { ReverseFour(); }
    NumberPlaces(0x1234, false, 16, 0, 4, f);
    assert Repeat('0', 0) + "1234" == "1234";
    assert Core(0x1234, false, 16, 0, 4, f) == "0x34";
  }

  lemma FourDigits(room: nat)
    requires room == 32
    ensures DigitsRev(0x1234, 16, false, room) == "4321"
  {
    assert DigitsRev(1, 16, false, room - 3) == "1";
    assert DigitsRev(0x12, 16, false, room - 2) == "21";
    assert DigitsRev(0x123, 16, false, room - 1) == "321";
  }

  lemma ReverseFour()
    ensures Reverse("4321") == "1234"
  {
    assert "4321"[1..] == "321" && "321"[1..] == "21" && "21"[1..] == "1" && "1"[1..] == "";
    assert Reverse("1") == "1" && Reverse("21") == "12" && Reverse("321") == "123";
  }

  // ------------------------------------------------------------ integers and pointers

  /** The value an integer directive takes from its argument: the one of the right residue and range for its length;
      with hh even signed directives print a value from 0 to 255. */
  lemma IntegerValueMeans(c: char, f: Flags, raw: int)
    ensures var v := IntegerValue(c, f, raw);
            var bits := if f.longLong then 0x1_0000_0000_0000_0000 else if f.long then 0x1_0000_0000
                        else if f.chr then 0x100 else if f.short then 0x1_0000 else 0x1_0000_0000;
            && v % bits == raw % bits
            && if (c == 'd' || c == 'i') && (f.longLong || f.long || !f.chr) then -bits / 2 <= v < bits / 2 else 0 <= v < bits
  {
  }

  /** %d, %i, %u, %x, %X, %o and %b with any flags, width, precision and length. */
  lemma IntegerPlaces(c: char, d: Directive, x: Arg, floats: FloatText)
    requires c == 'd' || c == 'i' || c == 'u' || c == 'x' || c == 'X' || c == 'o' || c == 'b'
    ensures var v := IntegerValue(c, d.f, x.n);
            var decimal, signed := c == 'd' || c == 'i' || c == 'u', c == 'd' || c == 'i';
            var base := if decimal then 10 else if c == 'o' then 8 else if c == 'b' then 2 else 16;
            var f := d.f.(hash := d.f.hash && !decimal, upper := d.f.upper || c == 'X', plus := d.f.plus && signed,
                          space := d.f.space && signed, zeropad := d.f.zeropad && !d.f.precision);
            var core := Core(if v < 0 then -v else v, v < 0, base, d.prec, d.width, f);
            var text := DirectiveText(c, d, x, floats);
            if f.zeropad && !f.left then text == core else InField(text, core, |core|, d.width, f.left)
  {
    hide NumberText, Core, InField, IntegerValue;
    var v := IntegerValue(c, d.f, x.n);
    NumberPlaces(Magnitude(v), v < 0, BaseOf(c), d.prec, d.width, IntegerFlags(c, d.f));
  }

  /** %p: the low 32 bits in base 16 with capital letters, in a field of eight, filled with zeros. */
  lemma PointerPlaces(d: Directive, x: Arg, floats: FloatText)
    ensures var f := d.f.(zeropad := true, upper := true); var core := Core(x.n % 0x1_0000_0000, false, 16, d.prec, 8, f);
            var text := DirectiveText('p', d, x, floats);
            if f.left then InField(text, core, |core|, 8, true) else text == core
  {
    hide NumberText, Core, InField;
    NumberPlaces(Low(x.n, UNSIGNED), false, 16, d.prec, 8, d.f.(zeropad := true, upper := true));
  }

  /** %p alone prints exactly eight digits that stand for the address. */
  lemma PointerDigits(d: Directive, x: Arg, floats: FloatText)
    requires d.f == NO_FLAGS && d.prec == 0
    ensures var text := DirectiveText('p', d, x, floats); |text| == 8 && Horner(text, 16) == x.n % UNSIGNED
  {
    hide DigitsRev, Reverse, Horner, Numeral, Digital;
    var v := x.n % UNSIGNED;
    PointerPlaces(d, x, floats);
    PowerOfTwo();
    HexDigits(v, BUFFER_SIZE, 8);
    PrintedNumeral(v, 16, true);
    var digits := Reverse(DigitsRev(v, 16, true, BUFFER_SIZE));
    var zeros := Repeat('0', 8 - |digits|);
    assert "" + (zeros + digits) == zeros + digits;
    HornerSplit(zeros, digits, 16);
    ZerosCountNothing(8 - |digits|);
    NumeralValue(digits, v);
  }

  lemma NumeralValue(s: string, v: int)
    requires Numeral(s, 16, v)
    ensures Horner(s, 16) == v
  {
  }

  lemma ZerosCountNothing(n: nat)
    ensures Horner(Repeat('0', n), 16) == 0
  {
    HornerZero(Repeat('0', n), 16);
  }

  lemma {:induction false} HexDigits(value: nat, room: nat, n: nat)
    requires 1 <= n <= room && n <= 8 && value < Pow2(4 * n)
    ensures |DigitsRev(value, 16, true, room)| <= n
    decreases room
  {
    assert Pow2(0) == 1;
    Pow2Square(2 * n);
    Pow2Square(2 * n - 1);
    if value / 16 != 0 && room > 1 {
      HexDigits(value / 16, room - 1, n - 1);
    }
  }
}
