/** The formatting engine of firmware/OS/libs/printf.c: what a format means, and the code that writes it. */
module Printf {
  import opened Arith
  import opened Numerals

  /** One entry of the argument list: its raw bits, and the string it points to if it is a pointer to one. */
  datatype Arg = Arg(n: int, s: string)

  /** Text of a floating-point directive: specifier, flags, width, precision and argument. */
  type FloatText = (char, Flags, nat, nat, Arg) -> string

  /** The character at i; a string ends with a zero character. */
  function At(s: string, i: nat): char {
    if i < |s| then s[i] else 0 as char
  }

  predicate IsFlag(c: char) {
    c == '0' || c == '-' || c == '+' || c == ' ' || c == '#'
  }

  function WithFlag(f: Flags, c: char): Flags {
    match c
    case '0' => f.(zeropad := true)
    case '-' => f.(left := true)
    case '+' => f.(plus := true)
    case ' ' => f.(space := true)
    case _ => f.(hash := true)
  }

  function ParseFlags(fmt: string, i: nat, f: Flags): (r: (Flags, nat))
    requires i <= |fmt|
    ensures i <= r.1 <= |fmt|
    decreases |fmt| - i
  {
    if IsFlag(At(fmt, i)) then ParseFlags(fmt, i + 1, WithFlag(f, fmt[i])) else (f, i)
  }

  function Low(raw: int, bits: int): nat
    requires bits > 0
  {
    raw % bits
  }

  function SignedLow(raw: int, bits: int): int
    requires bits > 0
  {
    if raw % bits < bits / 2 then raw % bits else raw % bits - bits
  }

  /** A directive up to its specifier: flags, width, precision, where the specifier is, and the next argument. */
  datatype Directive = Directive(f: Flags, width: nat, prec: nat, at: nat, arg: nat)

  function ParseWidth(fmt: string, d: Directive, args: nat -> Arg): (e: Directive)
    requires d.at <= |fmt|
    ensures d.at <= e.at <= |fmt|
  {
    if IsDigit(At(fmt, d.at)) then var r := Atoi(fmt, d.at, 0); d.(width := r.0, at := r.1)
    else if At(fmt, d.at) == '*' then
      var w := SignedLow(args(d.arg).n, UNSIGNED);
      d.(f := if w < 0 then d.f.(left := true) else d.f, width := if w < 0 then -w else w, at := d.at + 1, arg := d.arg + 1)
    else d
  }

  function ParsePrecision(fmt: string, d: Directive, args: nat -> Arg): (e: Directive)
    requires d.at <= |fmt|
    ensures d.at <= e.at <= |fmt|
  {
    if At(fmt, d.at) != '.' then d
    else
      var e := d.(f := d.f.(precision := true), at := d.at + 1);
      if IsDigit(At(fmt, e.at)) then var r := Atoi(fmt, e.at, 0); e.(prec := r.0, at := r.1)
      else if At(fmt, e.at) == '*' then
        var p := SignedLow(args(e.arg).n, UNSIGNED);
        e.(prec := if p > 0 then p else 0, at := e.at + 1, arg := e.arg + 1)
      else e
  }

  /** On RV32 ptrdiff_t and size_t are as long as long, intmax_t as long as long long. */
  function ParseLength(fmt: string, d: Directive): (e: Directive)
    requires d.at <= |fmt|
    ensures d.at <= e.at <= |fmt|
  {
    match At(fmt, d.at)
    case 'l' =>
      if At(fmt, d.at + 1) == 'l' then d.(f := d.f.(long := true, longLong := true), at := d.at + 2)
      else d.(f := d.f.(long := true), at := d.at + 1)
    case 'h' =>
      if At(fmt, d.at + 1) == 'h' then d.(f := d.f.(short := true, chr := true), at := d.at + 2)
      else d.(f := d.f.(short := true), at := d.at + 1)
    case 't' => d.(f := d.f.(long := true), at := d.at + 1)
    case 'j' => d.(f := d.f.(longLong := true), at := d.at + 1)
    case 'z' => d.(f := d.f.(long := true), at := d.at + 1)
    case _ => d
  }

  const NO_FLAGS: Flags := PLAIN

  function Parse(fmt: string, i: nat, args: nat -> Arg, a: nat): (d: Directive)
    requires i <= |fmt|
    ensures i <= d.at <= |fmt|
  {
    var r := ParseFlags(fmt, i, NO_FLAGS);
    ParseLength(fmt, ParsePrecision(fmt, ParseWidth(fmt, Directive(r.0, 0, 0, r.1, a), args), args))
  }

  predicate IsInteger(c: char) {
    c == 'd' || c == 'i' || c == 'u' || c == 'x' || c == 'X' || c == 'o' || c == 'b'
  }

  predicate IsFloat(c: char) {
    c == 'f' || c == 'F' || c == 'e' || c == 'E' || c == 'g' || c == 'G'
  }

  predicate IsSigned(c: char) {
    c == 'd' || c == 'i'
  }

  function BaseOf(c: char): (b: nat)
    ensures Base(b)
  {
    if c == 'x' || c == 'X' then 16 else if c == 'o' then 8 else if c == 'b' then 2 else 10
  }

  function IntegerFlags(c: char, f: Flags): Flags {
    f.(hash := f.hash && BaseOf(c) != 10, upper := f.upper || c == 'X',
       plus := f.plus && IsSigned(c), space := f.space && IsSigned(c), zeropad := f.zeropad && !f.precision)
  }

  /** The value an integer directive prints; plain char is unsigned on RISC-V. */
  function IntegerValue(c: char, f: Flags, raw: int): int {
    if IsSigned(c) then
      if f.longLong then SignedLow(raw, UNSIGNED * UNSIGNED)
      else if f.long then SignedLow(raw, UNSIGNED)
      else if f.chr then Low(raw, 256)
      else if f.short then SignedLow(raw, 65536)
      else SignedLow(raw, UNSIGNED)
    else if f.longLong then Low(raw, UNSIGNED * UNSIGNED)
    else if f.long then Low(raw, UNSIGNED)
    else if f.chr then Low(raw, 256)
    else if f.short then Low(raw, 65536)
    else Low(raw, UNSIGNED)
  }

  function Magnitude(v: int): nat {
    if v < 0 then -v else v
  }

  function IntegerText(c: char, d: Directive, raw: int): string {
    var v := IntegerValue(c, d.f, raw);
    NumberText(Magnitude(v), v < 0, BaseOf(c), d.prec, d.width, IntegerFlags(c, d.f))
  }

  /** Spaces before, or with the flag - after. */
  function Padded(s: string, width: nat, f: Flags): string {
    if f.left then s + Repeat(' ', Gap(|s|, width)) else Repeat(' ', Gap(|s|, width)) + s
  }

  /** A string up to its first zero character. */
  function CString(s: string, i: nat): (r: nat)
    requires i <= |s|
    ensures i <= r <= |s|
    ensures forall k :: i <= k < r ==> s[k] != 0 as char
    ensures r < |s| ==> s[r] == 0 as char
    decreases |s| - i
  {
    if i < |s| && s[i] != 0 as char then CString(s, i + 1) else i
  }

  function StringText(s: string, d: Directive): string {
    var n := CString(s, 0);
    Padded(s[..if d.f.precision && d.prec < n then d.prec else n], d.width, d.f)
  }

  const POINTER_WIDTH: nat := 8

  function PointerText(d: Directive, raw: int): string {
    NumberText(Low(raw, UNSIGNED), false, 16, d.prec, POINTER_WIDTH, d.f.(zeropad := true, upper := true))
  }

  /** What one directive prints. */
  function DirectiveText(c: char, d: Directive, x: Arg, floats: FloatText): string {
    if IsInteger(c) then IntegerText(c, d, x.n)
    else if IsFloat(c) then floats(c, d.f, d.width, d.prec, x)
    else if c == 'c' then Padded([Low(x.n, 256) as char], d.width, d.f)
    else if c == 's' then StringText(x.s, d)
    else if c == 'p' then PointerText(d, x.n)
    else [c]
  }

  predicate TakesArgument(c: char) {
    IsInteger(c) || IsFloat(c) || c == 'c' || c == 's' || c == 'p'
  }

  /** The unlimited output of a format. */
  function Format(fmt: string, i: nat, args: nat -> Arg, a: nat, floats: FloatText): string
    decreases |fmt| - i
  {
    if At(fmt, i) == 0 as char then []
    else if fmt[i] != '%' then [fmt[i]] + Format(fmt, i + 1, args, a, floats)
    else
      var d := Parse(fmt, i + 1, args, a);
      var c := At(fmt, d.at);
      DirectiveText(c, d, args(d.arg), floats) +
      Format(fmt, d.at + 1, args, if TakesArgument(c) then d.arg + 1 else d.arg, floats)
  }

  // ------------------------------------------------------------ the bounded buffer

  /** A buffer of which at most n characters have been overwritten by the text. */
  function Filled(text: string, was: string, n: nat): (r: string)
    requires n <= |was|
    ensures |r| == |was|
  {
    text[..Min(|text|, n)] + was[Min(|text|, n)..]
  }

  /** What snprintf leaves: as much text as fits before the last place, a zero, and the rest untouched. */
  function Terminated(text: string, was: string, count: nat): string
    requires 1 <= count <= |was|
  {
    var m := Min(|text|, count - 1);
    text[..m] + [0 as char] + was[m + 1..]
  }

  lemma TerminateFilled(text: string, was: string, n: nat)
    requires 1 <= n <= |was|
    ensures Filled(text, was, n)[Min(|text|, n - 1) := 0 as char] == Terminated(text, was, n)
  {
  }

  lemma PutFilled(text: string, was: string, n: nat, c: char)
    requires n <= |was|
    ensures Filled(text + [c], was, n) == if |text| < n then Filled(text, was, n)[|text| := c] else Filled(text, was, n)
  {
  }

  /** Place by place: the text before the last place, a zero after it, and every other place as it was. */
  predicate IsBounded(r: string, text: string, was: string, count: nat)
    requires 1 <= count <= |was|
  {
    var m := Min(|text|, count - 1);
    |r| == |was| && forall k :: 0 <= k < |r| ==> r[k] == if k < m then text[k] else if k == m then 0 as char else was[k]
  }

  /** Exactly one buffer is bounded so. */
  lemma TerminatedIsPrefix(r: string, text: string, was: string, count: nat)
    requires 1 <= count <= |was|
    ensures r == Terminated(text, was, count) <==> IsBounded(r, text, was, count)
  {
    var t := Terminated(text, was, count);
    if IsBounded(r, text, was, count) {
      assert forall k :: 0 <= k < |r| ==> r[k] == t[k];
    }
  }

  /** out, buffer, idx and maxlen; `text` is everything put so far. */
  class Output {
    const buffer: array<char>
    const maxlen: nat
    ghost const was: string
    var idx: nat
    ghost var text: string

    constructor (buffer: array<char>, maxlen: nat)
      requires maxlen <= buffer.Length && maxlen < UNSIGNED
      ensures Valid() && this.buffer == buffer && this.maxlen == maxlen && was == buffer[..] && text == []
    {
      this.buffer, this.maxlen, idx := buffer, maxlen, 0;
      was, text := buffer[..], [];
    }

    ghost predicate Valid()
      reads this, buffer
    {
      maxlen < UNSIGNED && maxlen <= buffer.Length == |was| && idx == |text| && buffer[..] == Filled(text, was, maxlen)
    }

    /** out(c, buffer, idx++, maxlen) */
    method Put(c: char)
      requires Valid()
      modifies this, buffer
      ensures Valid() && text == old(text) + [c]
    {
      PutFilled(text, was, maxlen, c);
      if idx < maxlen {
        buffer[idx] := c;
      }
      idx := idx + 1;
      text := text + [c];
    }

    method PutMany(c: char, n: nat)
      requires Valid()
      modifies this, buffer
      ensures Valid() && text == old(text) + Repeat(c, n)
    {
      hide Filled;
      for i := 0 to n
        invariant Valid() && text == old(text) + Repeat(c, i)
      {
        Put(c);
        assert Repeat(c, i) + [c] == Repeat(c, i + 1);
      }
    }

    method PutText(s: string)
      requires Valid()
      modifies this, buffer
      ensures Valid() && text == old(text) + s
    {
      hide Filled;
      for i := 0 to |s|
        invariant Valid() && text == old(text) + s[..i]
      {
        Put(s[i]);
        assert s[..i] + [s[i]] == s[..i + 1];
      }
      assert s[..|s|] == s;
    }

    /** out(0, buffer, idx < maxlen ? idx : maxlen - 1, maxlen) */
    method Terminate()
      requires Valid()
      modifies buffer
      ensures buffer[..] == if maxlen == 0 then was else Terminated(text, was, maxlen)
    {
      var at := if idx < maxlen then idx else (maxlen - 1) % UNSIGNED;
      if maxlen > 0 { TerminateFilled(text, was, maxlen); }
      if at < maxlen {
        buffer[at] := 0 as char;
      }
    }

    /** _out_rev */
    method OutRev(buf: array<char>, len: nat, width: nat, f: Flags)
      requires Valid() && buf != buffer && len <= buf.Length
      modifies this, buffer
      ensures Valid() && text == old(text) + Turned(buf[..len], width, f)
    {
      hide Filled, Reverse;
      ghost var start := text;
      ghost var s := buf[..len];
      var left := if f.left || f.zeropad then 0 else Gap(len, width);
      PutMany(' ', left);
      ghost var padded := text;
      var n := len;
      NothingReversed(s);
      while n > 0
        invariant n <= len && Valid() && text == padded + Reverse(s[n..]) && buf[..len] == s
      {
        n := n - 1;
        Put(buf[n]);
        ReverseGrows(s, n);
      }
      assert s[0..] == s;
      var right := if f.left then Gap(len, width) else 0;
      PutMany(' ', right);
      assert text == start + (Repeat(' ', left) + Reverse(s) + Repeat(' ', right));
    }

    /** _ntoa_long and _ntoa_long_long: digits into a buffer of thirty-two, then _ntoa_format. */
    method Ntoa(value: nat, negative: bool, base: nat, prec: nat, width: nat, f: Flags)
      requires Valid() && Base(base)
      modifies this, buffer
      ensures Valid() && text == old(text) + NumberText(value, negative, base, prec, width, f)
    {
      hide Filled, Turned, Buffered, InnerWidth;
      var buf := new char[BUFFER_SIZE];
      var g := if value == 0 then f.(hash := false) else f;
      var len := 0;
      if !f.precision || value != 0 {
        len := Digits(buf, value, base, f.upper);
      } else {
        assert buf[..0] == [];
      }
      NtoaFormat(buf, len, negative, base, prec, width, g);
    }

    method NtoaFormat(buf: array<char>, len0: nat, negative: bool, base: nat, prec: nat, width0: nat, f: Flags)
      requires Valid() && buf != buffer && buf.Length == BUFFER_SIZE && len0 <= BUFFER_SIZE
      modifies this, buffer, buf
      ensures Valid()
      ensures text == old(text) + Turned(Buffered(old(buf[..len0]), negative, base, prec, width0, f), InnerWidth(negative, width0, f), f)
    {
      hide Filled, Turned, Hashed, Fill;
      var len, width := len0, width0;
      if !f.left {
        if width > 0 && f.zeropad && (negative || f.plus || f.space) { width := width - 1; }
        len := FillZeros(buf, len, prec);
        len := FillZeros(buf, len, if f.zeropad then width else 0);
      }
      if f.hash {
        len := Hash(buf, len, base, prec, width, f);
      }
      len := PushSign(buf, len, negative, f);
      assert buf[..len] == Buffered(old(buf[..len0]), negative, base, prec, width0, f);
      OutRev(buf, len, width, f);
    }

    method PutPadded(s: string, width: nat, f: Flags)
      requires Valid()
      modifies this, buffer
      ensures Valid() && text == old(text) + Padded(s, width, f)
    {
      hide Filled;
      ghost var start := text;
      var gap := Gap(|s|, width);
      if f.left {
        PutText(s);
        PutMany(' ', gap);
        assert text == start + (s + Repeat(' ', gap));
      } else {
        PutMany(' ', gap);
        PutText(s);
        assert text == start + (Repeat(' ', gap) + s);
      }
    }

    /** The switch over the specifier. */
    method PutDirective(c: char, d: Directive, x: Arg, floats: FloatText)
      requires Valid()
      modifies this, buffer
      ensures Valid() && text == old(text) + DirectiveText(c, d, x, floats)
    {
      hide Filled, NumberText, Padded, IntegerValue, IntegerFlags;
      if IsInteger(c) {
        var v := IntegerValue(c, d.f, x.n);
        Ntoa(Magnitude(v), v < 0, BaseOf(c), d.prec, d.width, IntegerFlags(c, d.f));
      } else if IsFloat(c) {
        PutText(floats(c, d.f, d.width, d.prec, x));
      } else if c == 'c' {
        PutPadded([Low(x.n, 256) as char], d.width, d.f);
      } else if c == 's' {
        var n := StringLength(x.s);
        if d.f.precision && d.prec < n { n := d.prec; }
        PutPadded(x.s[..n], d.width, d.f);
      } else if c == 'p' {
        Ntoa(Low(x.n, UNSIGNED), false, 16, d.prec, POINTER_WIDTH, d.f.(zeropad := true, upper := true));
      } else {
        Put(c);
      }
    }

    method OneDirective(fmt: string, i: nat, args: nat -> Arg, a: nat, floats: FloatText) returns (j: nat, b: nat)
      requires Valid() && i < |fmt| && fmt[i] == '%'
      modifies this, buffer
      ensures Valid() && i < j <= |fmt| + 1
      ensures text + Format(fmt, j, args, b, floats) == old(text) + Format(fmt, i, args, a, floats)
    {
      hide Filled, DirectiveText, TakesArgument, Format;
      FormatStep(fmt, i, args, a, floats);
      var d := ReadDirective(fmt, i + 1, args, a);
      var c := At(fmt, d.at);
      PutDirective(c, d, args(d.arg), floats);
      b := if TakesArgument(c) then d.arg + 1 else d.arg;
      j := d.at + 1;
    }

    /** _vsnprintf: the loop over the format, then the terminating zero. */
    method Vsnprintf(fmt: string, args: nat -> Arg, floats: FloatText) returns (length: nat)
      requires Valid() && text == []
      modifies this, buffer
      ensures text == Format(fmt, 0, args, 0, floats) && length == |text|
      ensures buffer[..] == if maxlen == 0 then was else Terminated(text, was, maxlen)
    {
      hide Filled, Terminated, DirectiveText, TakesArgument, Format;
      var i: nat, a: nat := 0, 0;
      while i < |fmt| && fmt[i] != 0 as char
        invariant Valid()
        invariant text + Format(fmt, i, args, a, floats) == Format(fmt, 0, args, 0, floats)
        decreases |fmt| - i
      {
        FormatStep(fmt, i, args, a, floats);
        if fmt[i] != '%' {
          Put(fmt[i]);
          i := i + 1;
        } else {
          i, a := OneDirective(fmt, i, args, a, floats);
        }
      }
      FormatEndsAt(fmt, i, args, a, floats);
      length := idx;
      Terminate();
    }
  }

  /** One round of the loop. */
  lemma FormatStep(fmt: string, i: nat, args: nat -> Arg, a: nat, floats: FloatText)
    requires i < |fmt| && fmt[i] != 0 as char
    ensures fmt[i] != '%' ==> Format(fmt, i, args, a, floats) == [fmt[i]] + Format(fmt, i + 1, args, a, floats)
    ensures fmt[i] == '%' ==>
              var d := Parse(fmt, i + 1, args, a); var c := At(fmt, d.at);
              Format(fmt, i, args, a, floats) == DirectiveText(c, d, args(d.arg), floats) +
                Format(fmt, d.at + 1, args, if TakesArgument(c) then d.arg + 1 else d.arg, floats)
  {
    hide DirectiveText, TakesArgument, Parse;
  }

  lemma FormatEndsAt(fmt: string, i: nat, args: nat -> Arg, a: nat, floats: FloatText)
    requires At(fmt, i) == 0 as char
    ensures Format(fmt, i, args, a, floats) == []
  {
  }

  /** snprintf: for every format, every argument list and every count, the buffer keeps the first count - 1 characters of
      the unlimited output and a zero, no other place changes, and the result is the unlimited length. */
  method Snprintf(buffer: array<char>, count: nat, fmt: string, args: nat -> Arg, floats: FloatText) returns (length: nat)
    requires count <= buffer.Length && count < UNSIGNED
    modifies buffer
    ensures length == |Format(fmt, 0, args, 0, floats)|
    ensures if count == 0 then buffer[..] == old(buffer[..])
            else IsBounded(buffer[..], Format(fmt, 0, args, 0, floats), old(buffer[..]), count)
  {
    hide Format, Terminated, Filled, IsBounded;
    ghost var was := buffer[..];
    var out := new Output(buffer, count);
    length := out.Vsnprintf(fmt, args, floats);
    if count > 0 { TerminatedIsPrefix(buffer[..], Format(fmt, 0, args, 0, floats), was, count); }
  }

  // ------------------------------------------------------------ reading a directive

  method ReadFlags(fmt: string, i0: nat) returns (f: Flags, i: nat)
    requires i0 <= |fmt|
    ensures (f, i) == ParseFlags(fmt, i0, NO_FLAGS)
  {
    f, i := NO_FLAGS, i0;
    while IsFlag(At(fmt, i))
      invariant i0 <= i <= |fmt| && ParseFlags(fmt, i, f) == ParseFlags(fmt, i0, NO_FLAGS)
      decreases |fmt| - i
    {
      f, i := WithFlag(f, fmt[i]), i + 1;
    }
  }

  /** _atoi */
  method ReadNumber(s: string, i0: nat) returns (v: nat, i: nat)
    requires i0 <= |s|
    ensures (v, i) == Atoi(s, i0, 0)
  {
    v, i := 0, i0;
    while i < |s| && IsDigit(s[i])
      invariant i0 <= i <= |s| && Atoi(s, i, v) == Atoi(s, i0, 0)
    {
      v := (v * 10 + (s[i] as int - '0' as int)) % UNSIGNED;
      i := i + 1;
    }
  }

  /** _strnlen_s without its limit */
  method StringLength(s: string) returns (n: nat)
    ensures n == CString(s, 0)
  {
    n := 0;
    while n < |s| && s[n] != 0 as char
      invariant n <= |s| && CString(s, n) == CString(s, 0)
    {
      n := n + 1;
    }
  }

  method ReadDirective(fmt: string, i: nat, args: nat -> Arg, a: nat) returns (d: Directive)
    requires i <= |fmt|
    ensures d == Parse(fmt, i, args, a)
  {
    hide ParseFlags, Atoi;
    var f, at := ReadFlags(fmt, i);
    d := Directive(f, 0, 0, at, a);
    d := ReadWidth(fmt, d, args);
    d := ReadPrecision(fmt, d, args);
    d := ParseLength(fmt, d);
  }

  method ReadWidth(fmt: string, d: Directive, args: nat -> Arg) returns (e: Directive)
    requires d.at <= |fmt|
    ensures e == ParseWidth(fmt, d, args)
  {
    e := d;
    if IsDigit(At(fmt, d.at)) {
      var w, at := ReadNumber(fmt, d.at);
      e := d.(width := w, at := at);
    } else if At(fmt, d.at) == '*' {
      var w := SignedLow(args(d.arg).n, UNSIGNED);
      if w < 0 {
        e := d.(f := d.f.(left := true), width := -w);
      } else {
        e := d.(width := w);
      }
      e := e.(at := d.at + 1, arg := d.arg + 1);
    }
  }

  method ReadPrecision(fmt: string, d: Directive, args: nat -> Arg) returns (e: Directive)
    requires d.at <= |fmt|
    ensures e == ParsePrecision(fmt, d, args)
  {
    e := d;
    if At(fmt, d.at) == '.' {
      e := d.(f := d.f.(precision := true), at := d.at + 1);
      if IsDigit(At(fmt, e.at)) {
        var p, at := ReadNumber(fmt, e.at);
        e := e.(prec := p, at := at);
      } else if At(fmt, e.at) == '*' {
        var p := SignedLow(args(e.arg).n, UNSIGNED);
        e := e.(prec := if p > 0 then p else 0, at := e.at + 1, arg := e.arg + 1);
      }
    }
  }

  lemma NothingReversed(s: string)
    ensures Reverse(s[|s|..]) == []
  {
  }

  lemma ReverseGrows(s: string, n: nat)
    requires n < |s|
    ensures Reverse(s[n..]) == Reverse(s[n + 1..]) + [s[n]]
  {
    assert s[n..][1..] == s[n + 1..];
  }

  // ------------------------------------------------------------ loops over the conversion buffer

  /** do { buf[len++] = digit; value /= base; } while (value && len < PRINTF_NTOA_BUFFER_SIZE) */
  method Digits(buf: array<char>, value: nat, base: nat, upper: bool) returns (len: nat)
    requires buf.Length == BUFFER_SIZE && Base(base)
    modifies buf
    ensures len <= BUFFER_SIZE && buf[..len] == DigitsRev(value, base, upper, BUFFER_SIZE)
  {
    hide DigitsRev, DigitChar;
    len := 0;
    var v: nat := value;
    while true
      invariant len < BUFFER_SIZE
      invariant buf[..len] + DigitsRev(v, base, upper, BUFFER_SIZE - len) == DigitsRev(value, base, upper, BUFFER_SIZE)
      decreases BUFFER_SIZE - len
    {
      ghost var done := buf[..len];
      NextDigit(v, base, upper, BUFFER_SIZE - len);
      buf[len] := DigitChar(v % base, upper);
      assert buf[..len + 1] == done + [DigitChar(v % base, upper)];
      len := len + 1;
      v := v / base;
      if v == 0 || len >= BUFFER_SIZE { break; }
    }
  }

  lemma NextDigit(v: nat, base: nat, upper: bool, room: nat)
    requires Base(base) && room > 0
    ensures 0 <= v % base < 16 && v / base >= 0
    ensures DigitsRev(v, base, upper, room) == [DigitChar(v % base, upper)] +
              (if v / base != 0 && room > 1 then DigitsRev(v / base, base, upper, room - 1) else [])
  {
  }

  /** while (len < n && len < PRINTF_NTOA_BUFFER_SIZE) buf[len++] = '0' */
  method FillZeros(buf: array<char>, len0: nat, n: nat) returns (len: nat)
    requires buf.Length == BUFFER_SIZE && len0 <= BUFFER_SIZE
    modifies buf
    ensures len <= BUFFER_SIZE && buf[..len] == Fill(old(buf[..len0]), n)
  {
    len := len0;
    while len < n && len < BUFFER_SIZE
      invariant len0 <= len <= BUFFER_SIZE && (len > len0 ==> len <= n)
      invariant buf[..len] == old(buf[..len0]) + Repeat('0', len - len0)
      decreases BUFFER_SIZE - len
    {
      ghost var done := buf[..len];
      buf[len] := '0';
      len := len + 1;
      assert buf[..len] == done + ['0'];
    }
  }

  method PushChar(buf: array<char>, len0: nat, c: char) returns (len: nat)
    requires buf.Length == BUFFER_SIZE && len0 <= BUFFER_SIZE
    modifies buf
    ensures len <= BUFFER_SIZE && buf[..len] == Push(old(buf[..len0]), c)
  {
    len := len0;
    if len < BUFFER_SIZE {
      buf[len] := c;
      len := len + 1;
      assert buf[..len] == old(buf[..len0]) + [c];
    }
  }

  method PushSign(buf: array<char>, len0: nat, negative: bool, f: Flags) returns (len: nat)
    requires buf.Length == BUFFER_SIZE && len0 <= BUFFER_SIZE
    modifies buf
    ensures len <= BUFFER_SIZE
    ensures buf[..len] == if len0 < BUFFER_SIZE then old(buf[..len0]) + SignOf(negative, f) else old(buf[..len0])
  {
    len := len0;
    if len < BUFFER_SIZE {
      if negative {
        len := PushChar(buf, len, '-');
      } else if f.plus {
        len := PushChar(buf, len, '+');
      } else if f.space {
        len := PushChar(buf, len, ' ');
      }
    }
  }

  /** The prefix 0, 0x, 0X or 0b, written backwards over padding zeros where it can be. */
  method Hash(buf: array<char>, len0: nat, base: nat, prec: nat, width: nat, f: Flags) returns (len: nat)
    requires buf.Length == BUFFER_SIZE && len0 <= BUFFER_SIZE
    modifies buf
    ensures len <= BUFFER_SIZE && buf[..len] == Hashed(old(buf[..len0]), base, prec, width, f)
  {
    hide Push;
    len := len0;
    if !f.precision && len > 0 && (len == prec || len == width) {
      len := len - 1;
      if len > 0 && base == 16 { len := len - 1; }
    }
    assert buf[..len] == old(buf[..len0])[..len];
    if base == 16 {
      len := PushChar(buf, len, if f.upper then 'X' else 'x');
    } else if base == 2 {
      len := PushChar(buf, len, 'b');
    }
    len := PushChar(buf, len, '0');
  }

  // ------------------------------------------------------------ end to end

  /** Text without directives is printed as it stands. */
  lemma {:induction false} LiteralText(fmt: string, i: nat, args: nat -> Arg, a: nat, floats: FloatText)
    requires i <= |fmt| && forall k :: i <= k < |fmt| ==> fmt[k] != '%' && fmt[k] != 0 as char
    ensures Format(fmt, i, args, a, floats) == fmt[i..]
    decreases |fmt| - i
  {
    if i < |fmt| { LiteralText(fmt, i + 1, args, a, floats); }
  }

  /** What %u prints, _atoi reads back. */
  lemma UnsignedRoundTrip(args: nat -> Arg, floats: FloatText)
    ensures var text := Format("%u", 0, args, 0, floats);
            Atoi(text, 0, 0) == (args(0).n % UNSIGNED, |text|)
  {
    hide NumberText, Atoi, Parse, DirectiveText, Format;
    var fmt := "%u";
    FormatStep(fmt, 0, args, 0, floats);
    FormatEndsAt(fmt, 2, args, 1, floats);
    UnsignedDirective(fmt, args, floats);
    var value := args(0).n % UNSIGNED;
    PrintParse(value, "", "");
    var text := NumberText(value, false, 10, 0, 0, PLAIN);
    assert "" + text + "" == text;
    assert At(fmt, Parse(fmt, 1, args, 0).at) == 'u';
    assert text + [] == text;
    assert Format(fmt, 0, args, 0, floats) == text + [];
    assert |""| == 0;
  }

  lemma UnsignedDirective(fmt: string, args: nat -> Arg, floats: FloatText)
    requires fmt == "%u"
    ensures var d := Parse(fmt, 1, args, 0);
            && d == Directive(NO_FLAGS, 0, 0, 1, 0)
            && DirectiveText('u', d, args(0), floats) == NumberText(args(0).n % UNSIGNED, false, 10, 0, 0, PLAIN)
  {
    hide NumberText, Atoi;
  }
}
