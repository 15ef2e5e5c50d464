/** Writing a directive and reading it back: what firmware/OS/libs/printf.c makes of every combination of flags, width,
    precision and length. */
module Directives {
  import opened Numerals
  import opened Printf

  /** Given in digits, taken from the arguments, or left out; a precision may also be a dot alone. */
  datatype Count = Absent | Given(n: nat) | Star | Dot

  datatype Length = NoLength | LongInt | LongLongInt | ShortInt | CharInt | Ptrdiff | Intmax | Size

  datatype Shape = Shape(
    zeropad: bool, left: bool, plus: bool, space: bool, hash: bool, width: Count, prec: Count, length: Length)

  const BARE: Shape := Shape(false, false, false, false, false, Absent, Absent, NoLength)

  /** A width has no leading zero, which would be a flag, and counts are 32-bit. */
  predicate WellFormed(sh: Shape) {
    && !sh.width.Dot? && (sh.width.Given? ==> 0 < sh.width.n < UNSIGNED) && (sh.prec.Given? ==> sh.prec.n < UNSIGNED)
  }

  // ------------------------------------------------------------ writing

  function Opt(b: bool, c: char): string {
    if b then [c] else []
  }

  const FLAG_CHARS: string := "0-+ #"

  /** Whether flag number n is asked for. */
  predicate Asked(sh: Shape, n: nat) {
    match n
    case 0 => sh.zeropad
    case 1 => sh.left
    case 2 => sh.plus
    case 3 => sh.space
    case _ => sh.hash
  }

  /** The flags from number n on. */
  function FlagsFrom(sh: Shape, n: nat): string
    decreases 5 - n
  {
    if n >= 5 then "" else Opt(Asked(sh, n), FLAG_CHARS[n]) + FlagsFrom(sh, n + 1)
  }

  function FlagText(sh: Shape): string {
    FlagsFrom(sh, 0)
  }

  function Decimal(n: nat): string {
    NumberText(n, false, 10, 0, 0, PLAIN)
  }

  function WidthText(w: Count): string {
    match w
    case Given(n) => Decimal(n)
    case Star => "*"
    case _ => ""
  }

  function PrecText(p: Count): string {
    match p
    case Absent => ""
    case Dot => "."
    case Given(n) => "." + Decimal(n)
    case Star => ".*"
  }

  function LengthText(l: Length): string {
    match l
    case NoLength => ""
    case LongInt => "l"
    case LongLongInt => "ll"
    case ShortInt => "h"
    case CharInt => "hh"
    case Ptrdiff => "t"
    case Intmax => "j"
    case Size => "z"
  }

  function Rendered(sh: Shape): string {
    FlagText(sh) + (WidthText(sh.width) + (PrecText(sh.prec) + LengthText(sh.length)))
  }

  // ------------------------------------------------------------ meaning

  function FlagMeaning(sh: Shape): Flags {
    PLAIN.(zeropad := sh.zeropad, left := sh.left, plus := sh.plus, space := sh.space, hash := sh.hash)
  }

  /** A width argument below zero asks for its magnitude, to the left. */
  function WidthMeaning(w: Count, d: Directive, args: nat -> Arg): Directive {
    match w
    case Given(n) => d.(width := n)
    case Star =>
      var v := SignedLow(args(d.arg).n, UNSIGNED);
      d.(f := d.f.(left := d.f.left || v < 0), width := Magnitude(v), arg := d.arg + 1)
    case _ => d
  }

  /** A precision argument below zero counts as zero. */
  function PrecMeaning(p: Count, d: Directive, args: nat -> Arg): Directive {
    var e := if p.Absent? then d else d.(f := d.f.(precision := true));
    match p
    case Given(n) => e.(prec := n)
    case Star =>
      var v := SignedLow(args(d.arg).n, UNSIGNED);
      e.(prec := if v > 0 then v else 0, arg := d.arg + 1)
    case _ => e
  }

  function LengthMeaning(l: Length, d: Directive): Directive {
    match l
    case NoLength => d
    case LongInt => d.(f := d.f.(long := true))
    case LongLongInt => d.(f := d.f.(long := true, longLong := true))
    case ShortInt => d.(f := d.f.(short := true))
    case CharInt => d.(f := d.f.(short := true, chr := true))
    case Ptrdiff => d.(f := d.f.(long := true))
    case Intmax => d.(f := d.f.(longLong := true))
    case Size => d.(f := d.f.(long := true))
  }

  /** The same directive, past the text x. */
  function Past(d: Directive, x: string): Directive {
    d.(at := d.at + |x|)
  }

  /** The directive written at i, when a arguments have been used. */
  function Meaning(sh: Shape, i: nat, args: nat -> Arg, a: nat): Directive {
    var d0 := Directive(FlagMeaning(sh), 0, 0, i + |FlagText(sh)|, a);
    var d1 := Past(WidthMeaning(sh.width, d0, args), WidthText(sh.width));
    var d2 := Past(PrecMeaning(sh.prec, d1, args), PrecText(sh.prec));
    Past(LengthMeaning(sh.length, d2), LengthText(sh.length))
  }

  // ------------------------------------------------------------ reading

  /** x stands in s at i. */
  predicate Here(s: string, i: nat, x: string) {
    i + |x| <= |s| && s[i..i + |x|] == x
  }

  lemma HereSplits(s: string, i: nat, x: string, y: string)
    requires Here(s, i, x + y)
    ensures Here(s, i, x) && Here(s, i + |x|, y)
  {
    assert s[i..i + |x|] == (x + y)[..|x|];
    assert s[i + |x|..i + |x| + |y|] == (x + y)[|x|..];
  }

  lemma HereAt(s: string, i: nat, x: string, k: nat)
    requires Here(s, i, x) && k < |x|
    ensures At(s, i + k) == x[k]
  {
    assert s[i..i + |x|][k] == x[k];
  }

  predicate IsModifier(c: char) {
    c == 'l' || c == 'h' || c == 't' || c == 'j' || c == 'z'
  }

  /** A character that ends a directive whatever comes before it. */
  predicate Ends(c: char) {
    !IsFlag(c) && !IsDigit(c) && !IsModifier(c) && c != '*' && c != '.'
  }

  lemma SpecifiersEnd(c: char)
    ensures TakesArgument(c) || c == '%' ==> Ends(c)
  {
  }

  lemma OneFlag(s: string, i: nat, b: bool, c: char, f: Flags)
    requires IsFlag(c) && Here(s, i, Opt(b, c))
    ensures ParseFlags(s, i, f) == ParseFlags(s, i + |Opt(b, c)|, if b then WithFlag(f, c) else f)
  {
    if b { HereAt(s, i, [c], 0); }
  }

  /** The flags once the first n of the five have been read. */
  function FlagsUpTo(sh: Shape, n: nat): Flags {
    NO_FLAGS.(zeropad := n >= 1 && sh.zeropad, left := n >= 2 && sh.left, plus := n >= 3 && sh.plus,
              space := n >= 4 && sh.space, hash := n >= 5 && sh.hash)
  }

  lemma NextFlag(sh: Shape, n: nat)
    requires n < 5
    ensures IsFlag(FLAG_CHARS[n])
    ensures FlagsUpTo(sh, n + 1) == if Asked(sh, n) then WithFlag(FlagsUpTo(sh, n), FLAG_CHARS[n]) else FlagsUpTo(sh, n)
  {
  }

  lemma {:induction false} FlagsReadFrom(s: string, i: nat, sh: Shape, n: nat)
    requires n <= 5 && Here(s, i, FlagsFrom(sh, n)) && !IsFlag(At(s, i + |FlagsFrom(sh, n)|))
    ensures ParseFlags(s, i, FlagsUpTo(sh, n)) == (FlagsUpTo(sh, 5), i + |FlagsFrom(sh, n)|)
    decreases 5 - n
  {
    hide ParseFlags, WithFlag, IsFlag, Opt, Asked, FlagsUpTo;
    if n == 5 {
      NoFlagLeft(s, i, FlagsUpTo(sh, 5));
    } else {
      var x := Opt(Asked(sh, n), FLAG_CHARS[n]);
      HereSplits(s, i, x, FlagsFrom(sh, n + 1));
      NextFlag(sh, n);
      OneFlag(s, i, Asked(sh, n), FLAG_CHARS[n], FlagsUpTo(sh, n));
      FlagsReadFrom(s, i + |x|, sh, n + 1);
    }
  }

  lemma FlagsRead(s: string, i: nat, sh: Shape)
    requires Here(s, i, FlagText(sh)) && !IsFlag(At(s, i + |FlagText(sh)|))
    ensures ParseFlags(s, i, NO_FLAGS) == (FlagMeaning(sh), i + |FlagText(sh)|)
  {
    hide ParseFlags, IsFlag, Here, FlagsFrom;
    FlagsReadFrom(s, i, sh, 0);
    assert FlagsUpTo(sh, 0) == NO_FLAGS && FlagsUpTo(sh, 5) == FlagMeaning(sh);
  }

  lemma NoFlagLeft(s: string, i: nat, f: Flags)
    requires i <= |s| && !IsFlag(At(s, i))
    ensures ParseFlags(s, i, f) == (f, i)
  {
  }

  /** A decimal begins with a digit, which is not 0 unless the number is. */
  lemma DecimalBegins(n: nat)
    requires n < UNSIGNED
    ensures Decimal(n) != [] && IsDigit(Decimal(n)[0]) && (n > 0 ==> !IsFlag(Decimal(n)[0]))
  {
    hide DigitsRev, Reverse, NumberText;
    var t := DigitsRev(n, 10, false, BUFFER_SIZE);
    PlainText(n);
    DecimalDigits(n, BUFFER_SIZE);
    PrintedNumeral(n, 10, false);
    ReverseAt(t, 0);
    LeadingDigit(Reverse(t)[0]);
  }

  lemma LeadingDigit(c: char)
    ensures IsDigit(c) && DigitOf(c) != 0 ==> !IsFlag(c)
  {
  }

  lemma DecimalRead(s: string, i: nat, n: nat)
    requires n < UNSIGNED && Here(s, i, Decimal(n)) && !IsDigit(At(s, i + |Decimal(n)|))
    ensures Atoi(s, i, 0) == (n, i + |Decimal(n)|)
  {
    hide NumberText, Atoi;
    var t := Decimal(n);
    var pre, rest := s[..i], s[i + |t|..];
    assert s == pre + t + rest;
    if rest != [] { assert rest[0] == s[i + |t|]; }
    PrintParse(n, pre, rest);
  }

  lemma WidthRead(s: string, d: Directive, w: Count, args: nat -> Arg)
    requires Here(s, d.at, WidthText(w)) && !w.Dot? && (w.Given? ==> 0 < w.n < UNSIGNED)
    requires d.width == 0 && !IsDigit(At(s, d.at + |WidthText(w)|)) && (w.Absent? ==> At(s, d.at) != '*')
    ensures ParseWidth(s, d, args) == Past(WidthMeaning(w, d, args), WidthText(w))
  {
    hide Decimal, Atoi;
    match w
    case Given(n) =>
      DecimalBegins(n);
      HereAt(s, d.at, Decimal(n), 0);
      DecimalRead(s, d.at, n);
    case Star => HereAt(s, d.at, "*", 0);
    case _ =>
  }

  lemma PrecRead(s: string, d: Directive, p: Count, args: nat -> Arg)
    requires Here(s, d.at, PrecText(p)) && (p.Given? ==> p.n < UNSIGNED)
    requires var c := At(s, d.at + |PrecText(p)|); !IsDigit(c) && c != '*' && c != '.'
    requires d.prec == 0
    ensures ParsePrecision(s, d, args) == Past(PrecMeaning(p, d, args), PrecText(p))
  {
    hide Decimal, Atoi, Here, IsDigit;
    if !p.Absent? { HereAt(s, d.at, PrecText(p), 0); }
    match p
    case Given(n) => GivenPrec(s, d.at, n);
    case Star =>
      HereAt(s, d.at, ".*", 1);
      NotDigits();
    case _ =>
  }

  lemma GivenPrec(s: string, i: nat, n: nat)
    requires n < UNSIGNED && Here(s, i, "." + Decimal(n)) && !IsDigit(At(s, i + 1 + |Decimal(n)|))
    ensures i + 1 <= |s| && IsDigit(At(s, i + 1)) && Atoi(s, i + 1, 0) == (n, i + 1 + |Decimal(n)|)
  {
    hide Decimal, Atoi, IsDigit;
    HereSplits(s, i, ".", Decimal(n));
    DecimalBegins(n);
    HereAt(s, i + 1, Decimal(n), 0);
    DecimalRead(s, i + 1, n);
  }

  lemma NotDigits()
    ensures !IsDigit('*') && !IsDigit('.')
  {
  }

  lemma LengthRead(s: string, d: Directive, l: Length, c: char)
    requires Here(s, d.at, LengthText(l) + [c]) && Ends(c)
    ensures ParseLength(s, d) == Past(LengthMeaning(l, d), LengthText(l))
  {
    var x := LengthText(l) + [c];
    HereAt(s, d.at, x, 0);
    if |x| > 1 { HereAt(s, d.at, x, 1); }
    if |x| > 2 { HereAt(s, d.at, x, 2); }
  }

  /** The first character of what follows the flags, the width and the precision. */
  lemma Boundaries(s: string, i: nat, sh: Shape, c: char)
    requires WellFormed(sh) && Ends(c)
    requires Here(s, i, WidthText(sh.width) + (PrecText(sh.prec) + (LengthText(sh.length) + [c])))
    ensures !IsFlag(At(s, i)) && (sh.width.Absent? ==> At(s, i) != '*')
    ensures var j := i + |WidthText(sh.width)|; !IsDigit(At(s, j))
    ensures var j := i + |WidthText(sh.width)| + |PrecText(sh.prec)|;
            var e := At(s, j); !IsDigit(e) && e != '*' && e != '.'
  {
    hide Decimal, Here, WidthText, PrecText, LengthText, IsFlag, IsDigit;
    var w, p, x := WidthText(sh.width), PrecText(sh.prec), LengthText(sh.length) + [c];
    FirstChars(sh, c);
    HereSplits(s, i, w, p + x);
    HereSplits(s, i + |w|, p, x);
    HereAt(s, i + |w| + |p|, x, 0);
    if p != [] { HereAt(s, i + |w|, p, 0); }
    if w != [] { HereAt(s, i, w, 0); }
  }

  lemma FirstChars(sh: Shape, c: char)
    requires WellFormed(sh) && Ends(c)
    ensures var w := WidthText(sh.width); (sh.width.Absent? <==> w == []) && (w != [] ==> !IsFlag(w[0]))
    ensures var p := PrecText(sh.prec); p != [] ==> p[0] == '.'
    ensures var e := (LengthText(sh.length) + [c])[0]; !IsFlag(e) && !IsDigit(e) && e != '*' && e != '.'
    ensures !IsFlag('.') && !IsDigit('.')
  {
    hide Decimal;
    if sh.width.Given? { DecimalBegins(sh.width.n); }
  }

  /** Reading back what was written gives every field its meaning, wherever the directive stands, and stops at the
      specifier. */
  lemma ParseRendered(s: string, i: nat, sh: Shape, c: char, args: nat -> Arg, a: nat)
    requires WellFormed(sh) && Ends(c) && Here(s, i, Rendered(sh) + [c])
    ensures Parse(s, i, args, a) == Meaning(sh, i, args, a)
    ensures Parse(s, i, args, a).at == i + |Rendered(sh)| && At(s, i + |Rendered(sh)|) == c
  {
    hide Here, FlagText, WidthText, PrecText, LengthText, ParseFlags, ParseWidth, ParsePrecision, ParseLength,
         FlagMeaning, WidthMeaning, PrecMeaning, LengthMeaning, Atoi, IsFlag, IsDigit;
    var f, w, p, l := FlagText(sh), WidthText(sh.width), PrecText(sh.prec), LengthText(sh.length);
    HereAt(s, i, Rendered(sh) + [c], |Rendered(sh)|);
    assert Rendered(sh) + [c] == f + (w + (p + (l + [c])));
    HereSplits(s, i, f, w + (p + (l + [c])));
    HereSplits(s, i + |f|, w, p + (l + [c]));
    HereSplits(s, i + |f| + |w|, p, l + [c]);
    Boundaries(s, i + |f|, sh, c);
    FlagsRead(s, i, sh);
    var d0 := Directive(FlagMeaning(sh), 0, 0, i + |f|, a);
    WidthRead(s, d0, sh.width, args);
    KeepsPlace(sh, d0, args);
    var d1 := ParseWidth(s, d0, args);
    PrecRead(s, d1, sh.prec, args);
    KeepsPlace(sh, d1, args);
    var d2 := ParsePrecision(s, d1, args);
    LengthRead(s, d2, sh.length, c);
    KeepsPlace(sh, d2, args);
  }

  lemma KeepsPlace(sh: Shape, d: Directive, args: nat -> Arg)
    ensures WidthMeaning(sh.width, d, args).at == d.at && WidthMeaning(sh.width, d, args).prec == d.prec
    ensures PrecMeaning(sh.prec, d, args).at == d.at && LengthMeaning(sh.length, d).at == d.at
  {
  }

  // ------------------------------------------------------------ whole formats

  /** A format of one directive prints what the directive means. */
  lemma FormatRendered(sh: Shape, c: char, args: nat -> Arg, a: nat, floats: FloatText)
    requires WellFormed(sh) && Ends(c) && c != 0 as char
    ensures var d := Meaning(sh, 1, args, a);
            Format("%" + Rendered(sh) + [c], 0, args, a, floats) == DirectiveText(c, d, args(d.arg), floats)
  {
    hide Rendered, Meaning, Parse, DirectiveText, Format, TakesArgument;
    var fmt := "%" + Rendered(sh) + [c];
    assert fmt[1..] == Rendered(sh) + [c];
    assert Here(fmt, 1, Rendered(sh) + [c]);
    ParseRendered(fmt, 1, sh, c, args, a);
    FormatStep(fmt, 0, args, a, floats);
    var d := Meaning(sh, 1, args, a);
    var t := DirectiveText(c, d, args(d.arg), floats);
    FormatEndsAt(fmt, d.at + 1, args, if TakesArgument(c) then d.arg + 1 else d.arg, floats);
    assert t + [] == t;
  }

  /** Every integer specifier alone prints the full positional numeral of its argument in its base, after a minus sign
      if the argument is negative. */
  lemma IntegerRoundTrip(c: char, args: nat -> Arg, floats: FloatText)
    requires IsInteger(c)
    ensures var text := Format("%" + [c], 0, args, 0, floats);
            var v := IntegerValue(c, NO_FLAGS, args(0).n);
            if v >= 0 then Numeral(text, BaseOf(c), v) else text != [] && text[0] == '-' && Numeral(text[1..], BaseOf(c), -v)
  {
    hide Format, Rendered, Meaning, IntegerText, IntegerValue, Numeral, DigitsRev, Reverse, BaseOf, IsInteger, Ends;
    SpecifiersEnd(c);
    IntegersTakeArguments(c);
    FormatRendered(BARE, c, args, 0, floats);
    NothingRendered();
    assert "%" + "" + [c] == "%" + [c];
    var v := IntegerValue(c, NO_FLAGS, args(0).n);
    TextOfInteger(c, args(0).n);
    PrintedNumeral(Magnitude(v), BaseOf(c), c == 'X');
    var r := Reverse(DigitsRev(Magnitude(v), BaseOf(c), c == 'X', BUFFER_SIZE));
    assert "" + r == r;
    assert ("-" + r)[1..] == r;
  }

  lemma IntegersTakeArguments(c: char)
    requires IsInteger(c)
    ensures TakesArgument(c) && c != 0 as char
  {
  }

  lemma NothingRendered()
    ensures Rendered(BARE) == ""
    ensures forall args: nat -> Arg :: Meaning(BARE, 1, args, 0) == Directive(NO_FLAGS, 0, 0, 1, 0)
  {
  }

  lemma TextOfInteger(c: char, raw: int)
    requires IsInteger(c)
    ensures var v := IntegerValue(c, NO_FLAGS, raw);
            && Magnitude(v) < UNSIGNED && (v < 0 ==> BaseOf(c) == 10)
            && IntegerText(c, Directive(NO_FLAGS, 0, 0, 1, 0), raw)
            == (if v < 0 then "-" else "") + Reverse(DigitsRev(Magnitude(v), BaseOf(c), c == 'X', BUFFER_SIZE))
  {
    hide DigitsRev, Reverse, NumberText;
    var v := IntegerValue(c, NO_FLAGS, raw);
    assert IntegerFlags(c, NO_FLAGS) == PLAIN.(upper := c == 'X');
    if v < 0 {
      TenDigits(Magnitude(v), 10);
      FewDigits(Magnitude(v), BUFFER_SIZE, 10);
    }
    BareText(Magnitude(v), v < 0, BaseOf(c), c == 'X');
  }
}
