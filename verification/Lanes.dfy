/** Byte lanes: how loads pick bytes out of a memory word and stores place them. */
module Lanes {
  import opened Arith
  import opened Words

  type Byte = x: int | 0 <= x < 256

  /** Byte k of a word, little endian. */
  function ByteOf(w: Word, k: int): Byte
    requires 0 <= k < 4
  {
    match k
    case 0 => w % 0x100
    case 1 => w / 0x100 % 0x100
    case 2 => w / 0x1_0000 % 0x100
    case _ => w / 0x100_0000
  }

  function Join(b0: Byte, b1: Byte, b2: Byte, b3: Byte): Word {
    b0 + 0x100 * b1 + 0x1_0000 * b2 + 0x100_0000 * b3
  }

  predicate IsByte(f3: int) {
    f3 % 4 == 0
  }

  predicate IsHalf(f3: int) {
    f3 % 4 == 1
  }

  // ------------------------------------------------------------ store lanes

  /** M_storeData: bytes are replicated according to the low address bits. */
  function StoreData(addr: Word, v: Word): Word {
    var a0, a1 := addr % 2 == 1, addr / 2 % 2 == 1;
    Join(ByteOf(v, 0),
         if a0 then ByteOf(v, 0) else ByteOf(v, 1),
         if a1 then ByteOf(v, 0) else ByteOf(v, 2),
         if a0 then ByteOf(v, 0) else if a1 then ByteOf(v, 1) else ByteOf(v, 3))
  }

  /** M_storeMask */
  predicate StoreMask(f3: int, addr: Word, k: int) {
    if IsByte(f3) then addr % 4 == k
    else if IsHalf(f3) then (if addr / 2 % 2 == 1 then k >= 2 else k < 2)
    else true
  }

  /** The memory word after the masked write of `Memory`. */
  function StoreWord(f3: int, addr: Word, v: Word, old_: Word): Word {
    var data := StoreData(addr, v);
    Join(if StoreMask(f3, addr, 0) then ByteOf(data, 0) else ByteOf(old_, 0),
         if StoreMask(f3, addr, 1) then ByteOf(data, 1) else ByteOf(old_, 1),
         if StoreMask(f3, addr, 2) then ByteOf(data, 2) else ByteOf(old_, 2),
         if StoreMask(f3, addr, 3) then ByteOf(data, 3) else ByteOf(old_, 3))
  }

  // ------------------------------------------------------------ load lanes

  /** A byte or half-word at the bottom of a register: funct3[2] clear asks for sign extension. */
  function ExtendByte(f3: int, b: Byte): Word {
    if f3 / 4 % 2 == 0 && b >= 0x80 then b + MODULUS - 0x100 else b
  }

  function ExtendHalf(f3: int, lo: Byte, hi: Byte): Word {
    lo + 0x100 * hi + if f3 / 4 % 2 == 0 && hi >= 0x80 then MODULUS - 0x1_0000 else 0
  }

  /** M_Mdata: address bit 1 picks the half-word, bit 0 the byte in it. */
  function LoadWord(f3: int, addr: Word, w: Word): Word {
    var upper := addr / 2 % 2 == 1;
    var lo := if upper then ByteOf(w, 2) else ByteOf(w, 0);
    var hi := if upper then ByteOf(w, 3) else ByteOf(w, 1);
    if IsByte(f3) then ExtendByte(f3, if addr % 2 == 1 then hi else lo)
    else if IsHalf(f3) then ExtendHalf(f3, lo, hi)
    else w
  }

  // ------------------------------------------------------------ what they mean

  /** Number of bytes an access touches. */
  function Size(f3: int): int {
    if IsByte(f3) then 1 else if IsHalf(f3) then 2 else 4
  }

  predicate Aligned(f3: int, addr: Word) {
    addr % Size(f3) == 0
  }

  lemma JoinBytes(b0: Byte, b1: Byte, b2: Byte, b3: Byte)
    ensures var w := Join(b0, b1, b2, b3);
            ByteOf(w, 0) == b0 && ByteOf(w, 1) == b1 && ByteOf(w, 2) == b2 && ByteOf(w, 3) == b3
  {
    var w := Join(b0, b1, b2, b3);
    assert w / 0x100 == b1 + 0x100 * b2 + 0x1_0000 * b3;
    assert w / 0x1_0000 == b2 + 0x100 * b3;
    assert w / 0x100_0000 == b3;
  }

  /** An aligned store replaces exactly the bytes addressed, with the low bytes of the operand. */
  lemma StoreMeans(f3: int, addr: Word, v: Word, w: Word, k: int)
    requires 0 <= k < 4 && Aligned(f3, addr)
    ensures var j := k - addr % 4;
            ByteOf(StoreWord(f3, addr, v, w), k) == if 0 <= j < Size(f3) then ByteOf(v, j) else ByteOf(w, k)
  {
    hide Join, ByteOf;
    var a0, a1 := addr % 2 == 1, addr / 2 % 2 == 1;
    var d := StoreData(addr, v);
    JoinBytes(ByteOf(v, 0), if a0 then ByteOf(v, 0) else ByteOf(v, 1), if a1 then ByteOf(v, 0) else ByteOf(v, 2),
              if a0 then ByteOf(v, 0) else if a1 then ByteOf(v, 1) else ByteOf(v, 3));
    JoinBytes(if StoreMask(f3, addr, 0) then ByteOf(d, 0) else ByteOf(w, 0),
              if StoreMask(f3, addr, 1) then ByteOf(d, 1) else ByteOf(w, 1),
              if StoreMask(f3, addr, 2) then ByteOf(d, 2) else ByteOf(w, 2),
              if StoreMask(f3, addr, 3) then ByteOf(d, 3) else ByteOf(w, 3));
    LowBits(addr);
  }

  lemma LowBits(addr: Word)
    ensures addr % 4 == addr / 2 % 2 * 2 + addr % 2
  {
    var h := addr / 2;
    DivModBasic(addr, 2);
    DivModBasic(h, 2);
    DivModUnique(addr, 4, h / 2, h % 2 * 2 + addr % 2);
  }

  /** The value an access of this shape carries: the low byte or half-word, extended, or the word. */
  function Extend(f3: int, v: Word): Word {
    if IsByte(f3) then ExtendByte(f3, ByteOf(v, 0))
    else if IsHalf(f3) then ExtendHalf(f3, ByteOf(v, 0), ByteOf(v, 1))
    else v
  }

  /** A load after an aligned store of the same shape and address returns the operand, truncated and extended. */
  lemma LoadAfterStore(f3: int, addr: Word, v: Word, w: Word)
    requires Aligned(f3, addr)
    ensures LoadWord(f3, addr, StoreWord(f3, addr, v, w)) == Extend(f3, v)
  {
    hide Join, ByteOf, StoreWord, ExtendByte, ExtendHalf;
    var s := StoreWord(f3, addr, v, w);
    LowBits(addr);
    StoreMeans(f3, addr, v, w, 0);
    StoreMeans(f3, addr, v, w, 1);
    StoreMeans(f3, addr, v, w, 2);
    StoreMeans(f3, addr, v, w, 3);
    FromBytes(s);
    FromBytes(v);
  }

  lemma FromBytes(w: Word)
    ensures w == Join(ByteOf(w, 0), ByteOf(w, 1), ByteOf(w, 2), ByteOf(w, 3))
  {
    var h := w / 0x100;
    var g := h / 0x100;
    assert w / 0x1_0000 == g && w / 0x100_0000 == g / 0x100;
  }

  /** Byte k of a word, as a digit to base 256. */
  lemma ByteIsDigit(w: Word, k: nat)
    requires k < 4
    ensures ByteOf(w, k) == w / Pow2(8 * k) % 0x100
  {
    Pow2Bytes(8);
  }

  lemma Pow2Bytes(n: nat)
    requires n == 8
    ensures Pow2(0) == 1 && Pow2(n) == 0x100 && Pow2(2 * n) == 0x1_0000 && Pow2(3 * n) == 0x100_0000
  {
    assert Pow2(8) == 0x100 && Pow2(16) == 0x1_0000 && Pow2(24) == 0x100_0000;
  }

  /** The size in bytes of the datum an aligned load addresses, and that datum as a number. */
  function Datum(w: Word, addr: Word, size: nat): int {
    w / Pow2(8 * (addr % 4)) % Pow2(8 * size)
  }

  /** An aligned load delivers the addressed byte or half-word as a signed or unsigned number, or the word. */
  lemma LoadMeans(f3: int, addr: Word, w: Word)
    requires Aligned(f3, addr)
    ensures f3 == 0 ==> var b := Datum(w, addr, 1); Signed(LoadWord(f3, addr, w)) == if b < 0x80 then b else b - 0x100
    ensures f3 == 1 ==> var h := Datum(w, addr, 2); Signed(LoadWord(f3, addr, w)) == if h < 0x8000 then h else h - 0x1_0000
    ensures f3 == 2 ==> LoadWord(f3, addr, w) == w
    ensures f3 == 4 ==> LoadWord(f3, addr, w) == Datum(w, addr, 1)
    ensures f3 == 5 ==> LoadWord(f3, addr, w) == Datum(w, addr, 2)
  {
    hide ByteOf, Pow2;
    LowBits(addr);
    Pow2Bytes(8);
    ByteIsDigit(w, addr % 4);
    if f3 == 1 || f3 == 5 { HalfIsDigits(w, addr); }
  }

  lemma HalfIsDigits(w: Word, addr: Word)
    requires addr % 2 == 0
    ensures Datum(w, addr, 2) == if addr / 2 % 2 == 1 then ByteOf(w, 2) + 0x100 * ByteOf(w, 3) else ByteOf(w, 0) + 0x100 * ByteOf(w, 1)
  {
    hide Pow2;
    LowBits(addr);
    Pow2Bytes(8);
    if addr / 2 % 2 == 1 {
      TwoBytes(w / 0x1_0000);
      DivDiv(w, 0x1_0000, 0x100);
    } else {
      TwoBytes(w);
    }
  }

  lemma TwoBytes(u: int)
    ensures u % 0x1_0000 == u % 0x100 + 0x100 * (u / 0x100 % 0x100)
  {
    DivModBasic(u, 0x100);
    DivModBasic(u / 0x100, 0x100);
    DivModUnique(u, 0x1_0000, u / 0x100 / 0x100, u % 0x100 + 0x100 * (u / 0x100 % 0x100));
  }

  /** An aligned store, byte by byte as digits. */
  lemma StoreDigits(f3: int, addr: Word, v: Word, w: Word, k: nat)
    requires k < 4 && Aligned(f3, addr)
    ensures var j := k - addr % 4; var byte := StoreWord(f3, addr, v, w) / Pow2(8 * k) % 0x100;
            byte == if 0 <= j < Size(f3) then v / Pow2(8 * j) % 0x100 else w / Pow2(8 * k) % 0x100
  {
    hide ByteOf, Pow2, StoreWord;
    StoreMeans(f3, addr, v, w, k);
    ByteIsDigit(StoreWord(f3, addr, v, w), k);
    ByteIsDigit(w, k);
    var j := k - addr % 4;
    if 0 <= j { ByteIsDigit(v, j); }
  }
}
