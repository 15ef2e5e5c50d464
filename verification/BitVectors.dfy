/** A word as its thirty-two bits, least significant first. */
module BitVectors {
  import opened Arith
  import opened Words
  import opened Divider

  type Bits = b: seq<bool> | |b| == 32 witness seq(32, _ => false)

  function Value(x: seq<bool>): (v: nat)
    ensures v < Pow2(|x|)
  {
    if x == [] then 0 else (if x[0] then 1 else 0) + 2 * Value(x[1..])
  }

  function BitsOf(a: nat, n: nat): (x: seq<bool>)
    ensures |x| == n
  {
    if n == 0 then [] else [a % 2 == 1] + BitsOf(a / 2, n - 1)
  }

  function ToBits(a: Word): Bits {
    BitsOf(a, 32)
  }

  function FromBits(x: Bits): (a: Word)
    ensures a == Value(x)
  {
    Pow2Table();
    Value(x)
  }

  function SignedValue(x: Bits): int {
    Signed(FromBits(x))
  }

  lemma {:induction false} BitsRoundTrip(a: nat, n: nat)
    requires a < Pow2(n)
    ensures Value(BitsOf(a, n)) == a
  {
    if n > 0 {
      assert BitsOf(a, n)[1..] == BitsOf(a / 2, n - 1);
      BitsRoundTrip(a / 2, n - 1);
    }
  }

  /** Converting a word to bits and back changes nothing. */
  lemma WordRoundTrip(a: Word)
    ensures FromBits(ToBits(a)) == a
  {
    Pow2Table();
    BitsRoundTrip(a, 32);
  }

  /** Entry k of the bits of a number is its bit k. */
  lemma {:induction false} BitsAt(a: nat, n: nat, k: nat)
    requires k < n
    ensures BitsOf(a, n)[k] == BitOf(a, k)
  {
    hide BitOf;
    if k == 0 {
      NextBit(a, 0);
    } else {
      NextBit(a, k - 1);
      BitsAt(a / 2, n - 1, k - 1);
    }
  }

  /** Bit k of the value of a bit sequence is its entry k. */
  lemma {:induction false} ValueAt(x: seq<bool>, k: nat)
    requires k < |x|
    ensures BitOf(Value(x), k) == x[k]
  {
    hide BitOf;
    assert Value(x) / 2 == Value(x[1..]);
    if k == 0 {
      NextBit(Value(x), 0);
    } else {
      NextBit(Value(x), k - 1);
      ValueAt(x[1..], k - 1);
    }
  }
}
