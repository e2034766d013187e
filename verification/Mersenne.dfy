/** Arithmetic modulo the Mersenne prime 2^31 - 1, as AddM and MulByPow2 do it with shifts and masks. */
module Mersenne {
  import opened Bits
  import opened Words

  const P: int := 0x7FFF_FFFF

  /** The representative of a residue that the cipher uses: 1..P, with P standing for residue zero. */
  function Rep(x: int): (r: int)
    ensures 1 <= r <= P
  {
    (x - 1) % P + 1
  }

  function AddM(a: u32, b: u32): u32 {
    var c := Add(a, b);
    ShiftBy31(c);
    And(c, 0x7FFF_FFFF) + Shr(c, 31)
  }

  function MulByPow2(x: u32, k: nat): u32
    requires k <= 31
  {
    And(Or(Shl(x, k), Shr(x, 31 - k)), 0x7FFF_FFFF)
  }

  /** On reduced operands AddM neither wraps nor leaves 0..P, and it adds modulo P. */
  lemma AddMIsSum(a: u32, b: u32)
    requires a <= P && b <= P
    ensures a + b < TWO32
    ensures AddM(a, b) == if a + b <= P then a + b else a + b - P
    ensures AddM(a, b) <= P
    ensures AddM(a, b) == 0 <==> a == 0 && b == 0
  {
    ShiftBy31(Add(a, b));
    MaskP(Add(a, b));
  }

  /** On a reduced operand MulByPow2 multiplies by 2^k modulo P and stays in 0..P. */
  lemma MulByPow2IsProduct(x: u32, k: nat)
    requires x <= P && k <= 31
    ensures MulByPow2(x, k) == x * Pow2(k) - x / Pow2(31 - k) * P
    ensures 0 <= MulByPow2(x, k) <= P
  {
    CutAt31(x, k);
    MulByPow2Rotates(x, k);
    LeftIsTimes(x, k);
    RightAndLow(x, 31 - k);
  }

  /** The top k of 31 bits move below the other 31 - k. */
  lemma MulByPow2Rotates(x: u32, k: nat)
    requires x <= P && k <= 31
    ensures MulByPow2(x, k) == Left(Low(x, 31 - k), k) + Right(x, 31 - k)
  {
    var hi, lo := Right(x, 31 - k), Low(x, 31 - k);
    var low := if Odd(hi) then 1 else 0;
    CutAt31(x, k);
    var l := Left(lo, k);
    ShlIs(x, k, hi, l);
    Refit(Shl(x, k), low, lo, l, hi, k);
  }

  lemma CutAt31(x: u32, k: nat)
    requires x <= P && k <= 31
    ensures Left(x, k) == Right(x, 31 - k) * TWO31 + Left(Low(x, 31 - k), k)
    ensures Right(x, 31 - k) < Pow2(k)
    ensures Left(Low(x, 31 - k), k) + Pow2(k) <= TWO31
  {
    Pow2Values();
    CutAt(x, 31 - k, k);
    LeftIsTimes(Right(x, 31 - k), 31);
  }

  lemma ShlIs(x: u32, k: nat, hi: nat, l: nat)
    requires Left(x, k) == hi * TWO31 + l && l < TWO31
    ensures Shl(x, k) == (hi - 2 * Half(hi)) * TWO31 + l
  {
    ModIs(Left(x, k), Half(hi), (hi - 2 * Half(hi)) * TWO31 + l);
  }

  lemma Refit(sh: u32, low: nat, lo: nat, l: nat, hi: nat, k: nat)
    requires k <= 31 && low <= 1 && hi < Pow2(k)
    requires l == Left(lo, k) && l + Pow2(k) <= TWO31 && sh == low * TWO31 + l
    ensures hi < TWO32 && And(Or(sh, hi), 0x7FFF_FFFF) == l + hi
  {
    LeftOnto(low, lo, k);
    OrAndMask(sh, Left(low, 31 - k) + lo, hi, k, l + hi, low);
  }

  lemma LeftOnto(low: nat, lo: nat, k: nat)
    requires k <= 31
    ensures Left(Left(low, 31 - k) + lo, k) == low * TWO31 + Left(lo, k)
  {
    LeftAdd(Left(low, 31 - k), lo, k);
    LeftLeft(low, 31 - k, k);
    LeftIsTimes(low, 31);
    Pow2Values();
  }

  lemma OrAndMask(w: u32, h: nat, hi: nat, k: nat, v: u32, low: nat)
    requires w == Left(h, k) && hi < Pow2(k) && w + hi == low * TWO31 + v && v <= P && low <= 1
    ensures hi < TWO32 && And(Or(w, hi), P) == v
  {
    OrDigits(h, hi, k);
    assert Or(w, hi) == w + hi;
    MaskP(w + hi);
  }
}
