/** C's fixed-width unsigned words and the operators the programs apply to them. */
module Words {
  import opened Bits

  const TWO31: int := 0x8000_0000
  const TWO32: int := 0x1_0000_0000

  type u8 = x: int | 0 <= x < 0x100
  type u16 = x: int | 0 <= x < 0x1_0000
  type u32 = x: int | 0 <= x < 0x1_0000_0000
  type i32 = x: int | -0x8000_0000 <= x < 0x8000_0000

  function Add(x: u32, y: u32): u32 {
    (x + y) % TWO32
  }

  function Sub(x: u32, y: u32): u32 {
    (x - y) % TWO32
  }

  function Shl(x: u32, k: nat): u32 {
    Left(x, k) % TWO32
  }

  function Shr(x: u32, k: nat): u32 {
    RightShrinks(x, k);
    Right(x, k)
  }

  function And(x: u32, y: u32): (r: u32)
    ensures r <= y
  {
    AndBound(x, y);
    BitAnd(x, y)
  }

  function Or(x: u32, y: u32): u32 {
    OrFits(x, y);
    BitOr(x, y)
  }

  function Xor(x: u32, y: u32): u32 {
    XorFits(x, y);
    BitXor(x, y)
  }

  /** The two's complement reading of a word. */
  function Signed(x: u32): i32 {
    if x < TWO31 then x else x - TWO32
  }

  lemma Pow2Values()
    ensures Pow2(31) == TWO31 && Pow2(32) == TWO32
  {
    assert Pow2(8) == 0x100 && Pow2(16) == 0x1_0000 && Pow2(24) == 0x100_0000 && Pow2(31) == TWO31;
  }

  lemma OrFits(x: u32, y: u32)
    ensures BitOr(x, y) < TWO32
  {
    Pow2Values();
    OrBound(x, y, 32);
  }

  lemma XorFits(x: u32, y: u32)
    ensures BitXor(x, y) < TWO32
  {
    Pow2Values();
    XorBound(x, y, 32);
  }

  lemma {:induction false} RightShrinks(x: nat, k: nat)
    ensures Right(x, k) <= x
  {
    if k > 0 {
      RightShrinks(Half(x), k - 1);
    }
  }

  // ----- the operators at the constants the programs use -----

  ghost predicate PowerOfTwo(d: nat) {
    exists n: nat :: Pow2(n) == d
  }

  lemma Powers()
    ensures PowerOfTwo(0x100) && PowerOfTwo(0x1_0000) && PowerOfTwo(0x80_0000)
    ensures PowerOfTwo(0x100_0000) && PowerOfTwo(TWO31)
  {
    assert Pow2(8) == 0x100 && Pow2(16) == 0x1_0000 && Pow2(23) == 0x80_0000;
    assert Pow2(24) == 0x100_0000 && Pow2(31) == TWO31;
  }

  /** Masking with d - 1, for d a power of two, keeps the remainder modulo d. */
  lemma Mask(x: u32, d: nat)
    requires PowerOfTwo(d) && d <= TWO32
    ensures And(x, d - 1) == x % d
  {
    var n: nat :| Pow2(n) == d;
    AndLowMask(x, n);
  }

  /** A multiple of d or-ed with a word below d, for d a power of two, is their sum. */
  lemma Concat(x: u32, h: nat, y: u32, d: nat)
    requires PowerOfTwo(d) && x == h * d && y < d
    ensures Or(x, y) == x + y
  {
    var n: nat :| Pow2(n) == d;
    OrSum(h, y, n);
  }

  lemma Shift(x: u32, k: nat, d: nat)
    requires Pow2(k) == d
    ensures Shl(x, k) == x * d % TWO32
    ensures Shr(x, k) == x / d
  {
    LeftIsTimes(x, k);
    RightAndLow(x, k);
  }

  lemma Shifts(x: u32)
    ensures Shr(x, 1) == x / 2 && Shr(x, 8) == x / 0x100 && Shr(x, 15) == x / 0x8000
    ensures Shr(x, 16) == x / 0x1_0000 && Shr(x, 24) == x / 0x100_0000
    ensures Shl(x, 1) == x * 2 % TWO32 && Shl(x, 8) == x * 0x100 % TWO32
    ensures Shl(x, 16) == x * 0x1_0000 % TWO32 && Shl(x, 24) == x * 0x100_0000 % TWO32
    ensures Shl(x, 23) == x * 0x80_0000 % TWO32
  {
    Shift(x, 1, 2);
    Shift(x, 8, 0x100);
    Shift(x, 15, 0x8000);
    Shift(x, 16, 0x1_0000);
    Shift(x, 23, 0x80_0000);
    Shift(x, 24, 0x100_0000);
  }

  /** The mask 0x7FFF8000 keeps bits 15 to 30. */
  lemma MaskMiddle(x: u32)
    ensures And(x, 0x7FFF_8000) == x / 0x8000 % 0x1_0000 * 0x8000
  {
    assert Pow2(15) == 0x8000 && Pow2(16) == 0x1_0000;
    AndMask(x, 16, 15);
  }

  lemma ModIs(y: nat, q: nat, r: nat)
    requires y == q * TWO32 + r && r < TWO32
    ensures y % TWO32 == r
  {
  }

  lemma ModAdd(x: int, d: int)
    ensures (x % TWO32 + d) % TWO32 == (x + d) % TWO32
  {
    var q := x / TWO32;
    assert x % TWO32 + d == x + d - q * TWO32;
    ModShift(x + d, q);
  }

  lemma ModShift(y: int, q: int)
    ensures (y - q * TWO32) % TWO32 == y % TWO32
  {
    var n := y / TWO32;
    assert y - q * TWO32 == (n - q) * TWO32 + y % TWO32;
  }

  /** A word is the sum of its four base-256 digits. */
  lemma Digits32(v: u32)
    ensures v == v % 0x100 + 0x100 * (v / 0x100 % 0x100) + 0x1_0000 * (v / 0x1_0000 % 0x100)
                 + 0x100_0000 * (v / 0x100_0000)
    ensures v / 0x100_0000 < 0x100
  {
    var a: int, b: int := v / 0x100, v / 0x1_0000;
    assert v == 0x100 * a + v % 0x100 && a == 0x100 * b + a % 0x100;
    assert b == 0x100 * (v / 0x100_0000) + b % 0x100;
  }

  lemma ShiftBy31(x: u32)
    ensures Shr(x, 31) == if x < TWO31 then 0 else 1
  {
    Pow2Values();
    Shift(x, 31, TWO31);
  }

  lemma MaskP(x: u32)
    ensures And(x, 0x7FFF_FFFF) == if x < TWO31 then x else x - TWO31
  {
    Powers();
    Mask(x, TWO31);
  }

  lemma XorCancels(x: u32, k: u32)
    ensures Xor(Xor(x, k), k) == x
    ensures Xor(x, x) == 0 && Xor(x, 0) == x && Xor(x, k) == Xor(k, x)
  {
    XorAssoc(x, k, k);
    XorSelf(k);
    XorSelf(x);
    XorZero(x);
    XorComm(x, k);
  }

  lemma AddSub(x: u32, y: u32)
    ensures Sub(Add(x, y), y) == x
    ensures Add(Sub(x, y), y) == x
  {
  }

  lemma XorSwap(a: u32, b: u32, c: u32, d: u32)
    ensures Xor(Xor(a, b), Xor(c, d)) == Xor(Xor(a, c), Xor(b, d))
  {
    XorAssoc(a, b, Xor(c, d));
    XorAssoc(b, c, d);
    XorComm(b, c);
    XorAssoc(c, b, d);
    XorAssoc(a, c, Xor(b, d));
  }

  lemma XorIs(x: u32, y: u32)
    ensures Xor(x, y) == BitXor(x, y)
  {
  }

  lemma OddIs(x: nat)
    ensures Odd(x) <==> x % 2 == 1
  {
  }

  /** Exclusive or adds binary digits without carry. */
  lemma XorBits(x: u32, y: u32, k: nat)
    ensures Xor(x, y) / Pow2(k) % 2 == (x / Pow2(k) % 2 + y / Pow2(k) % 2) % 2
  {
    hide Xor, Odd, Right, Pow2, BitXor;
    XorIs(x, y);
    XorDigit(x, y, k);
    RightAndLow(Xor(x, y), k);
    RightAndLow(x, k);
    RightAndLow(y, k);
    OddIs(Xor(x, y) / Pow2(k));
    OddIs(x / Pow2(k));
    OddIs(y / Pow2(k));
    ParitySum(x / Pow2(k) % 2, y / Pow2(k) % 2, Xor(x, y) / Pow2(k) % 2);
  }

  lemma ParitySum(a: nat, b: nat, c: nat)
    requires a < 2 && b < 2 && c < 2 && ((c == 1) <==> (a == 1) != (b == 1))
    ensures c == (a + b) % 2
  {
  }
}
