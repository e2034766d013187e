/** C's bitwise operators on unsigned integers, defined bit by bit on the naturals. */
module Bits {

  function Half(x: nat): (h: nat)
    ensures x == 2 * h || x == 2 * h + 1
  {
    x / 2
  }

  predicate Odd(x: nat) {
    x != 2 * Half(x)
  }

  function Join(h: nat, b: bool): nat {
    if b then 2 * h + 1 else 2 * h
  }

  function BitAnd(x: nat, y: nat): nat {
    if x == 0 || y == 0 then 0 else Join(BitAnd(Half(x), Half(y)), Odd(x) && Odd(y))
  }

  function BitOr(x: nat, y: nat): nat {
    if x == 0 && y == 0 then 0 else Join(BitOr(Half(x), Half(y)), Odd(x) || Odd(y))
  }

  function BitXor(x: nat, y: nat): nat {
    if x == 0 && y == 0 then 0 else Join(BitXor(Half(x), Half(y)), Odd(x) != Odd(y))
  }

  lemma HalfJoin(h: nat, b: bool)
    ensures Half(Join(h, b)) == h && Odd(Join(h, b)) == b
  {
  }

  // ----- shifts and low bits, by digits and by powers of two -----

  function Pow2(n: nat): (r: nat)
    ensures r >= 1
  {
    if n == 0 then 1 else 2 * Pow2(n - 1)
  }

  function Left(x: nat, n: nat): nat {
    if n == 0 then x else Join(Left(x, n - 1), false)
  }

  function Right(x: nat, n: nat): nat {
    if n == 0 then x else Right(Half(x), n - 1)
  }

  function Low(x: nat, n: nat): nat {
    if n == 0 then 0 else Join(Low(Half(x), n - 1), Odd(x))
  }

  lemma {:induction false} LeftIsTimes(x: nat, n: nat)
    ensures Left(x, n) == x * Pow2(n)
  {
    if n > 0 {
      LeftIsTimes(x, n - 1);
      var p := Pow2(n - 1);
      assert 2 * (x * p) == x * (2 * p);
    }
  }

  lemma {:induction false} LeftAdd(x: nat, y: nat, n: nat)
    ensures Left(x + y, n) == Left(x, n) + Left(y, n)
  {
    if n > 0 {
      LeftAdd(x, y, n - 1);
    }
  }

  lemma {:induction false} LeftLeft(x: nat, m: nat, n: nat)
    ensures Left(Left(x, m), n) == Left(x, m + n)
  {
    if n > 0 {
      LeftLeft(x, m, n - 1);
    }
  }

  lemma {:induction false} LeftBound(x: nat, m: nat, n: nat)
    requires x < Pow2(m)
    ensures Left(x, n) + Pow2(n) <= Pow2(m + n)
  {
    if n > 0 {
      LeftBound(x, m, n - 1);
    }
  }

  lemma {:induction false} RightBound(x: nat, m: nat, n: nat)
    requires x < Pow2(m + n)
    ensures Right(x, m) < Pow2(n)
  {
    if m > 0 {
      RightBound(Half(x), m - 1, n);
    }
  }

  lemma {:induction false} SplitAt(x: nat, n: nat)
    ensures x == Left(Right(x, n), n) + Low(x, n)
    ensures Low(x, n) < Pow2(n)
  {
    if n > 0 {
      SplitAt(Half(x), n - 1);
    }
  }

  /** Shifting a word of n + k bits left by k, seen as its top k bits and its other n bits. */
  lemma CutAt(x: nat, n: nat, k: nat)
    requires x < Pow2(n + k)
    ensures Left(x, k) == Left(Right(x, n), n + k) + Left(Low(x, n), k)
    ensures Right(x, n) < Pow2(k)
    ensures Left(Low(x, n), k) + Pow2(k) <= Pow2(n + k)
  {
    SplitAt(x, n);
    RightBound(x, n, k);
    LeftBound(Low(x, n), n, k);
    LeftAdd(Left(Right(x, n), n), Low(x, n), k);
    LeftLeft(Right(x, n), n, k);
  }

  lemma RightAndLow(x: nat, n: nat)
    ensures Right(x, n) == x / Pow2(n)
    ensures Low(x, n) == x % Pow2(n)
  {
    SplitAt(x, n);
    LeftIsTimes(Right(x, n), n);
    DivMod(x, Pow2(n), Right(x, n), Low(x, n));
  }

  lemma DivMod(x: nat, d: nat, q: nat, r: nat)
    requires d > r && x == q * d + r
    ensures x / d == q && x % d == r
  {
    var e := x / d;
    assert e * d + x % d == x;
    if e > q {
      Monotone(d, q + 1, e);
    } else if e < q {
      Monotone(d, e + 1, q);
    }
  }

  lemma Monotone(d: nat, a: nat, b: nat)
    requires a <= b
    ensures a * d <= b * d
  {
    assert b * d == a * d + (b - a) * d;
  }

  // ----- and: masks select bit ranges -----

  lemma {:induction false} AndOnes(x: nat, n: nat)
    ensures BitAnd(x, Pow2(n) - 1) == Low(x, n)
  {
    if n > 0 {
      AndOnes(Half(x), n - 1);
      HalfJoin(Pow2(n - 1) - 1, true);
    }
    if x == 0 {
      LowZero(n);
    }
  }

  lemma {:induction false} LowZero(n: nat)
    ensures Low(0, n) == 0
  {
    if n > 0 {
      LowZero(n - 1);
    }
  }

  lemma {:induction false} AndShiftedOnes(x: nat, y: nat, n: nat)
    ensures BitAnd(x, Left(y, n)) == Left(BitAnd(Right(x, n), y), n)
  {
    if n > 0 {
      AndShiftedOnes(Half(x), y, n - 1);
      HalfJoin(Left(y, n - 1), false);
    }
  }

  /** Masking with n ones keeps the remainder modulo 2^n. */
  lemma AndLowMask(x: nat, n: nat)
    ensures BitAnd(x, Pow2(n) - 1) == x % Pow2(n)
  {
    AndOnes(x, n);
    RightAndLow(x, n);
  }

  /** A run of m ones at bit n selects m bits and leaves them in place. */
  lemma AndMask(x: nat, m: nat, n: nat)
    ensures BitAnd(x, (Pow2(m) - 1) * Pow2(n)) == x / Pow2(n) % Pow2(m) * Pow2(n)
  {
    var ones := Pow2(m) - 1;
    LeftIsTimes(ones, n);
    AndShiftedOnes(x, ones, n);
    RightAndLow(x, n);
    AndLowMask(Right(x, n), m);
    LeftIsTimes(BitAnd(Right(x, n), ones), n);
  }

  lemma {:induction false} AndBound(x: nat, y: nat)
    ensures BitAnd(x, y) <= y
  {
    if x != 0 && y != 0 {
      AndBound(Half(x), Half(y));
    }
  }

  // ----- or -----

  lemma {:induction false} OrDigits(h: nat, l: nat, n: nat)
    requires l < Pow2(n)
    ensures BitOr(Left(h, n), l) == Left(h, n) + l
  {
    if n == 0 {
      OrZero(h);
    } else {
      OrDigits(h, Half(l), n - 1);
      HalfJoin(Left(h, n - 1), false);
    }
  }

  /** The same where the two words share one digit, at the bottom of the upper part, and the lower word has it. */
  lemma {:induction false} OrOverlap(h: nat, b: bool, l: nat, n: nat)
    requires l < Pow2(n)
    ensures BitOr(Left(Join(h, b), n), Pow2(n) + l) == Left(Join(h, true), n) + l
  {
    if n == 0 {
      OrZero(h);
      HalfJoin(h, b);
      assert BitOr(0, 0) == 0;
    } else {
      OrOverlap(h, b, Half(l), n - 1);
      HalfJoin(Left(Join(h, b), n - 1), false);
    }
  }

  /** An or of a shifted word and a word that fits below it is a sum. */
  lemma OrSum(h: nat, l: nat, n: nat)
    requires l < Pow2(n)
    ensures BitOr(h * Pow2(n), l) == h * Pow2(n) + l
  {
    OrDigits(h, l, n);
    LeftIsTimes(h, n);
  }

  lemma {:induction false} OrZero(x: nat)
    ensures BitOr(x, 0) == x
  {
    if x != 0 {
      OrZero(Half(x));
    }
  }

  lemma {:induction false} OrBound(x: nat, y: nat, n: nat)
    requires x < Pow2(n) && y < Pow2(n)
    ensures BitOr(x, y) < Pow2(n)
  {
    if x != 0 || y != 0 {
      OrBound(Half(x), Half(y), n - 1);
    }
  }

  // ----- exclusive or: an abelian group in which every element is its own inverse -----

  lemma {:induction false} XorBound(x: nat, y: nat, n: nat)
    requires x < Pow2(n) && y < Pow2(n)
    ensures BitXor(x, y) < Pow2(n)
  {
    if x != 0 || y != 0 {
      XorBound(Half(x), Half(y), n - 1);
    }
  }

  lemma {:induction false} XorComm(x: nat, y: nat)
    ensures BitXor(x, y) == BitXor(y, x)
  {
    if x != 0 || y != 0 {
      XorComm(Half(x), Half(y));
    }
  }

  lemma {:induction false} XorZero(x: nat)
    ensures BitXor(x, 0) == x
  {
    if x != 0 {
      XorZero(Half(x));
    }
  }

  lemma {:induction false} XorSelf(x: nat)
    ensures BitXor(x, x) == 0
  {
    if x != 0 {
      XorSelf(Half(x));
    }
  }

  lemma {:induction false} XorAssoc(x: nat, y: nat, z: nat)
    ensures BitXor(BitXor(x, y), z) == BitXor(x, BitXor(y, z))
  {
    if x != 0 || y != 0 || z != 0 {
      XorAssoc(Half(x), Half(y), Half(z));
      HalfJoin(BitXor(Half(x), Half(y)), Odd(x) != Odd(y));
      HalfJoin(BitXor(Half(y), Half(z)), Odd(y) != Odd(z));
    }
  }

  /** The digits of h above the low n digits of l. */
  function Splice(h: nat, l: nat, n: nat): nat {
    if n == 0 then h else Join(Splice(h, Half(l), n - 1), Odd(l))
  }

  lemma {:induction false} SpliceIsSum(h: nat, l: nat, n: nat)
    requires l < Pow2(n)
    ensures Splice(h, l, n) == Left(h, n) + l
  {
    if n > 0 {
      SpliceIsSum(h, Half(l), n - 1);
    }
  }

  lemma {:induction false} XorSplice(h1: nat, l1: nat, h2: nat, l2: nat, n: nat)
    ensures BitXor(Splice(h1, l1, n), Splice(h2, l2, n)) == Splice(BitXor(h1, h2), BitXor(l1, l2), n)
  {
    if n > 0 {
      XorSplice(h1, Half(l1), h2, Half(l2), n - 1);
      XorJoin(Splice(h1, Half(l1), n - 1), Odd(l1), Splice(h2, Half(l2), n - 1), Odd(l2));
      XorHalves(l1, l2);
    }
  }

  lemma XorJoin(a: nat, i: bool, b: nat, j: bool)
    ensures BitXor(Join(a, i), Join(b, j)) == Join(BitXor(a, b), i != j)
  {
    HalfJoin(a, i);
    HalfJoin(b, j);
  }

  lemma XorHalves(x: nat, y: nat)
    ensures Half(BitXor(x, y)) == BitXor(Half(x), Half(y))
    ensures Odd(BitXor(x, y)) == (Odd(x) != Odd(y))
  {
    HalfJoin(BitXor(Half(x), Half(y)), Odd(x) != Odd(y));
  }

  /** Digit k of an exclusive or. */
  lemma {:induction false} XorDigit(x: nat, y: nat, k: nat)
    ensures Odd(Right(BitXor(x, y), k)) == (Odd(Right(x, k)) != Odd(Right(y, k)))
  {
    XorHalves(x, y);
    if k > 0 {
      XorDigit(Half(x), Half(y), k - 1);
    }
  }

  /** Exclusive or acts on the high and the low part of a word separately. */
  lemma XorSplit(h1: nat, l1: nat, h2: nat, l2: nat, n: nat)
    requires l1 < Pow2(n) && l2 < Pow2(n)
    ensures BitXor(h1 * Pow2(n) + l1, h2 * Pow2(n) + l2) == BitXor(h1, h2) * Pow2(n) + BitXor(l1, l2)
  {
    XorSplice(h1, l1, h2, l2, n);
    XorBound(l1, l2, n);
    SpliceIsSum(h1, l1, n);
    SpliceIsSum(h2, l2, n);
    SpliceIsSum(BitXor(h1, h2), BitXor(l1, l2), n);
    LeftIsTimes(h1, n);
    LeftIsTimes(h2, n);
    LeftIsTimes(BitXor(h1, h2), n);
  }
}
