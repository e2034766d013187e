/** ROT, L1 and L2, and why four applications of either map are a single rotation. */
module Rotations {
  import opened Bits
  import opened Words

  function Rot(a: u32, k: nat): u32
    requires k <= 32
  {
    Or(Shl(a, k), Shr(a, 32 - k))
  }

  function L1(x: u32): u32 {
    Xor(Xor(Xor(Xor(x, Rot(x, 2)), Rot(x, 10)), Rot(x, 18)), Rot(x, 24))
  }

  function L2(x: u32): u32 {
    Xor(Xor(Xor(Xor(x, Rot(x, 8)), Rot(x, 14)), Rot(x, 22)), Rot(x, 30))
  }

  function L1Inverse(y: u32): u32 {
    Rot(L1(L1(L1(y))), 24)
  }

  function L2Inverse(y: u32): u32 {
    Rot(L2(L2(L2(y))), 8)
  }

  // ----- rotation by k is k rotations by one -----

  function Turn(x: u32): u32 {
    if x < TWO31 then 2 * x else 2 * x - TWO32 + 1
  }

  function Turns(x: u32, k: nat): u32 {
    if k == 0 then x else Turn(Turns(x, k - 1))
  }

  lemma {:induction false} TurnsAdd(x: u32, a: nat, b: nat)
    ensures Turns(Turns(x, a), b) == Turns(x, a + b)
  {
    if b > 0 {
      TurnsAdd(x, a, b - 1);
    }
  }

  lemma {:induction false} RightNext(x: nat, n: nat)
    ensures Half(Right(x, n)) == Right(x, n + 1)
    ensures Low(x, n + 1) == Left(Right(x, n) - 2 * Right(x, n + 1), n) + Low(x, n)
  {
    if n > 0 {
      RightNext(Half(x), n - 1);
    }
  }

  lemma CutAt32(x: u32, n: nat, k: nat)
    requires n + k == 32
    ensures Left(x, k) == Right(x, n) * TWO32 + Left(Low(x, n), k)
    ensures Right(x, n) < Pow2(k)
    ensures Left(Low(x, n), k) + Pow2(k) <= TWO32
  {
    Pow2Values();
    CutAt(x, n, k);
    LeftIsTimes(Right(x, n), 32);
  }

  /** After k turns the top k bits stand below the other 32 - k. */
  lemma {:induction false} TurnsSplit(x: u32, n: nat, k: nat)
    requires n + k == 32
    ensures Turns(x, k) == Left(Low(x, n), k) + Right(x, n)
    decreases k
  {
    CutAt32(x, n, k);
    if k > 0 {
      TurnsSplit(x, n + 1, k - 1);
      NextCut(x, n, k - 1);
      OneTurn(Turns(x, k - 1), Right(x, n), Left(Low(x, n), k - 1), Right(x, n + 1), Pow2(k - 1));
    }
  }

  /** Moving the cut down one bit passes the low bit of the upper part to the lower part. */
  lemma NextCut(x: u32, n: nat, k: nat)
    requires n + k == 31
    ensures var t := Right(x, n) - 2 * Right(x, n + 1);
      0 <= t <= 1 && Left(Low(x, n + 1), k) == t * TWO31 + Left(Low(x, n), k)
  {
    RightNext(x, n);
    var t := Right(x, n) - 2 * Right(x, n + 1);
    LeftAdd(Left(t, n), Low(x, n), k);
    LeftLeft(t, n, k);
    Pow2Values();
    LeftIsTimes(t, 31);
  }

  lemma OneTurn(y: u32, h: nat, l: nat, g: nat, m: nat)
    requires 0 <= h - 2 * g <= 1
    requires y == (h - 2 * g) * TWO31 + l + g && g < m && 2 * l + 2 * m <= TWO32
    ensures Turn(y) == 2 * l + h
  {
  }

  lemma RotIsTurns(x: u32, k: nat)
    requires k <= 32
    ensures Rot(x, k) == Turns(x, k)
  {
    TurnsSplit(x, 32 - k, k);
    CutAt32(x, 32 - k, k);
    OrDigits(Low(x, 32 - k), Right(x, 32 - k), k);
    ModIs(Left(x, k), Right(x, 32 - k), Left(Low(x, 32 - k), k));
  }

  /** Rotation in numbers: what is shifted out at the top comes back in below. */
  lemma RotIsSum(x: u32, k: nat)
    requires k <= 32
    ensures Rot(x, k) == x * Pow2(k) % TWO32 + x / Pow2(32 - k)
  {
    hide Pow2, Low, Right, BitOr;
    Shift(x, k, Pow2(k));
    Shift(x, 32 - k, Pow2(32 - k));
    CutAt32(x, 32 - k, k);
    OrDigits(Low(x, 32 - k), Right(x, 32 - k), k);
    ModIs(Left(x, k), Right(x, 32 - k), Left(Low(x, 32 - k), k));
  }

  lemma FullTurn(x: u32)
    ensures Turns(x, 32) == x
  {
    TurnsSplit(x, 0, 32);
    LeftIsTimes(0, 32);
  }

  function Top(i: bool): nat {
    if i then 1 else 0
  }

  lemma TopXor(i: bool, j: bool)
    ensures BitXor(Top(i), Top(j)) == Top(i != j)
  {
    XorJoin(0, i, 0, j);
    assert Join(0, i) == Top(i) && Join(0, j) == Top(j);
  }

  lemma TurnIs(x: u32, i: bool, l: nat)
    requires x == Top(i) * TWO31 + l && l < TWO31
    ensures Turn(x) == Join(l, i)
  {
  }

  lemma TurnXor(x: u32, y: u32)
    ensures Turn(Xor(x, y)) == Xor(Turn(x), Turn(y))
  {
    TurnXorParts(x, x >= TWO31, x % TWO31, y, y >= TWO31, y % TWO31);
  }

  lemma TurnXorParts(x: u32, i: bool, l: nat, y: u32, j: bool, m: nat)
    requires x == Top(i) * TWO31 + l && l < TWO31
    requires y == Top(j) * TWO31 + m && m < TWO31
    ensures Turn(Xor(x, y)) == Xor(Turn(x), Turn(y))
  {
    XorParts(x, i, l, y, j, m);
    TurnIs(x, i, l);
    TurnIs(y, j, m);
    TurnIs(Xor(x, y), i != j, BitXor(l, m));
    XorJoin(l, i, m, j);
  }

  lemma XorParts(x: u32, i: bool, l: nat, y: u32, j: bool, m: nat)
    requires x == Top(i) * TWO31 + l && l < TWO31
    requires y == Top(j) * TWO31 + m && m < TWO31
    ensures Xor(x, y) == Top(i != j) * TWO31 + BitXor(l, m) && BitXor(l, m) < TWO31
  {
    Pow2Values();
    XorSplit(Top(i), l, Top(j), m, 31);
    XorBound(l, m, 31);
    TopXor(i, j);
  }

  lemma {:induction false} TurnsXor(x: u32, y: u32, k: nat)
    ensures Turns(Xor(x, y), k) == Xor(Turns(x, k), Turns(y, k))
  {
    if k > 0 {
      TurnsXor(x, y, k - 1);
      TurnXor(Turns(x, k - 1), Turns(y, k - 1));
    }
  }

  // ----- exclusive-or sums of rotations -----

  datatype Taps = None | Tap(rest: Taps, k: nat)

  function RotSum(t: Taps, x: u32): u32 {
    match t
    case None => 0
    case Tap(rest, k) => Xor(RotSum(rest, x), Turns(x, k))
  }

  function Doubled(t: Taps): Taps {
    match t
    case None => None
    case Tap(rest, k) => Tap(Doubled(rest), 2 * k)
  }

  lemma {:induction false} RotSumXor(t: Taps, x: u32, y: u32)
    ensures RotSum(t, Xor(x, y)) == Xor(RotSum(t, x), RotSum(t, y))
  {
    match t
    case None => XorCancels(0, 0);
    case Tap(rest, k) =>
      RotSumXor(rest, x, y);
      TurnsXor(x, y, k);
      XorSwap(RotSum(rest, x), RotSum(rest, y), Turns(x, k), Turns(y, k));
  }

  lemma {:induction false} RotSumTurns(t: Taps, x: u32, j: nat)
    ensures RotSum(t, Turns(x, j)) == Turns(RotSum(t, x), j)
  {
    match t
    case None => TurnsZero(j);
    case Tap(rest, k) =>
      RotSumTurns(rest, x, j);
      TurnsXor(RotSum(rest, x), Turns(x, k), j);
      TurnsAdd(x, j, k);
      TurnsAdd(x, k, j);
  }

  lemma {:induction false} TurnsZero(j: nat)
    ensures Turns(0, j) == 0
  {
    if j > 0 {
      TurnsZero(j - 1);
    }
  }

  /** Squaring a sum of rotations doubles every amount: the mixed terms occur twice and cancel. */
  lemma {:induction false} Squared(t: Taps, x: u32)
    ensures RotSum(t, RotSum(t, x)) == RotSum(Doubled(t), x)
  {
    match t
    case None =>
    case Tap(rest, k) =>
      var a, b := RotSum(rest, x), Turns(x, k);
      RotSumXor(rest, a, b);
      TurnsXor(a, b, k);
      RotSumTurns(rest, x, k);
      CancelInner(RotSum(rest, a), Turns(a, k), Turns(b, k));
      Squared(rest, x);
      TurnsAdd(x, k, k);
  }

  lemma CancelInner(p: u32, q: u32, r: u32)
    ensures Xor(Xor(p, q), Xor(q, r)) == Xor(p, r)
  {
    XorCancels(q, r);
    XorSwap(p, q, r, q);
    XorCancels(q, q);
    XorCancels(Xor(p, r), 0);
  }

  function Five(a: nat, b: nat, c: nat, d: nat, e: nat): Taps {
    Tap(Tap(Tap(Tap(Tap(None, a), b), c), d), e)
  }

  lemma FiveTerms(x: u32, a: nat, b: nat, c: nat, d: nat, e: nat)
    ensures RotSum(Five(a, b, c, d, e), x)
         == Xor(Xor(Xor(Xor(Turns(x, a), Turns(x, b)), Turns(x, c)), Turns(x, d)), Turns(x, e))
    ensures Doubled(Five(a, b, c, d, e)) == Five(2 * a, 2 * b, 2 * c, 2 * d, 2 * e)
  {
    var t := Tap(None, a);
    XorCancels(Turns(x, a), 0);
    assert RotSum(t, x) == Turns(x, a);
    assert Doubled(t) == Tap(Doubled(None), 2 * a);
    var u := Tap(Tap(t, b), c);
    assert RotSum(u, x) == Xor(Xor(Turns(x, a), Turns(x, b)), Turns(x, c));
    assert Doubled(u) == Tap(Tap(Tap(None, 2 * a), 2 * b), 2 * c);
  }

  lemma L1IsSum(x: u32)
    ensures L1(x) == RotSum(Five(0, 2, 10, 18, 24), x)
  {
    FiveTerms(x, 0, 2, 10, 18, 24);
    RotIsTurns(x, 2);
    RotIsTurns(x, 10);
    RotIsTurns(x, 18);
    RotIsTurns(x, 24);
  }

  lemma L2IsSum(x: u32)
    ensures L2(x) == RotSum(Five(0, 8, 14, 22, 30), x)
  {
    FiveTerms(x, 0, 8, 14, 22, 30);
    RotIsTurns(x, 8);
    RotIsTurns(x, 14);
    RotIsTurns(x, 22);
    RotIsTurns(x, 30);
  }

  lemma FourthPower(x: u32, a: nat, b: nat, c: nat, d: nat, e: nat)
    ensures var t := Five(a, b, c, d, e);
      RotSum(t, RotSum(t, RotSum(t, RotSum(t, x)))) == RotSum(Five(4 * a, 4 * b, 4 * c, 4 * d, 4 * e), x)
  {
    var t := Five(a, b, c, d, e);
    Squared(t, x);
    Squared(t, RotSum(t, RotSum(t, x)));
    FiveTerms(x, a, b, c, d, e);
    Squared(Doubled(t), x);
    FiveTerms(x, 2 * a, 2 * b, 2 * c, 2 * d, 2 * e);
  }

  lemma TurnsWrap(x: u32, k: nat)
    ensures Turns(x, k + 32) == Turns(x, k)
  {
    TurnsAdd(x, 32, k);
    FullTurn(x);
  }

  // ----- four applications are one rotation, so both maps are bijections -----

  /** Of the fourfold amounts 0, 8, 40, 72, 96 only one rotation by 8 does not cancel. */
  lemma L1FourTimes(x: u32)
    ensures L1(L1(L1(L1(x)))) == Rot(x, 8)
  {
    L1IsSum(x);
    L1IsSum(L1(x));
    L1IsSum(L1(L1(x)));
    L1IsSum(L1(L1(L1(x))));
    FourthPower(x, 0, 2, 10, 18, 24);
    FiveTerms(x, 0, 8, 40, 72, 96);
    TurnsWrap(x, 8);
    TurnsWrap(x, 40);
    TurnsWrap(x, 0);
    TurnsWrap(x, 32);
    TurnsWrap(x, 64);
    RotIsTurns(x, 8);
    var a := Turns(x, 8);
    XorCancels(x, a);
    XorCancels(a, x);
  }

  /** Of the fourfold amounts 0, 32, 56, 88, 120 only one rotation by 24 does not cancel. */
  lemma L2FourTimes(x: u32)
    ensures L2(L2(L2(L2(x)))) == Rot(x, 24)
  {
    L2IsSum(x);
    L2IsSum(L2(x));
    L2IsSum(L2(L2(x)));
    L2IsSum(L2(L2(L2(x))));
    FourthPower(x, 0, 8, 14, 22, 30);
    FiveTerms(x, 0, 32, 56, 88, 120);
    TurnsWrap(x, 0);
    TurnsWrap(x, 24);
    TurnsWrap(x, 56);
    TurnsWrap(x, 88);
    RotIsTurns(x, 24);
    var b := Turns(x, 24);
    XorCancels(x, b);
    XorCancels(b, b);
    XorCancels(b, 0);
  }

  lemma RotRot(x: u32, j: nat, k: nat)
    requires j + k == 32
    ensures Rot(Rot(x, j), k) == x
  {
    RotIsTurns(x, j);
    RotIsTurns(Rot(x, j), k);
    TurnsAdd(x, j, k);
    FullTurn(x);
  }

  lemma L1Bijective(x: u32)
    ensures L1Inverse(L1(x)) == x
    ensures L1(L1Inverse(x)) == x
  {
    L1FourTimes(x);
    RotRot(x, 8, 24);
    var y := L1(L1(L1(x)));
    RotIsTurns(y, 24);
    L1IsSum(y);
    L1IsSum(Rot(y, 24));
    RotSumTurns(Five(0, 2, 10, 18, 24), y, 24);
    RotIsTurns(L1(y), 24);
  }

  lemma L2Bijective(x: u32)
    ensures L2Inverse(L2(x)) == x
    ensures L2(L2Inverse(x)) == x
  {
    L2FourTimes(x);
    RotRot(x, 24, 8);
    var y := L2(L2(L2(x)));
    RotIsTurns(y, 8);
    L2IsSum(y);
    L2IsSum(Rot(y, 8));
    RotSumTurns(Five(0, 8, 14, 22, 30), y, 8);
    RotIsTurns(L2(y), 8);
  }
}
