/**
 * The C code starts the initialisation-mode chain from a local variable it never assigned. For which start
 * values does the step still do what section 3.2 of the ZUC Specification says?
 */
module ZucStart {
  import opened Bits
  import opened Words
  import opened Mersenne
  import opened Zuc
  import opened ZucLfsr
  import opened ZucRuns
  import opened ZucSteps

  /** Among values a cell can hold, only cell 0 itself gives the specified initialisation feedback. */
  lemma StartMustBeCell0(f: u32, s: seq<u32>, u: u32)
    requires Reduced(s) && 1 <= f <= P && u <= P
    ensures InitLfsrFrom(f, s, u) == InitLfsr(s, u) <==> f == s[0]
  {
    hide Feedback, AddM, Rep, OtherTaps, Cell0;
    InitFeedbackIsTapSum(f, s, u);
    InitFeedbackIsTapSum(s[0], s, u);
    Cell0Undoes(f, OtherTaps(s) + u);
    Cell0Undoes(s[0], OtherTaps(s) + u);
    assert InitLfsrFrom(f, s, u)[15] == AddM(Feedback(f, s), u);
    assert InitLfsr(s, u)[15] == AddM(Feedback(s[0], s), u);
  }

  // ----- any start value -----

  /** AddM on one operand that may be 2^31: no wrap-around, and the result is 2^31 only at the very top. */
  lemma AddOnto(a: u32, b: u32)
    requires a <= TWO31 && b <= P
    ensures AddM(a, b) == if a + b <= P then a + b else a + b - P
    ensures AddM(a, b) <= TWO31 && (AddM(a, b) == TWO31 <==> a == TWO31 && b == P)
  {
    ShiftBy31(Add(a, b));
    MaskP(Add(a, b));
  }

  /** AddM never gives more than 2^31, whatever it is given. */
  lemma AddMRange(a: u32, b: u32)
    ensures AddM(a, b) <= TWO31
  {
    ShiftBy31(Add(a, b));
    MaskP(Add(a, b));
  }

  lemma PowersOf31(k: nat)
    requires k <= 31
    ensures Pow2(k) * Pow2(31 - k) == TWO31
  {
    Pow2Values();
    LeftLeft(1, k, 31 - k);
    LeftIsTimes(1, k);
    LeftIsTimes(Pow2(k), 31 - k);
    LeftIsTimes(1, 31);
  }

  /** 2^k is invertible modulo P, so only multiples of P become multiples of P. */
  lemma OnlyTop(c: nat, m: nat, r: nat, n: nat)
    requires m * r == TWO31 && 1 <= c <= P && c * m == n * P
    ensures c == P
  {
    assert c * m * r == c * TWO31;
    assert n * P * r == n * r * P;
    var j := n * r - c;
    assert c == j * P;
  }

  lemma TopQuotient(m: nat, r: nat)
    requires m * r == TWO31
    ensures r > 0 && P / r == m - 1
  {
    assert m > 0 && r > 0;
    assert (m - 1) * r == m * r - r;
    DivMod(P, r, m - 1, r - 1);
  }

  /** Multiplying by a power of two keeps the representative of zero to itself. */
  lemma TapIsTop(c: u32, k: nat)
    requires 1 <= c <= P && k <= 31
    ensures 1 <= MulByPow2(c, k) <= P
    ensures MulByPow2(c, k) == P <==> c == P
  {
    hide MulByPow2, Pow2;
    PowersOf31(k);
    MulByPow2IsProduct(c, k);
    TopQuotient(Pow2(k), Pow2(31 - k));
    TapCases(c, Pow2(k), Pow2(31 - k), MulByPow2(c, k), c / Pow2(31 - k));
  }

  lemma TapCases(c: nat, m: nat, r: nat, y: nat, q: nat)
    requires m * r == TWO31 && 1 <= c <= P && y == c * m - q * P && y <= P
    requires c == P ==> q == m - 1
    ensures 1 <= y && (y == P <==> c == P)
  {
    if y == 0 {
      OnlyTop(c, m, r, q);
    }
    if y == P {
      OnlyTop(c, m, r, q + 1);
    }
  }

  /** The rest of the chain, from any value v that AddM can leave. */
  function Rest(v: u32, s: seq<u32>, u: u32): u32
    requires |s| == 16
  {
    var f2 := AddM(v, MulByPow2(s[4], 20));
    var f3 := AddM(f2, MulByPow2(s[10], 21));
    var f4 := AddM(f3, MulByPow2(s[13], 17));
    AddM(AddM(f4, MulByPow2(s[15], 15)), u)
  }

  /** Every value that is added is the largest one there is. */
  predicate AllTop(s: seq<u32>, u: u32)
    requires |s| == 16
  {
    s[4] == P && s[10] == P && s[13] == P && s[15] == P && u == P
  }

  lemma AddTap(g: u32, x: int, n: int, c: u32, k: nat, m: nat) returns (n': int)
    requires g == x - n * P && g <= TWO31
    requires 1 <= c <= P && k <= 31 && Pow2(k) == m
    ensures var h := AddM(g, MulByPow2(c, k));
      h == x + c * m - n' * P && 1 <= h <= TWO31 && (h == TWO31 <==> g == TWO31 && c == P)
  {
    hide MulByPow2, AddM, Pow2;
    TapIsTop(c, k);
    MulByPow2IsProduct(c, k);
    AddOnto(g, MulByPow2(c, k));
    n' := n + c / Pow2(31 - k) + if g + MulByPow2(c, k) <= P then 0 else 1;
  }

  /** The shift of a tap, and the weight it gives. */
  predicate TapWeight(k: nat, m: nat) {
    || (k == 15 && m == 0x8000)
    || (k == 17 && m == 0x2_0000)
    || (k == 20 && m == 0x10_0000)
    || (k == 21 && m == 0x20_0000)
  }

  lemma WeightIsPower(k: nat, m: nat)
    requires TapWeight(k, m)
    ensures k <= 31 && Pow2(k) == m
  {
    hide Pow2;
    TapPowers();
  }

  lemma AddWeighed(g: u32, x: int, n: int, c: u32, k: nat, m: nat) returns (n': int)
    requires g == x - n * P && g <= TWO31
    requires 1 <= c <= P && TapWeight(k, m)
    ensures k <= 31
    ensures var h := AddM(g, MulByPow2(c, k));
      h == x + c * m - n' * P && 1 <= h <= TWO31 && (h == TWO31 <==> g == TWO31 && c == P)
  {
    hide MulByPow2, AddM, Pow2;
    WeightIsPower(k, m);
    n' := AddTap(g, x, n, c, k, m);
  }

  lemma RestIs(v: u32, s: seq<u32>, u: u32) returns (n: int)
    requires Reduced(s) && v <= TWO31 && u <= P
    ensures Rest(v, s, u) == v + OtherTaps(s) + u - n * P
    ensures 1 <= Rest(v, s, u) <= TWO31 && (Rest(v, s, u) == TWO31 <==> v == TWO31 && AllTop(s, u))
  {
    hide MulByPow2, AddM;
    var f2 := AddM(v, MulByPow2(s[4], 20));
    var f3 := AddM(f2, MulByPow2(s[10], 21));
    var f4 := AddM(f3, MulByPow2(s[13], 17));
    var f5 := AddM(f4, MulByPow2(s[15], 15));
    n := AddWeighed(v, v, 0, s[4], 20, 0x10_0000);
    n := AddWeighed(f2, f2 + n * P, n, s[10], 21, 0x20_0000);
    n := AddWeighed(f3, f3 + n * P, n, s[13], 17, 0x2_0000);
    n := AddWeighed(f4, f4 + n * P, n, s[15], 15, 0x8000);
    AddOnto(f5, u);
    n := n + if f5 + u <= P then 0 else 1;
  }

  /** What the first addition makes of the start value. */
  function First(f: u32): u32 {
    AddM(f, MulByPow2(f, 8))
  }

  lemma SameRep(x: int, y: int, k: int)
    requires x == y + k * P
    ensures Rep(x) == Rep(y)
  {
    var n := RepOf(y);
    RepIs(Rep(y), x, n + k);
  }

  lemma RepSame(x: int, y: int) returns (k: int)
    requires Rep(x) == Rep(y)
    ensures x == y + k * P
  {
    var m := RepOf(x);
    var n := RepOf(y);
    k := m - n;
  }

  /**
   * For every 32-bit start value, the step is the specified one exactly when the first addition leaves the
   * residue of 257 times cell 0, and does not leave 2^31 with nothing but 2^31 - 1 added after it.
   */
  lemma StartCondition(f: u32, s: seq<u32>, u: u32)
    requires Reduced(s) && u <= P
    ensures InitLfsrFrom(f, s, u) == InitLfsr(s, u)
      <==> Rep(First(f)) == Rep(257 * (s[0] as int)) && !(First(f) == TWO31 && AllTop(s, u))
  {
    hide Rep, OtherTaps, AddM, MulByPow2, AllTop;
    AddMRange(f, MulByPow2(f, 8));
    FirstOfCell(s[0]);
    var g, g0 := Rest(First(f), s, u), Rest(First(s[0]), s, u);
    assert InitLfsrFrom(f, s, u)[15] == g && InitLfsr(s, u)[15] == g0;
    var n := RestIs(First(f), s, u);
    var n0 := RestIs(First(s[0]), s, u);
    Compare(First(f), First(s[0]), g, g0, OtherTaps(s) + u, n, n0);
  }

  lemma FirstOfCell(c: u32)
    requires 1 <= c <= P
    ensures First(c) <= P && Rep(First(c)) == Rep(257 * (c as int))
  {
    hide AddM, MulByPow2, Rep;
    hide Pow2;
    TapPowers();
    var n := AddTimes(c, c, 0, c, 8, 0x100);
    SameRep(First(c), 257 * (c as int), -n);
  }

  lemma Compare(v: int, v0: int, g: int, g0: int, t: int, n: int, n0: int)
    requires g == v + t - n * P && g0 == v0 + t - n0 * P
    requires 1 <= g <= TWO31 && 1 <= g0 <= P
    ensures g == g0 <==> Rep(v) == Rep(v0) && g != TWO31
  {
    hide Rep;
    if g == g0 {
      SameRep(v, v0, n - n0);
    }
    if Rep(v) == Rep(v0) && g != TWO31 {
      var k := RepSame(v, v0);
      assert g - g0 == (k - n + n0) * P;
    }
  }

  // ----- the condition in closed form -----

  /** Below 2^31 only cell 0 will do, except that 0 stands for cell 0 where that represents residue zero. */
  lemma LowStart(f: u32, s: seq<u32>, u: u32)
    requires Reduced(s) && f <= P && u <= P
    ensures InitLfsrFrom(f, s, u) == InitLfsr(s, u) <==> f == s[0] || (f == 0 && s[0] == P)
  {
    hide InitLfsrFrom, InitLfsr, First, Rep;
    if f == 0 {
      StartCondition(f, s, u);
      ZeroFirst(f);
      ZeroResidue(s[0]);
    } else {
      StartMustBeCell0(f, s, u);
    }
  }

  lemma ZeroTerm(x: nat, m: nat, r: nat, y: int)
    requires x == 0 && r > 0 && y == x * m - x / r * P
    ensures y == 0
  {
  }

  lemma ZeroFirst(f: u32)
    requires f == 0
    ensures First(f) == 0
  {
    hide MulByPow2, AddM, Pow2;
    MulByPow2IsProduct(f, 8);
    ZeroTerm(f, Pow2(8), Pow2(23), MulByPow2(f, 8));
    AddMIsSum(f, f);
  }

  lemma ZeroResidue(c: u32)
    requires 1 <= c <= P
    ensures Rep(0) == Rep(257 * (c as int)) <==> c == P
  {
    hide Rep, Cell0;
    SameRep(257 * P, 0, 257);
    Cell0Undoes(c, 0);
    Cell0Undoes(P, 0);
  }

  /** What the chain adds to 2^31 + g at first: g turned by 8 places, with bit 8 set. */
  function HighTerm(g: nat): nat
    requires g < TWO31
  {
    g % 0x80_0000 * 0x100 + g / 0x80_0000 + if g % 2 == 0 then 0x100 else 0
  }

  lemma HighOr(q: nat, r: nat, x: u32, y: u32)
    requires q < 0x100 && r < 0x80_0000
    requires x == q % 2 * TWO31 + r * 0x100 && y == 0x100 + q
    ensures Or(x, y) == q % 2 * TWO31 + (r * 0x100 + q + if r % 2 == 0 then 0x100 else 0)
  {
    hide Or;
    assert Pow2(8) == 0x100;
    var h, b := q % 2 * 0x40_0000 + r / 2, r % 2 == 1;
    assert Join(h, b) == q % 2 * 0x80_0000 + r;
    LeftIsTimes(Join(h, b), 8);
    LeftIsTimes(Join(h, true), 8);
    OrOverlap(h, b, q, 8);
    OrIs(x, y);
  }

  lemma OrIs(x: u32, y: u32)
    ensures Or(x, y) == BitOr(x, y)
  {
  }

  lemma HighShifts(f: u32, q: nat, r: nat)
    requires f == TWO31 + q * 0x80_0000 + r && q < 0x100 && r < 0x80_0000
    ensures Shl(f, 8) == q % 2 * TWO31 + r * 0x100 && Shr(f, 23) == 0x100 + q
  {
    hide Shl, Shr;
    assert Pow2(8) == 0x100 && Pow2(23) == 0x80_0000;
    Shift(f, 8, 0x100);
    Shift(f, 23, 0x80_0000);
    DivMod(f, 0x80_0000, 0x100 + q, r);
    ModIs(f * 0x100, 0x80 + q / 2, q % 2 * TWO31 + r * 0x100);
  }

  lemma HighTermIs(f: u32, g: nat)
    requires f == TWO31 + g && g < TWO31
    ensures MulByPow2(f, 8) == HighTerm(g) < TWO31
  {
    hide Or, And, Shl, Shr;
    var q, r := g / 0x80_0000, g % 0x80_0000;
    assert g % 2 == r % 2;
    HighShifts(f, q, r);
    HighOr(q, r, Shl(f, 8), Shr(f, 23));
    MaskP(Or(Shl(f, 8), Shr(f, 23)));
  }

  /** The first addition from 2^31 + g. */
  function HighFirst(g: nat): nat
    requires g < TWO31
  {
    if g + HighTerm(g) < TWO31 then g + HighTerm(g) + 1 else g + HighTerm(g) - TWO31
  }

  lemma HighFirstIs(f: u32, g: nat)
    requires f == TWO31 + g && g < TWO31
    ensures First(f) == HighFirst(g)
  {
    hide MulByPow2, HighTerm, And, Shr;
    HighTermIs(f, g);
    ShiftBy31(Add(f, HighTerm(g)));
    MaskP(Add(f, HighTerm(g)));
  }

  /** From 2^31 on, the condition in terms of the start value and cell 0 alone, but for one corner. */
  lemma HighStart(f: u32, s: seq<u32>, u: u32)
    requires Reduced(s) && f >= TWO31 && u <= P
    ensures InitLfsrFrom(f, s, u) == InitLfsr(s, u)
      <==> (Rep(HighFirst(f - TWO31)) == Rep(257 * (s[0] as int))
            && !(HighFirst(f - TWO31) == TWO31 && AllTop(s, u)))
  {
    hide InitLfsrFrom, InitLfsr, First, HighFirst, Rep, AllTop;
    StartCondition(f, s, u);
    HighFirstIs(f, f - TWO31);
  }

  // ----- states that the routine meets -----

  /** In every initialisation round of every key and IV, for every value the variable may hold. */
  lemma RoundStart(k: seq<u8>, iv: seq<u8>, m: nat, f: u32)
    requires |k| == 16 && |iv| == 16
    ensures var st := InitSteps(State(LoadKey(k, iv), 0, 0), m);
      var u := Shr(FOf(st).w, 1);
      && (f < TWO31 ==>
            (InitLfsrFrom(f, st.s, u) == InitLfsr(st.s, u) <==> f == st.s[0] || (f == 0 && st.s[0] == P)))
      && (f >= TWO31 ==>
            (InitLfsrFrom(f, st.s, u) == InitLfsr(st.s, u)
             <==> (Rep(HighFirst(f - TWO31)) == Rep(257 * (st.s[0] as int))
                   && !(HighFirst(f - TWO31) == TWO31 && AllTop(st.s, u)))))
  {
    hide LoadKey, InitSteps, InitLfsrFrom, InitLfsr, FOf, Shr, HighFirst, Rep, AllTop;
    var st := InitSteps(State(LoadKey(k, iv), 0, 0), m);
    LoadKeyValid(k, iv);
    InitStepsValid(State(LoadKey(k, iv), 0, 0), m);
    HalfFits(FOf(st).w);
    if f < TWO31 {
      LowStart(f, st.s, Shr(FOf(st).w, 1));
    } else {
      HighStart(f, st.s, Shr(FOf(st).w, 1));
    }
  }

  /** If the variable happens to hold 0, the very first round is wrong, whatever the key and the IV. */
  lemma WrongStart(k: seq<u8>, iv: seq<u8>)
    requires |k| == 16 && |iv| == 16
    ensures var st := State(LoadKey(k, iv), 0, 0);
      var u := Shr(FOf(st).w, 1);
      InitLfsrFrom(0, st.s, u) != InitLfsr(st.s, u)
  {
    hide LoadKey, InitLfsrFrom, InitLfsr, FOf, Shr;
    RoundStart(k, iv, 0, 0);
    LoadedCell(k, iv, 0);
    assert EK_D[0] == 0x44D7;
  }
}
