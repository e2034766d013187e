/** The LFSR as a linear recurrence modulo 2^31 - 1: range, congruence, and undoing a step. */
module ZucLfsr {
  import opened Bits
  import opened Words
  import opened Mersenne
  import opened Zuc

  /** Sixteen cells, each in 1..P. */
  ghost predicate Reduced(s: seq<u32>) {
    |s| == 16 && forall i :: 0 <= i < 16 ==> 1 <= s[i] <= P
  }

  /** The taps other than cell 0, as section 3.2 of the ZUC Specification weighs them. */
  function OtherTaps(s: seq<u32>): int
    requires |s| == 16
  {
    var s4: int, s10: int, s13: int, s15: int := s[4], s[10], s[13], s[15];
    0x8000 * s15 + 0x2_0000 * s13 + 0x20_0000 * s10 + 0x10_0000 * s4
  }

  lemma RepOf(x: int) returns (n: int)
    ensures Rep(x) == x - n * P
  {
    n := (x - 1) / P;
  }

  lemma RepIs(f: int, x: int, q: int)
    requires f == x - q * P && 1 <= f <= P
    ensures f == Rep(x)
  {
  }

  /** AddM on representatives: no wrap-around, and a representative of the sum. */
  lemma AddCong(g: u32, x: int, n: int, b: u32, y: int, q: int) returns (n': int)
    requires g == x - n * P && 1 <= g <= P && b == y - q * P && b <= P
    ensures g + b < TWO32
    ensures AddM(g, b) == x + y - n' * P && 1 <= AddM(g, b) <= P
  {
    AddMIsSum(g, b);
    n' := n + q + if g + b <= P then 0 else 1;
  }

  lemma AddTimes(g: u32, x: int, n: int, c: u32, k: nat, m: nat) returns (n': int)
    requires g == x - n * P && 1 <= g <= P
    requires c <= P && k <= 31 && Pow2(k) == m
    ensures g + MulByPow2(c, k) < TWO32
    ensures AddM(g, MulByPow2(c, k)) == x + c * m - n' * P && 1 <= AddM(g, MulByPow2(c, k)) <= P
  {
    MulByPow2IsProduct(c, k);
    n' := AddCong(g, x, n, MulByPow2(c, k), c * m, c / Pow2(31 - k));
  }

  lemma NextPower(n: nat, m: nat)
    requires Pow2(n) == m
    ensures Pow2(n + 1) == 2 * m
  {
  }

  /** The weights of the taps. */
  lemma TapPowers()
    ensures Pow2(8) == 0x100 && Pow2(15) == 0x8000 && Pow2(17) == 0x2_0000
    ensures Pow2(20) == 0x10_0000 && Pow2(21) == 0x20_0000
  {
    Power8();
    hide Pow2;
    NextPower(8, 0x100);
    NextPower(9, 0x200);
    NextPower(10, 0x400);
    NextPower(11, 0x800);
    NextPower(12, 0x1000);
    NextPower(13, 0x2000);
    NextPower(14, 0x4000);
    NextPower(15, 0x8000);
    NextPower(16, 0x1_0000);
    NextPower(17, 0x2_0000);
    NextPower(18, 0x4_0000);
    NextPower(19, 0x8_0000);
    NextPower(20, 0x10_0000);
  }

  lemma Power8()
    ensures Pow2(8) == 0x100
  {
    assert Pow2(2) == 4;
    assert Pow2(4) == 0x10;
    assert Pow2(6) == 0x40;
  }

  /** None of the five additions of the chain overflows 32 bits. */
  predicate NeverWraps(f: u32, s: seq<u32>)
    requires |s| == 16
  {
    var f1 := AddM(f, MulByPow2(f, 8));
    var f2 := AddM(f1, MulByPow2(s[4], 20));
    var f3 := AddM(f2, MulByPow2(s[10], 21));
    var f4 := AddM(f3, MulByPow2(s[13], 17));
    && f + MulByPow2(f, 8) < TWO32
    && f1 + MulByPow2(s[4], 20) < TWO32
    && f2 + MulByPow2(s[10], 21) < TWO32
    && f3 + MulByPow2(s[13], 17) < TWO32
    && f4 + MulByPow2(s[15], 15) < TWO32
  }

  lemma FeedbackCong(f: u32, s: seq<u32>) returns (n: int)
    requires Reduced(s) && 1 <= f <= P
    ensures NeverWraps(f, s)
    ensures Feedback(f, s) == 257 * f + OtherTaps(s) - n * P && 1 <= Feedback(f, s) <= P
  {
    hide Pow2, AddM, MulByPow2;
    TapPowers();
    var f1 := AddM(f, MulByPow2(f, 8));
    var f2 := AddM(f1, MulByPow2(s[4], 20));
    var f3 := AddM(f2, MulByPow2(s[10], 21));
    var f4 := AddM(f3, MulByPow2(s[13], 17));
    n := AddTimes(f, f, 0, f, 8, 0x100);
    n := AddTimes(f1, f1 + n * P, n, s[4], 20, 0x10_0000);
    n := AddTimes(f2, f2 + n * P, n, s[10], 21, 0x20_0000);
    n := AddTimes(f3, f3 + n * P, n, s[13], 17, 0x2_0000);
    n := AddTimes(f4, f4 + n * P, n, s[15], 15, 0x8000);
  }

  /**
   * From a reduced state and a reduced start, the shift-and-mask chain is the weighted sum of the taps
   * modulo P, in 1..P: it is never zero, so the specification's "if zero, set to 2^31 - 1" never fires.
   */
  lemma FeedbackIsTapSum(f: u32, s: seq<u32>)
    requires Reduced(s) && 1 <= f <= P
    ensures Feedback(f, s) == Rep(257 * f + OtherTaps(s))
  {
    hide Feedback, AddM, Rep, OtherTaps, NeverWraps;
    var g, taps := Feedback(f, s), OtherTaps(s);
    var n := FeedbackCong(f, s);
    RepIs(g, 257 * f + taps, n);
  }

  /** The same with the initialisation input u added last. */
  lemma InitFeedbackIsTapSum(f: u32, s: seq<u32>, u: u32)
    requires Reduced(s) && 1 <= f <= P && u <= P
    ensures AddM(Feedback(f, s), u) == Rep(257 * f + OtherTaps(s) + u)
  {
    hide Feedback, AddM, Rep, OtherTaps, NeverWraps;
    var g, taps := Feedback(f, s), OtherTaps(s);
    var n := FeedbackCong(f, s);
    n := AddCong(g, 257 * f + taps, n, u, u, 0);
    RepIs(AddM(g, u), 257 * f + taps + u, n);
  }

  /** No addition of the chain overflows, and neither does adding the initialisation input. */
  lemma FeedbackNeverWraps(f: u32, s: seq<u32>, u: u32)
    requires Reduced(s) && 1 <= f <= P && u <= P
    ensures NeverWraps(f, s) && Feedback(f, s) + u < TWO32
  {
    hide Feedback, NeverWraps, OtherTaps;
    var n := FeedbackCong(f, s);
  }

  // ----- steps keep cells reduced -----

  lemma WorkLfsrReduced(s: seq<u32>)
    requires Reduced(s)
    ensures Reduced(WorkLfsr(s))
  {
    FeedbackIsTapSum(s[0], s);
  }

  lemma InitLfsrReduced(s: seq<u32>, u: u32)
    requires Reduced(s) && u <= P
    ensures Reduced(InitLfsr(s, u))
  {
    InitFeedbackIsTapSum(s[0], s, u);
  }

  // ----- recovering cell 0 -----

  /** 257 * 16711935 == 2 * P + 1, so 16711935 undoes multiplication by 257 modulo P. */
  const INVERSE_257: int := 16711935

  function Cell0(top: int, rest: int): (c: u32)
    ensures 1 <= c <= P
  {
    Rep(INVERSE_257 * (top - rest))
  }

  lemma Cell0Undoes(c: int, rest: int)
    requires 1 <= c <= P
    ensures Cell0(Rep(257 * c + rest), rest) == c
  {
    var x := 257 * c + rest;
    var n := RepOf(x);
    RepIs(c, INVERSE_257 * (Rep(x) - rest), 2 * c - INVERSE_257 * n);
  }

  lemma Cell0Reaches(top: int, rest: int)
    requires 1 <= top <= P
    ensures Rep(257 * Cell0(top, rest) + rest) == top
  {
    var y := INVERSE_257 * (top - rest);
    var n := RepOf(y);
    RepIs(top, 257 * Rep(y) + rest, 2 * (top - rest) - 257 * n);
  }
}
