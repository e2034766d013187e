/**
 * What the steps of the cipher compute, in numbers alone: each round, the number of initialisation rounds, the
 * words of the key stream, and the constants of key loading.
 */
module ZucMeaning {
  import opened Words
  import opened Mersenne
  import opened SboxDesign
  import opened Zuc
  import opened ZucF
  import opened ZucLfsr
  import opened ZucSteps
  import opened ZucRuns

  // ----- one round -----

  /** F on the halves of the cells that BitReorganization takes. */
  lemma FOfCells(st: State, x0: u32, x1: u32, x2: u32)
    requires Valid(st)
    requires x0 as int == st.s[15] / 0x8000 * 0x1_0000 + st.s[14] % 0x1_0000
    requires x1 as int == st.s[11] % 0x1_0000 * 0x1_0000 + st.s[9] / 0x8000
    requires x2 as int == st.s[7] % 0x1_0000 * 0x1_0000 + st.s[5] / 0x8000
    ensures FOf(st) == F(x0, x1, x2, st.r1, st.r2)
  {
    hide F, X0, X1, X2, X3;
    Halves(st.s);
  }

  lemma RepIsRemainder(x: int)
    ensures Rep(x) == (x - 1) % 0x7FFF_FFFF + 1
  {
  }

  /** The taps of section 3.2 of the ZUC Specification, and an input. */
  lemma TapsAre(s: seq<u32>, u: int)
    requires |s| == 16
    ensures 257 * (s[0] as int) + OtherTaps(s) + u
         == 0x8000 * (s[15] as int) + 0x2_0000 * (s[13] as int) + 0x20_0000 * (s[10] as int)
            + 0x10_0000 * (s[4] as int) + 257 * (s[0] as int) + u
  {
  }

  /** A work-mode round, where the LFSR takes no input. */
  lemma WorkRound(st: State)
    requires Valid(st)
    ensures var t := WorkStep(st);
      && t.s[..15] == st.s[1..]
      && t.s[15] == (0x8000 * (st.s[15] as int) + 0x2_0000 * (st.s[13] as int) + 0x20_0000 * (st.s[10] as int)
                     + 0x10_0000 * (st.s[4] as int) + 257 * (st.s[0] as int) - 1) % 0x7FFF_FFFF + 1
      && t.r1 == FOf(st).r1 && t.r2 == FOf(st).r2
  {
    hide FOf, Feedback, Rep, OtherTaps;
    FeedbackIsTapSum(st.s[0], st.s);
    TapsAre(st.s, 0);
    RepIsRemainder(257 * (st.s[0] as int) + OtherTaps(st.s));
  }

  /** An initialisation round, where half of F's word goes into the LFSR. */
  lemma InitRound(st: State)
    requires Valid(st)
    ensures var t := InitStep(st);
      && t.s[..15] == st.s[1..]
      && t.s[15] == (0x8000 * (st.s[15] as int) + 0x2_0000 * (st.s[13] as int) + 0x20_0000 * (st.s[10] as int)
                     + 0x10_0000 * (st.s[4] as int) + 257 * (st.s[0] as int) + FOf(st).w / 2 - 1) % 0x7FFF_FFFF + 1
      && t.r1 == FOf(st).r1 && t.r2 == FOf(st).r2
  {
    hide FOf, Feedback, AddM, Rep, OtherTaps, Shr;
    var u := Shr(FOf(st).w, 1);
    HalfFits(FOf(st).w);
    HalfIs(FOf(st).w);
    InitFeedbackIsTapSum(st.s[0], st.s, u);
    TapsAre(st.s, u);
    RepIsRemainder(257 * (st.s[0] as int) + OtherTaps(st.s) + u);
  }

  lemma HalfIs(w: u32)
    ensures Shr(w, 1) == w / 2
  {
    hide Shr, Shl;
    Shifts(w);
  }

  // ----- initialisation -----

  /** n initialisation rounds taken back. */
  function UndoAll(st: State, n: nat): (r: State)
    requires |st.s| == 16
    ensures |r.s| == 16
  {
    if n == 0 then st else Undo(UndoAll(st, n - 1), true)
  }

  lemma {:induction false} RoundsUndone(st: State, n: nat, j: nat)
    requires Valid(st) && j <= n
    ensures UndoAll(InitSteps(st, n), j) == InitSteps(st, n - j)
  {
    hide InitStep, Undo;
    if j > 0 {
      RoundsUndone(st, n, j - 1);
      InitStepsValid(st, n - j);
      InitStepUndone(InitSteps(st, n - j));
    }
  }

  /** Exactly 32 rounds taken back from an initialised state give back key and IV, and empty registers. */
  lemma InitialisationUndone(k: seq<u8>, iv: seq<u8>)
    requires |k| == 16 && |iv| == 16
    ensures var st := UndoAll(Initialized(k, iv), 32);
      && st.r1 == 0 && st.r2 == 0
      && forall i :: 0 <= i < 16 ==>
           st.s[i] as int == k[i] as int * 0x80_0000 + EK_D[i] as int * 0x100 + iv[i] as int
  {
    hide LoadKey, InitSteps, UndoAll;
    var loaded := State(LoadKey(k, iv), 0, 0);
    LoadKeyValid(k, iv);
    RoundsUndone(loaded, INIT_ROUNDS, INIT_ROUNDS);
    NoRounds(loaded);
    forall i | 0 <= i < 16
      ensures loaded.s[i] as int == k[i] as int * 0x80_0000 + EK_D[i] as int * 0x100 + iv[i] as int
    {
      LoadedCell(k, iv, i);
    }
  }

  lemma NoRounds(st: State)
    requires |st.s| == 16
    ensures InitSteps(st, 0) == st
  {
  }

  // ----- the constants of key loading -----

  /**
   * Constant i, for i below 15, has fifteen binary digits, highest first: the first four are those of i + 1, lowest
   * first, and each of the others is the sum of the digits four and three places before it. The last constant
   * stands apart.
   */
  lemma Constants(i: nat, b0: bool, b1: bool, b2: bool, b3: bool, b4: bool, b5: bool, b6: bool, b7: bool,
        b8: bool, b9: bool, b10: bool, b11: bool, b12: bool, b13: bool, b14: bool)
    requires i < 15 && i + 1 == Weigh(b0, 1) + Weigh(b1, 2) + Weigh(b2, 4) + Weigh(b3, 8)
    requires b4 == (b0 != b1) && b5 == (b1 != b2) && b6 == (b2 != b3)
    requires b7 == (b3 != b4) && b8 == (b4 != b5) && b9 == (b5 != b6)
    requires b10 == (b6 != b7) && b11 == (b7 != b8) && b12 == (b8 != b9)
    requires b13 == (b9 != b10) && b14 == (b10 != b11)
    ensures EK_D[i] == Weigh(b0, 0x4000) + Weigh(b1, 0x2000) + Weigh(b2, 0x1000) + Weigh(b3, 0x800) + Weigh(b4, 0x400)
      + Weigh(b5, 0x200) + Weigh(b6, 0x100) + Weigh(b7, 0x80) + Weigh(b8, 0x40) + Weigh(b9, 0x20)
      + Weigh(b10, 0x10) + Weigh(b11, 0x8) + Weigh(b12, 0x4) + Weigh(b13, 0x2) + Weigh(b14, 0x1)
    ensures EK_D[15] == 0x47AC
  {
  }

  // ----- the key stream -----

  /** The word that a state puts out, on the halves of its cells. */
  lemma OutputIs(st: State, x0: u32, x3: u32)
    requires Valid(st)
    requires x0 as int == st.s[15] / 0x8000 * 0x1_0000 + st.s[14] % 0x1_0000
    requires x3 as int == st.s[2] % 0x1_0000 * 0x1_0000 + st.s[0] / 0x8000
    ensures OutputWord(st) == Xor((Xor(x0, st.r1) + st.r2) % 0x1_0000_0000, x3)
  {
    hide F, X0, X1, X2, X3, Xor;
    Halves(st.s);
    FWord(X0(st.s), X1(st.s), X2(st.s), st.r1, st.r2);
  }

  /** Word i of the key stream is put out after one discarded step and i others. */
  lemma KeystreamWord(k: seq<u8>, iv: seq<u8>, n: nat, i: nat)
    requires |k| == 16 && |iv| == 16 && i < n
    ensures Keystream(k, iv, n)[i] == OutputWord(WorkSteps(Initialized(k, iv), i + 1))
  {
    hide Initialized, WorkStep, WorkSteps, Stream, OutputWord;
    var st := Initialized(k, iv);
    StreamWord(WorkStep(st), n, i);
    OneStep(st);
    WorkStepsAdd(st, 1, i);
  }

  lemma OneStep(st: State)
    requires |st.s| == 16
    ensures WorkSteps(st, 1) == WorkStep(st)
  {
    hide WorkStep;
    assert WorkSteps(st, 0) == st;
  }
}
