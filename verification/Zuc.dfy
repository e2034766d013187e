/**
 * The ZUC state machine as functions of the state: one function for each C routine, in the routine's
 * own operations. Class Cipher in ZucCipher.dfy does the same steps on registers.
 */
module Zuc {
  import opened Words
  import opened Mersenne
  import opened Rotations
  import opened Sboxes

  /** The sixteen LFSR cells and the two registers of F. */
  datatype State = State(s: seq<u32>, r1: u32, r2: u32)

  /** What F leaves behind: its output word and its two new registers. */
  datatype FResult = FResult(w: u32, r1: u32, r2: u32)

  // ----- LFSR -----

  /** The chain of AddM and MulByPow2 shared by both LFSR modes, started from f. */
  function Feedback(f: u32, s: seq<u32>): u32
    requires |s| == 16
  {
    var f1 := AddM(f, MulByPow2(f, 8));
    var f2 := AddM(f1, MulByPow2(s[4], 20));
    var f3 := AddM(f2, MulByPow2(s[10], 21));
    var f4 := AddM(f3, MulByPow2(s[13], 17));
    AddM(f4, MulByPow2(s[15], 15))
  }

  function WorkLfsr(s: seq<u32>): (r: seq<u32>)
    requires |s| == 16
    ensures |r| == 16
  {
    s[1..] + [Feedback(s[0], s)]
  }

  /** Initialisation mode with f as the value the chain starts from. */
  function InitLfsrFrom(f: u32, s: seq<u32>, u: u32): (r: seq<u32>)
    requires |s| == 16
    ensures |r| == 16
  {
    s[1..] + [AddM(Feedback(f, s), u)]
  }

  function InitLfsr(s: seq<u32>, u: u32): (r: seq<u32>)
    requires |s| == 16
    ensures |r| == 16
  {
    InitLfsrFrom(s[0], s, u)
  }

  // ----- bit reorganization -----

  function X0(s: seq<u32>): u32
    requires |s| == 16
  {
    Or(Shl(And(s[15], 0x7FFF_8000), 1), And(s[14], 0xFFFF))
  }

  function X1(s: seq<u32>): u32
    requires |s| == 16
  {
    Or(Shl(And(s[11], 0xFFFF), 16), Shr(s[9], 15))
  }

  function X2(s: seq<u32>): u32
    requires |s| == 16
  {
    Or(Shl(And(s[7], 0xFFFF), 16), Shr(s[5], 15))
  }

  function X3(s: seq<u32>): u32
    requires |s| == 16
  {
    Or(Shl(And(s[2], 0xFFFF), 16), Shr(s[0], 15))
  }

  // ----- F -----

  function MakeU32(a: u8, b: u8, c: u8, d: u8): u32 {
    Or(Or(Or(Shl(a, 24), Shl(b, 16)), Shl(c, 8)), d)
  }

  function Byte3(u: u32): u8 {
    Shifts(u);
    Shr(u, 24)
  }

  function Byte2(u: u32): u8 {
    And(Shr(u, 16), 0xFF)
  }

  function Byte1(u: u32): u8 {
    And(Shr(u, 8), 0xFF)
  }

  function Byte0(u: u32): u8 {
    And(u, 0xFF)
  }

  function Substitute(u: u32): u32 {
    MakeU32(S0(Byte3(u)), S1(Byte2(u)), S0(Byte1(u)), S1(Byte0(u)))
  }

  function F(x0: u32, x1: u32, x2: u32, r1: u32, r2: u32): FResult {
    var w := Add(Xor(x0, r1), r2);
    var w1 := Add(r1, x1);
    var w2 := Xor(r2, x2);
    var u := L1(Or(Shl(w1, 16), Shr(w2, 16)));
    var v := L2(Or(Shl(w2, 16), Shr(w1, 16)));
    FResult(w, Substitute(u), Substitute(v))
  }

  function FOf(st: State): FResult
    requires |st.s| == 16
  {
    F(X0(st.s), X1(st.s), X2(st.s), st.r1, st.r2)
  }

  // ----- rounds -----

  function WorkStep(st: State): (r: State)
    requires |st.s| == 16
    ensures |r.s| == 16
  {
    var f := FOf(st);
    State(WorkLfsr(st.s), f.r1, f.r2)
  }

  function InitStep(st: State): (r: State)
    requires |st.s| == 16
    ensures |r.s| == 16
  {
    var f := FOf(st);
    State(InitLfsr(st.s, Shr(f.w, 1)), f.r1, f.r2)
  }

  function WorkSteps(st: State, n: nat): (r: State)
    requires |st.s| == 16
    ensures |r.s| == 16
  {
    if n == 0 then st else WorkStep(WorkSteps(st, n - 1))
  }

  function InitSteps(st: State, n: nat): (r: State)
    requires |st.s| == 16
    ensures |r.s| == 16
  {
    if n == 0 then st else InitStep(InitSteps(st, n - 1))
  }

  // ----- key loading and key stream -----

  function MakeU31(a: u8, b: u32, c: u8): u32 {
    Or(Or(Shl(a, 23), Shl(b, 8)), c)
  }

  const EK_D: seq<u32> := [
    0x44D7, 0x26BC, 0x626B, 0x135E, 0x5789, 0x35E2, 0x7135, 0x09AF,
    0x4D78, 0x2F13, 0x6BC4, 0x1AF1, 0x5E26, 0x3C4D, 0x789A, 0x47AC
  ]

  function LoadKey(k: seq<u8>, iv: seq<u8>): (s: seq<u32>)
    requires |k| == 16 && |iv| == 16
    ensures |s| == 16
  {
    seq(16, i requires 0 <= i < 16 => MakeU31(k[i], EK_D[i], iv[i]))
  }

  const INIT_ROUNDS: nat := 32

  function Initialized(k: seq<u8>, iv: seq<u8>): (st: State)
    requires |k| == 16 && |iv| == 16
    ensures |st.s| == 16
  {
    InitSteps(State(LoadKey(k, iv), 0, 0), INIT_ROUNDS)
  }

  /** The word the cipher outputs in a state, before the LFSR moves. */
  function OutputWord(st: State): u32
    requires |st.s| == 16
  {
    Xor(FOf(st).w, X3(st.s))
  }

  /** n output words, from the state after the discarded one. */
  function Stream(st: State, n: nat): (z: seq<u32>)
    requires |st.s| == 16
    ensures |z| == n
  {
    if n == 0 then [] else Stream(st, n - 1) + [OutputWord(WorkSteps(st, n - 1))]
  }

  /** GenerateKeystream on an initialised state: one step whose output is dropped, then n words. */
  function Keystream(k: seq<u8>, iv: seq<u8>, n: nat): (z: seq<u32>)
    requires |k| == 16 && |iv| == 16
    ensures |z| == n
  {
    Stream(WorkStep(Initialized(k, iv)), n)
  }
}
