/** What holds over whole runs: injective initialisation, pure periodicity, one linear recurrence. */
module ZucRuns {
  import opened Words
  import opened Mersenne
  import opened Zuc
  import opened ZucLfsr
  import opened ZucSteps

  // ----- key loading -----

  lemma MakeU31IsSum(a: u8, b: u32, c: u8)
    requires b < 0x8000
    ensures MakeU31(a, b, c) == a * 0x80_0000 + b * 0x100 + c
  {
    hide Or, Shl, Shr;
    Shifts(a);
    Shifts(b);
    assert Shl(a, 23) == a * 0x80_0000 && Shl(b, 8) == b * 0x100;
    Above(a * 0x80_0000, a, b * 0x100, 0x80_0000);
    Above(a * 0x80_0000 + b * 0x100, a * 0x8000 + b, c, 0x100);
  }

  lemma Above(x: u32, h: nat, y: u32, d: nat)
    requires (d == 0x100 || d == 0x80_0000) && x == h * d && y < d
    ensures Or(x, y) == x + y
  {
    hide Or;
    Powers();
    Concat(x, h, y, d);
  }

  /** The constants are 15 bits wide and not zero, so no loaded cell is zero and none needs 32 bits. */
  lemma LoadedCell(k: seq<u8>, iv: seq<u8>, i: nat)
    requires |k| == 16 && |iv| == 16 && i < 16
    ensures LoadKey(k, iv)[i] as int == k[i] as int * 0x80_0000 + EK_D[i] as int * 0x100 + iv[i] as int
    ensures 1 <= LoadKey(k, iv)[i] <= P
  {
    hide MakeU31;
    assert 0 < EK_D[i] < 0x8000;
    MakeU31IsSum(k[i], EK_D[i], iv[i]);
  }

  lemma LoadKeyValid(k: seq<u8>, iv: seq<u8>)
    requires |k| == 16 && |iv| == 16
    ensures Reduced(LoadKey(k, iv))
  {
    hide LoadKey;
    forall i | 0 <= i < 16 ensures 1 <= LoadKey(k, iv)[i] <= P {
      LoadedCell(k, iv, i);
    }
  }

  lemma LoadKeyInjective(k: seq<u8>, iv: seq<u8>, k': seq<u8>, iv': seq<u8>)
    requires |k| == 16 && |iv| == 16 && |k'| == 16 && |iv'| == 16
    requires LoadKey(k, iv) == LoadKey(k', iv')
    ensures k == k' && iv == iv'
  {
    hide LoadKey;
    forall i | 0 <= i < 16 ensures k[i] == k'[i] && iv[i] == iv'[i] {
      LoadedCell(k, iv, i);
      LoadedCell(k', iv', i);
    }
  }

  // ----- reachable states are valid -----

  lemma {:induction false} WorkStepsValid(st: State, n: nat)
    requires Valid(st)
    ensures Valid(WorkSteps(st, n))
  {
    hide WorkStep;
    if n > 0 {
      WorkStepsValid(st, n - 1);
      WorkStepValid(WorkSteps(st, n - 1));
    }
  }

  lemma {:induction false} InitStepsValid(st: State, n: nat)
    requires Valid(st)
    ensures Valid(InitSteps(st, n))
  {
    hide InitStep;
    if n > 0 {
      InitStepsValid(st, n - 1);
      InitStepValid(InitSteps(st, n - 1));
    }
  }

  /** After key loading, any number of initialisation rounds and any number of work rounds. */
  lemma ReachableValid(k: seq<u8>, iv: seq<u8>, m: nat, n: nat)
    requires |k| == 16 && |iv| == 16
    ensures Valid(WorkSteps(InitSteps(State(LoadKey(k, iv), 0, 0), m), n))
  {
    hide LoadKey, WorkSteps, InitSteps;
    LoadKeyValid(k, iv);
    InitStepsValid(State(LoadKey(k, iv), 0, 0), m);
    WorkStepsValid(InitSteps(State(LoadKey(k, iv), 0, 0), m), n);
  }

  lemma InitializedValid(k: seq<u8>, iv: seq<u8>)
    requires |k| == 16 && |iv| == 16
    ensures Valid(Initialized(k, iv))
  {
    hide LoadKey, InitSteps;
    LoadKeyValid(k, iv);
    InitStepsValid(State(LoadKey(k, iv), 0, 0), INIT_ROUNDS);
  }

  /** In every reachable state no addition of either LFSR mode overflows 32 bits. */
  lemma NoOverflow(k: seq<u8>, iv: seq<u8>, m: nat, n: nat)
    requires |k| == 16 && |iv| == 16
    ensures var st := WorkSteps(InitSteps(State(LoadKey(k, iv), 0, 0), m), n);
      NeverWraps(st.s[0], st.s) && Feedback(st.s[0], st.s) + Shr(FOf(st).w, 1) < TWO32
  {
    hide LoadKey, WorkSteps, InitSteps, Feedback, NeverWraps, FOf, Shr;
    var st := WorkSteps(InitSteps(State(LoadKey(k, iv), 0, 0), m), n);
    ReachableValid(k, iv, m, n);
    HalfFits(FOf(st).w);
    FeedbackNeverWraps(st.s[0], st.s, Shr(FOf(st).w, 1));
  }

  /** On a reduced LFSR both halves of every reorganised word are 16-bit values. */
  lemma Halves(s: seq<u32>)
    requires Reduced(s)
    ensures X0(s) == s[15] / 0x8000 * 0x1_0000 + s[14] % 0x1_0000 && s[15] / 0x8000 < 0x1_0000
    ensures X1(s) == s[11] % 0x1_0000 * 0x1_0000 + s[9] / 0x8000 && s[9] / 0x8000 < 0x1_0000
    ensures X2(s) == s[7] % 0x1_0000 * 0x1_0000 + s[5] / 0x8000 && s[5] / 0x8000 < 0x1_0000
    ensures X3(s) == s[2] % 0x1_0000 * 0x1_0000 + s[0] / 0x8000 && s[0] / 0x8000 < 0x1_0000
  {
    hide Or, And, Shl, Shr;
    TopAndLow(s[15], s[14]);
    LowAndTop(s[11], s[9]);
    LowAndTop(s[7], s[5]);
    LowAndTop(s[2], s[0]);
  }

  lemma TopAndLow(a: u32, b: u32)
    requires a <= P
    ensures Or(Shl(And(a, 0x7FFF_8000), 1), And(b, 0xFFFF)) == a / 0x8000 * 0x1_0000 + b % 0x1_0000
    ensures a / 0x8000 < 0x1_0000
  {
    hide Or, And, Shl, Shr;
    Powers();
    MaskMiddle(a);
    Shifts(And(a, 0x7FFF_8000));
    Mask(b, 0x1_0000);
    var h := a / 0x8000;
    assert h < 0x1_0000;
    Concat(h * 0x1_0000, h, b % 0x1_0000, 0x1_0000);
  }

  lemma LowAndTop(a: u32, b: u32)
    requires b <= P
    ensures Or(Shl(And(a, 0xFFFF), 16), Shr(b, 15)) == a % 0x1_0000 * 0x1_0000 + b / 0x8000
    ensures b / 0x8000 < 0x1_0000
  {
    hide Or, And, Shl, Shr;
    Powers();
    Mask(a, 0x1_0000);
    var l := a % 0x1_0000;
    Shifts(l);
    Shifts(b);
    Concat(l * 0x1_0000, l, b / 0x8000, 0x1_0000);
  }

  // ----- runs are injective -----

  lemma {:induction false} WorkStepsInjective(st: State, st': State, n: nat)
    requires Valid(st) && Valid(st')
    ensures WorkSteps(st, n) == WorkSteps(st', n) <==> st == st'
  {
    hide WorkStep, Undo;
    if n > 0 {
      WorkStepsValid(st, n - 1);
      WorkStepsValid(st', n - 1);
      WorkStepUndone(WorkSteps(st, n - 1));
      WorkStepUndone(WorkSteps(st', n - 1));
      WorkStepsInjective(st, st', n - 1);
    }
  }

  lemma {:induction false} InitStepsInjective(st: State, st': State, n: nat)
    requires Valid(st) && Valid(st')
    ensures InitSteps(st, n) == InitSteps(st', n) <==> st == st'
  {
    hide InitStep, Undo;
    if n > 0 {
      InitStepsValid(st, n - 1);
      InitStepsValid(st', n - 1);
      InitStepUndone(InitSteps(st, n - 1));
      InitStepUndone(InitSteps(st', n - 1));
      InitStepsInjective(st, st', n - 1);
    }
  }

  /**
   * No two key and IV pairs share an internal state: not after the 32 rounds, and not after any number of
   * work-mode steps that follow.
   */
  lemma InitialisationInjective(k: seq<u8>, iv: seq<u8>, k': seq<u8>, iv': seq<u8>, n: nat)
    requires |k| == 16 && |iv| == 16 && |k'| == 16 && |iv'| == 16
    ensures WorkSteps(Initialized(k, iv), n) == WorkSteps(Initialized(k', iv'), n) <==> k == k' && iv == iv'
  {
    hide LoadKey, WorkSteps, InitSteps;
    var a, b := State(LoadKey(k, iv), 0, 0), State(LoadKey(k', iv'), 0, 0);
    LoadKeyValid(k, iv);
    LoadKeyValid(k', iv');
    InitStepsValid(a, INIT_ROUNDS);
    InitStepsValid(b, INIT_ROUNDS);
    WorkStepsInjective(Initialized(k, iv), Initialized(k', iv'), n);
    InitStepsInjective(a, b, INIT_ROUNDS);
    if LoadKey(k, iv) == LoadKey(k', iv') {
      LoadKeyInjective(k, iv, k', iv');
    }
  }

  // ----- the linear recurrence -----

  /** Term t of the sequence that the LFSR runs through from a state. */
  function Cell(st: State, t: nat): u32
    requires |st.s| == 16
  {
    if t < 16 then st.s[t] else WorkSteps(st, t - 15).s[15]
  }

  /** The sixteen registers are a window on that sequence. */
  lemma {:induction false} Window(st: State, t: nat, i: nat)
    requires |st.s| == 16 && i < 16
    ensures WorkSteps(st, t).s[i] == Cell(st, t + i)
  {
    hide FOf, Feedback;
    if t > 0 && i < 15 {
      Window(st, t - 1, i + 1);
    }
  }

  lemma Recurrence(st: State, t: nat)
    requires Valid(st)
    ensures Cell(st, t + 16) == Rep(0x8000 * (Cell(st, t + 15) as int) + 0x2_0000 * (Cell(st, t + 13) as int)
                                + 0x20_0000 * (Cell(st, t + 10) as int) + 0x10_0000 * (Cell(st, t + 4) as int)
                                + 257 * (Cell(st, t) as int))
  {
    hide FOf, Feedback, Rep, Cell;
    var now := WorkSteps(st, t);
    WorkStepsValid(st, t);
    Window(st, t, 0);
    Window(st, t, 4);
    Window(st, t, 10);
    Window(st, t, 13);
    Window(st, t, 15);
    Window(st, t + 1, 15);
    FeedbackIsTapSum(now.s[0], now.s);
  }

  // ----- pure periodicity -----

  function Code(w: seq<u32>): nat {
    if w == [] then 0 else w[0] + TWO32 * Code(w[1..])
  }

  function Codes(n: nat): (b: nat)
    ensures b >= 1
  {
    if n == 0 then 1 else TWO32 * Codes(n - 1)
  }

  lemma {:induction false} CodeBound(w: seq<u32>)
    ensures Code(w) < Codes(|w|)
  {
    if w != [] {
      CodeBound(w[1..]);
    }
  }

  lemma {:induction false} CodeInjective(v: seq<u32>, w: seq<u32>)
    requires |v| == |w| && Code(v) == Code(w)
    ensures v == w
  {
    if v != [] {
      CodeInjective(v[1..], w[1..]);
      assert v == [v[0]] + v[1..] && w == [w[0]] + w[1..];
    }
  }

  /** Distinct numbers below n: there are at most n of them. */
  lemma {:induction false} Pigeonhole(v: seq<nat>, n: nat)
    requires forall i :: 0 <= i < |v| ==> v[i] < n
    requires forall i, j :: 0 <= i < j < |v| ==> v[i] != v[j]
    ensures |v| <= n
    decreases n
  {
    if v != [] {
      assert v[0] < n;
      if i :| 0 <= i < |v| && v[i] == n - 1 {
        Pigeonhole(v[..i] + v[i + 1..], n - 1);
      } else {
        Pigeonhole(v, n - 1);
      }
    }
  }

  function Words18(st: State): seq<u32> {
    st.s + [st.r1, st.r2]
  }

  const STATES: nat := Codes(18)

  lemma RepeatExists(st: State) returns (i: nat, j: nat)
    requires |st.s| == 16
    ensures i < j <= STATES && WorkSteps(st, i) == WorkSteps(st, j)
  {
    hide WorkSteps, Code, Codes;
    var v: seq<nat> := seq(STATES + 1, t requires 0 <= t <= STATES => Code(Words18(WorkSteps(st, t))));
    forall t | 0 <= t < |v| ensures v[t] < STATES {
      CodeBound(Words18(WorkSteps(st, t)));
    }
    if forall i, j :: 0 <= i < j < |v| ==> v[i] != v[j] {
      Pigeonhole(v, STATES);
      assert false;
    }
    i, j :| 0 <= i < j < |v| && v[i] == v[j];
    var a, b := WorkSteps(st, i), WorkSteps(st, j);
    CodeInjective(Words18(a), Words18(b));
    assert a.s == Words18(a)[..16] && b.s == Words18(b)[..16];
    assert a.r1 == Words18(a)[16] && a.r2 == Words18(a)[17];
  }

  lemma {:induction false} WorkStepsAdd(st: State, m: nat, n: nat)
    requires |st.s| == 16
    ensures WorkSteps(WorkSteps(st, m), n) == WorkSteps(st, m + n)
  {
    hide WorkStep;
    if n > 0 {
      WorkStepsAdd(st, m, n - 1);
    }
  }

  /** Every work-mode run comes back to exactly the state it started from. */
  lemma PurelyPeriodic(st: State) returns (n: nat)
    requires Valid(st)
    ensures 1 <= n <= STATES && WorkSteps(st, n) == st
    ensures forall m: nat :: WorkSteps(st, m + n) == WorkSteps(st, m)
  {
    hide WorkSteps, Codes;
    var i, j := RepeatExists(st);
    n := j - i;
    WorkStepsValid(st, n);
    WorkStepsAdd(st, n, i);
    WorkStepsInjective(WorkSteps(st, n), st, i);
    forall m: nat ensures WorkSteps(st, m + n) == WorkSteps(st, m) {
      WorkStepsAdd(st, n, m);
      assert n + m == m + n;
    }
  }

  // ----- the output stream -----

  lemma {:induction false} StreamWord(st: State, n: nat, i: nat)
    requires |st.s| == 16 && i < n
    ensures Stream(st, n)[i] == OutputWord(WorkSteps(st, i))
  {
    hide OutputWord, WorkSteps;
    if i < n - 1 {
      StreamWord(st, n - 1, i);
    }
  }

  /** A shorter key stream is a prefix of a longer one. */
  lemma {:induction false} StreamPrefix(st: State, m: nat, n: nat)
    requires |st.s| == 16 && m <= n
    ensures Stream(st, m) == Stream(st, n)[..m]
  {
    hide OutputWord, WorkSteps;
    if m < n {
      StreamPrefix(st, m, n - 1);
    }
  }

  /** The key stream of any key and IV repeats from its first word on. */
  lemma KeystreamPeriodic(k: seq<u8>, iv: seq<u8>) returns (n: nat)
    requires |k| == 16 && |iv| == 16
    ensures n >= 1
    ensures forall m: nat, i: nat :: i + n < m ==> Keystream(k, iv, m)[i + n] == Keystream(k, iv, m)[i]
  {
    hide WorkSteps, InitSteps, LoadKey, Stream, OutputWord, WorkStep;
    var st := WorkStep(Initialized(k, iv));
    InitializedValid(k, iv);
    WorkStepValid(Initialized(k, iv));
    n := PurelyPeriodic(st);
    forall m: nat, i: nat | i + n < m ensures Keystream(k, iv, m)[i + n] == Keystream(k, iv, m)[i] {
      StreamWord(st, m, i + n);
      StreamWord(st, m, i);
    }
  }
}
