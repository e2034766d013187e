/** Every round of the cipher can be run backwards, and what that means for runs. */
module ZucSteps {
  import opened Words
  import opened Mersenne
  import opened Zuc
  import opened ZucF
  import opened ZucLfsr

  ghost predicate Valid(st: State) {
    Reduced(st.s)
  }

  /** The state one round earlier except for cell 0, which F does not read: 1 stands in for it. */
  function Prior(st: State): (p: State)
    requires |st.s| == 16
    ensures |p.s| == 16
  {
    var s := [1] + st.s[..15];
    var b := FBack(X1(s), X2(s), st.r1, st.r2);
    State(s, b.0, b.1)
  }

  /** What the round added to the feedback: half of F's word in initialisation mode, else nothing. */
  function Input(st: State, init: bool): u32
    requires |st.s| == 16
  {
    if init then Shr(FOf(st).w, 1) else 0
  }

  /**
   * The state one round earlier. The fifteen cells that survive the shift determine the registers, W and
   * the taps other than the first, and with them cell 0.
   */
  function Undo(st: State, init: bool): (r: State)
    requires |st.s| == 16
    ensures |r.s| == 16
  {
    var p := Prior(st);
    State([Cell0(st.s[15], OtherTaps(p.s) + Input(p, init))] + st.s[..15], p.r1, p.r2)
  }

  lemma Cell0NotRead(s: seq<u32>, p: seq<u32>)
    requires |s| == 16 && |p| == 16 && s[1..] == p[1..]
    ensures X0(s) == X0(p) && X1(s) == X1(p) && X2(s) == X2(p) && OtherTaps(s) == OtherTaps(p)
  {
    hide And, Or, Shl, Shr;
    assert forall i :: 1 <= i < 16 ==> s[i] == s[1..][i - 1] && p[i] == p[1..][i - 1];
  }

  lemma HalfFits(w: u32)
    ensures Shr(w, 1) <= P
  {
    hide Shr, Shl;
    Shifts(w);
  }

  // ----- one round -----

  lemma WorkStepValid(st: State)
    requires Valid(st)
    ensures Valid(WorkStep(st))
  {
    hide F, Feedback, X0, X1, X2;
    WorkLfsrReduced(st.s);
  }

  lemma InitStepValid(st: State)
    requires Valid(st)
    ensures Valid(InitStep(st))
  {
    hide F, InitLfsr, X0, X1, X2, Shr;
    var w := FOf(st).w;
    HalfFits(w);
    InitLfsrReduced(st.s, Shr(w, 1));
  }

  /** What a round leaves lets Undo rebuild what it started from. */
  lemma UndoRebuilds(st: State, next: State, init: bool)
    requires Valid(st) && |next.s| == 16 && next.s[..15] == st.s[1..]
    requires next.r1 == FOf(st).r1 && next.r2 == FOf(st).r2
    requires next.s[15] == Rep(257 * st.s[0] + OtherTaps(st.s) + Input(st, init))
    ensures Undo(next, init) == st
  {
    hide F, FBack, X0, X1, X2, Shr, OtherTaps, Rep, Cell0;
    var s := [1] + next.s[..15];
    assert s[1..] == st.s[1..];
    Cell0NotRead(st.s, s);
    FUndone(X0(s), X1(s), X2(s), st.r1, st.r2);
    Cell0Undoes(st.s[0], OtherTaps(s) + Input(st, init));
    assert [st.s[0]] + next.s[..15] == st.s;
  }

  lemma WorkStepUndone(st: State)
    requires Valid(st)
    ensures Undo(WorkStep(st), false) == st
  {
    hide F, Feedback, X0, X1, X2, Shr, OtherTaps, Rep, Undo;
    FeedbackIsTapSum(st.s[0], st.s);
    UndoRebuilds(st, WorkStep(st), false);
  }

  lemma InitStepUndone(st: State)
    requires Valid(st)
    ensures Undo(InitStep(st), true) == st
  {
    hide F, Feedback, AddM, X0, X1, X2, Shr, OtherTaps, Rep, Undo;
    var u := Shr(FOf(st).w, 1);
    HalfFits(FOf(st).w);
    InitFeedbackIsTapSum(st.s[0], st.s, u);
    UndoRebuilds(st, InitStep(st), true);
  }

  lemma UndoShape(st: State, init: bool)
    requires Valid(st)
    ensures var q := Undo(st, init);
      && Valid(q) && q.s[1..] == st.s[..15] && FOf(q).r1 == st.r1 && FOf(q).r2 == st.r2
      && st.s[15] == Rep(257 * q.s[0] + OtherTaps(q.s) + Input(q, init))
  {
    hide F, FBack, X0, X1, X2, Shr, OtherTaps, Rep, Cell0;
    var s := [1] + st.s[..15];
    var q := Undo(st, init);
    assert s[1..] == q.s[1..];
    Cell0NotRead(q.s, s);
    FReached(X0(s), X1(s), X2(s), st.r1, st.r2);
    Cell0Reaches(st.s[15], OtherTaps(s) + Input(q, init));
  }

  /** Undo is a two-sided inverse of the work-mode round on valid states. */
  lemma WorkStepReached(st: State)
    requires Valid(st)
    ensures Valid(Undo(st, false)) && WorkStep(Undo(st, false)) == st
  {
    hide F, Feedback, X0, X1, X2, Shr, OtherTaps, Rep, Undo;
    UndoShape(st, false);
    var q := Undo(st, false);
    FeedbackIsTapSum(q.s[0], q.s);
    assert WorkLfsr(q.s) == st.s;
  }

  /** Undo is a two-sided inverse of the initialisation round on valid states. */
  lemma InitStepReached(st: State)
    requires Valid(st)
    ensures Valid(Undo(st, true)) && InitStep(Undo(st, true)) == st
  {
    hide F, Feedback, AddM, X0, X1, X2, Shr, OtherTaps, Rep, Undo;
    UndoShape(st, true);
    var q := Undo(st, true);
    HalfFits(FOf(q).w);
    InitFeedbackIsTapSum(q.s[0], q.s, Shr(FOf(q).w, 1));
    assert InitLfsr(q.s, Shr(FOf(q).w, 1)) == st.s;
  }
}
