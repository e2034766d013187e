/**
 * Exactly how many replies a run sends, in all and for each batch. What counts is how many CPUs stand between
 * their increment of the counter and their second read of it when the counter reaches a multiple of the batch
 * size, and when it leaves that multiple again.
 */
module ReplyBalance {
  import opened Words
  import opened Packets
  import opened SharedCounters
  import opened CounterHandlers
  import opened CounterRuns
  import opened CounterReplies

  /** The increment takes the counter to a multiple of the batch size. */
  predicate Reaches(s: State, e: Event) {
    e.Count? && (s.count + 1) % BATCH == 0
  }

  /** The increment takes the counter on from a multiple of the batch size. */
  predicate Leaves(s: State, e: Event) {
    e.Count? && s.count % BATCH == 0
  }

  /** CPUs between increment and second read whenever a multiple is reached: each will reply besides the last. */
  function Early(events: seq<Event>, states: seq<State>): nat
    requires |states| == |events| + 1
  {
    if events == [] then 0
    else
      var last := |events| - 1;
      Early(events[..last], states[..last + 1])
      + if Reaches(states[last], events[last]) then InFlightCount(states[last].cpus) else 0
  }

  /** CPUs between increment and second read whenever a multiple is left: each has missed its reply. */
  function Late(events: seq<Event>, states: seq<State>): nat
    requires |states| == |events| + 1
  {
    if events == [] then 0
    else
      var last := |events| - 1;
      Late(events[..last], states[..last + 1])
      + if Leaves(states[last], events[last]) then InFlightCount(states[last].cpus) else 0
  }

  /** How many packets have been added to the counter, without wrap-around. */
  function Increments(s: State): nat {
    Complete(s.done) + InFlightCount(s.cpus)
  }

  /** CPUs whose second read will ask for a reply, if the counter stays as it is. */
  function Pending(s: State): nat {
    if s.count % BATCH == 0 then InFlightCount(s.cpus) else 0
  }

  // ----- one step -----

  lemma MoveInFlight(h: Handler, s: State, e: Event)
    requires Accounted(h, s) && Enabled(s, e)
    ensures var t := Apply(h, s, e);
      && InFlightCount(t.cpus) + (if e.Finish? then 1 else 0) == InFlightCount(s.cpus) + (if e.Count? then 1 else 0)
      && Increments(t) == Increments(s) + (if e.Count? then 1 else 0)
      && t.count == (if e.Count? then (s.count + 1) % TWO32 else s.count)
  {
    hide Apply, Complete, Finished, InFlight, InFlightCount, Slots;
    SomeSlot(h);
    StepTotals(h, s, e, 0);
    MoveCompletes(h, s, e);
  }

  lemma MoveBalance(h: Handler, s: State, e: Event)
    requires Accounted(h, s) && Enabled(s, e)
    ensures var t := Apply(h, s, e);
      (if Replies(s, e) then 1 else 0) + (if Leaves(s, e) then InFlightCount(s.cpus) else 0)
        + Pending(t) - Pending(s)
      == Increments(t) / BATCH - Increments(s) / BATCH + (if Reaches(s, e) then InFlightCount(s.cpus) else 0)
  {
    hide Apply, Complete, Finished, InFlight, InFlightCount, Slots;
    MoveInFlight(h, s, e);
    var k := Complete(s.done) + InFlightCount(s.cpus);
    WrapKeepsBatches(k);
    if e.Count? {
      NextBatch(k);
      WrapKeepsBatches(s.count + 1);
      NextResidue(k, s.count);
    }
  }

  lemma NextResidue(k: nat, c: nat)
    requires k % BATCH == c % BATCH
    ensures (k + 1) % BATCH == (c + 1) % BATCH
    ensures c % BATCH == 0 ==> (c + 1) % BATCH != 0
  {
  }

  // ----- whole runs -----

  /** Replies sent, missed and still pending make up the full batches and the premature replies. */
  lemma {:induction false} Balance(h: Handler, n: nat, events: seq<Event>, states: seq<State>)
    requires |states| == |events| + 1 && Trace(h, n, events, states)
    ensures ReplyCount(events, states) + Late(events, states) + Pending(Last(states))
         == Increments(Last(states)) / BATCH + Early(events, states)
  {
    hide Trace, Apply, Start, Accounted, StopsRightly, Reached, Increments, Pending, Replies, Reaches, Leaves,
      InFlightCount;
    if events == [] {
      TraceStart(h, n, states);
      NothingYet(h, n);
    } else {
      var last := |events| - 1;
      TraceFront(h, n, events, states);
      Balance(h, n, events[..last], states[..last + 1]);
      TraceReached(h, n, events[..last], states[..last + 1]);
      AlwaysAccounted(h, n, events[..last], states[last]);
      MoveBalance(h, states[last], events[last]);
    }
  }

  lemma NothingYet(h: Handler, n: nat)
    ensures Increments(Start(h, n)) == 0 && Pending(Start(h, n)) == 0
  {
    AllIdle(h, Start(h, n).cpus, 0);
  }

  /**
   * Once all CPUs are idle, there was one reply for every full batch exactly when as many CPUs replied
   * prematurely as missed their reply.
   */
  lemma RepliesExact(h: Handler, n: nat, events: seq<Event>, states: seq<State>)
    requires |states| == |events| + 1 && Trace(h, n, events, states) && Quiescent(Last(states))
    ensures ReplyCount(events, states) + Late(events, states)
         == Complete(Last(states).done) / BATCH + Early(events, states)
    ensures ReplyCount(events, states) == Complete(Last(states).done) / BATCH
      <==> Early(events, states) == Late(events, states)
  {
    hide Trace, ReplyCount, Early, Late, Complete, InFlightCount;
    Balance(h, n, events, states);
    AllIdle(h, Last(states).cpus, 0);
  }

  /** No CPU stands between increment and second read when a multiple is reached or left. */
  ghost predicate QuietAtBatches(events: seq<Event>, states: seq<State>)
    requires |states| == |events| + 1
  {
    forall i :: 0 <= i < |events| ==>
      Reaches(states[i], events[i]) || Leaves(states[i], events[i]) ==> NoneCounted(states[i].cpus)
  }

  lemma QuietFront(events: seq<Event>, states: seq<State>)
    requires |states| == |events| + 1 && events != [] && QuietAtBatches(events, states)
    ensures var last := |events| - 1;
      && QuietAtBatches(events[..last], states[..last + 1])
      && (Reaches(states[last], events[last]) || Leaves(states[last], events[last]) ==>
            NoneCounted(states[last].cpus))
  {
    hide NoneCounted, Reaches, Leaves;
  }

  lemma {:induction false} NothingEarlyOrLate(events: seq<Event>, states: seq<State>)
    requires |states| == |events| + 1 && QuietAtBatches(events, states)
    ensures Early(events, states) == 0 && Late(events, states) == 0
  {
    hide QuietAtBatches, NoneCounted, Reaches, Leaves, InFlightCount;
    if events != [] {
      var last := |events| - 1;
      QuietFront(events, states);
      NothingEarlyOrLate(events[..last], states[..last + 1]);
      if NoneCounted(states[last].cpus) {
        NoneCount(states[last].cpus);
      }
    }
  }

  /** Increments between another CPU's increment and second read do no harm elsewhere. */
  lemma QuietReplies(h: Handler, n: nat, events: seq<Event>, states: seq<State>)
    requires |states| == |events| + 1 && Trace(h, n, events, states) && Quiescent(Last(states))
    requires QuietAtBatches(events, states)
    ensures ReplyCount(events, states) == Complete(Last(states).done) / BATCH
  {
    hide Trace, QuietAtBatches, ReplyCount, Early, Late, Complete, Quiescent;
    RepliesExact(h, n, events, states);
    NothingEarlyOrLate(events, states);
  }

  // ----- one batch -----

  /** Replies in steps a to b. */
  function RepliesBetween(events: seq<Event>, states: seq<State>, a: nat, b: nat): nat
    requires |states| == |events| + 1 && a <= b <= |events|
  {
    if a == b then 0
    else RepliesBetween(events, states, a, b - 1) + if Replies(states[b - 1], events[b - 1]) then 1 else 0
  }

  lemma {:induction false} AllReplies(events: seq<Event>, states: seq<State>, a: nat, b: nat, n: nat)
    requires |states| == |events| + 1 && a <= b <= n <= |events|
    ensures RepliesBetween(events[..n], states[..n + 1], a, b) == RepliesBetween(events, states, a, b)
  {
    hide Replies;
    if a < b {
      AllReplies(events, states, a, b - 1, n);
    }
  }

  /** The replies of a run are those of its steps. */
  lemma {:induction false} ReplyCountIs(events: seq<Event>, states: seq<State>)
    requires |states| == |events| + 1
    ensures ReplyCount(events, states) == RepliesBetween(events, states, 0, |events|)
  {
    hide Replies;
    if events != [] {
      var last := |events| - 1;
      ReplyCountIs(events[..last], states[..last + 1]);
      AllReplies(events, states, 0, last, last);
    }
  }

  lemma StateAccounted(h: Handler, n: nat, events: seq<Event>, states: seq<State>, i: nat)
    requires |states| == |events| + 1 && Trace(h, n, events, states) && i < |events|
    ensures Accounted(h, states[i]) && Moves(h, states[i], events[i], states[i + 1])
  {
    hide Moves, Start, Accounted, StopsRightly, Reached;
    assert Trace(h, n, events[..i], states[..i + 1]);
    TraceReached(h, n, events[..i], states[..i + 1]);
    AlwaysAccounted(h, n, events[..i], states[i]);
  }

  /** Step a is an increment, and no other follows before step b. */
  ghost predicate OneIncrement(events: seq<Event>, a: nat, b: nat) {
    a < b <= |events| && events[a].Count? && forall i :: a < i < b ==> !events[i].Count?
  }

  lemma {:induction false} UntilNext(h: Handler, n: nat, events: seq<Event>, states: seq<State>, a: nat, b: nat)
    requires |states| == |events| + 1 && Trace(h, n, events, states) && OneIncrement(events, a, b)
    ensures states[b].count == (states[a].count + 1) % TWO32
    ensures RepliesBetween(events, states, a + 1, b) + InFlightCount(states[b].cpus)
         == (if Reaches(states[a], events[a]) then InFlightCount(states[a].cpus) + 1 else InFlightCount(states[b].cpus))
    decreases b
  {
    hide Trace, Apply, Accounted, InFlightCount, Increments, Enabled;
    StateAccounted(h, n, events, states, b - 1);
    MoveInFlight(h, states[b - 1], events[b - 1]);
    WrapKeepsBatches(states[a].count + 1);
    if a + 1 < b {
      UntilNext(h, n, events, states, a, b - 1);
    }
  }

  /**
   * Every batch: if step a takes the counter to a multiple of the batch size and step b is the next increment,
   * then the CPUs between increment and second read at a, and the one of step a, either reply in between or
   * still stand there at b. The batch gets one reply exactly when as many stand there at b as at a.
   */
  lemma BatchReplies(h: Handler, n: nat, events: seq<Event>, states: seq<State>, a: nat, b: nat)
    requires |states| == |events| + 1 && Trace(h, n, events, states)
    requires OneIncrement(events, a, b) && Reaches(states[a], events[a])
    ensures RepliesBetween(events, states, a + 1, b)
         == InFlightCount(states[a].cpus) + 1 - InFlightCount(states[b].cpus)
    ensures RepliesBetween(events, states, a + 1, b) == 1
      <==> InFlightCount(states[a].cpus) == InFlightCount(states[b].cpus)
  {
    hide Trace, InFlightCount, RepliesBetween;
    UntilNext(h, n, events, states, a, b);
  }

  /** After any other increment no reply is sent until the next one. */
  lemma NoOtherReplies(h: Handler, n: nat, events: seq<Event>, states: seq<State>, a: nat, b: nat)
    requires |states| == |events| + 1 && Trace(h, n, events, states)
    requires OneIncrement(events, a, b) && !Reaches(states[a], events[a])
    ensures RepliesBetween(events, states, a + 1, b) == 0
  {
    hide Trace, InFlightCount, RepliesBetween;
    UntilNext(h, n, events, states, a, b);
  }
}
