/**
 * Replies when CPUs interleave. A handler adds one to the packet counter and then reads the counter again, in
 * two steps; it replies if what it reads is a multiple of the batch size.
 */
module CounterReplies {
  import opened Words
  import opened Packets
  import opened SharedCounters
  import opened CounterHandlers
  import opened CounterRuns

  /** The states that a run goes through, with the events between them. */
  ghost predicate Trace(h: Handler, n: nat, events: seq<Event>, states: seq<State>) {
    && |states| == |events| + 1
    && states[0] == Start(h, n)
    && forall i :: 0 <= i < |events| ==> Moves(h, states[i], events[i], states[i + 1])
  }

  ghost predicate Moves(h: Handler, s: State, e: Event, t: State) {
    |s.mem| == Slots(h) && Enabled(s, e) && t == Apply(h, s, e)
  }

  /** The step is the second read of the counter, and what it reads asks for a reply. */
  predicate Replies(s: State, e: Event) {
    e.Finish? && s.count % BATCH == 0
  }

  function ReplyCount(events: seq<Event>, states: seq<State>): nat
    requires |states| == |events| + 1
  {
    if events == [] then 0
    else
      var last := |events| - 1;
      ReplyCount(events[..last], states[..last + 1]) + if Replies(states[last], events[last]) then 1 else 0
  }

  /** No CPU adds to the counter between another CPU's add and its second read. */
  ghost predicate Undisturbed(events: seq<Event>, states: seq<State>)
    requires |states| == |events| + 1
  {
    forall i :: 0 <= i < |events| && events[i].Count? ==> NoneCounted(states[i].cpus)
  }

  ghost predicate NoneCounted(cpus: seq<Cpu>) {
    forall c :: 0 <= c < |cpus| ==> !cpus[c].Counted?
  }

  function Last(states: seq<State>): State
    requires states != []
  {
    states[|states| - 1]
  }

  // ----- traces and reachable states -----

  lemma TraceFront(h: Handler, n: nat, events: seq<Event>, states: seq<State>)
    requires Trace(h, n, events, states) && events != []
    ensures var last := |events| - 1;
      && Trace(h, n, events[..last], states[..last + 1])
      && Moves(h, states[last], events[last], states[last + 1])
      && Last(states[..last + 1]) == states[last] && Last(states) == states[last + 1]
  {
    hide Moves, Start;
  }

  lemma {:induction false} TraceReached(h: Handler, n: nat, events: seq<Event>, states: seq<State>)
    requires |states| == |events| + 1 && Trace(h, n, events, states)
    ensures Reached(h, n, events, Last(states))
  {
    hide Trace, Apply, Enabled, Start;
    if events == [] {
      TraceStart(h, n, states);
    } else {
      var last := |events| - 1;
      TraceFront(h, n, events, states);
      TraceReached(h, n, events[..last], states[..last + 1]);
    }
  }

  lemma TraceStart(h: Handler, n: nat, states: seq<State>)
    requires Trace(h, n, [], states)
    ensures |states| == 1 && Last(states) == Start(h, n)
  {
  }

  lemma Extend(h: Handler, n: nat, events: seq<Event>, states: seq<State>, e: Event)
    requires Trace(h, n, events, states) && |Last(states).mem| == Slots(h) && Enabled(Last(states), e)
    ensures var t := Apply(h, Last(states), e);
      && Trace(h, n, events + [e], states + [t]) && Last(states + [t]) == t
      && ReplyCount(events + [e], states + [t])
         == ReplyCount(events, states) + if Replies(Last(states), e) then 1 else 0
  {
    hide Apply, Enabled, Start, Slots;
    var t := Apply(h, Last(states), e);
    assert (events + [e])[..|events|] == events && (states + [t])[..|states|] == states;
    forall i | 0 <= i < |events + [e]| ensures Moves(h, (states + [t])[i], (events + [e])[i], (states + [t])[i + 1]) {
      if i < |events| {
        assert Moves(h, states[i], events[i], states[i + 1]);
      }
    }
  }

  lemma {:induction false} ReachedTrace(h: Handler, n: nat, events: seq<Event>, s: State)
    returns (states: seq<State>)
    requires Reached(h, n, events, s)
    ensures |states| == |events| + 1 && Trace(h, n, events, states) && Last(states) == s
    decreases |events|
  {
    hide Trace, Apply, Enabled, Start, Slots, ReplyCount;
    if events == [] {
      states := [s];
      OneState(h, n, s);
    } else {
      var front, e := events[..|events| - 1], events[|events| - 1];
      var r :| Reached(h, n, front, r) && |r.mem| == Slots(h) && Enabled(r, e) && s == Apply(h, r, e);
      states := ReachedTrace(h, n, front, r);
      Extend(h, n, front, states, e);
      assert front + [e] == events;
      states := states + [s];
    }
  }

  lemma OneState(h: Handler, n: nat, s: State)
    requires s == Start(h, n)
    ensures Trace(h, n, [], [s])
  {
  }

  // ----- undisturbed runs -----

  lemma {:induction false} NoneCount(cpus: seq<Cpu>)
    requires NoneCounted(cpus)
    ensures InFlightCount(cpus) == 0
  {
    if cpus != [] {
      NoneCount(cpus[1..]);
    }
  }

  ghost predicate OneAtMost(cpus: seq<Cpu>) {
    forall c, d :: 0 <= c < |cpus| && 0 <= d < |cpus| && cpus[c].Counted? && cpus[d].Counted? ==> c == d
  }

  lemma OnlyOne(h: Handler, cpus: seq<Cpu>, c: nat)
    requires c < |cpus| && cpus[c].Counted? && OneAtMost(cpus)
    ensures InFlightCount(cpus) == 1
  {
    InFlightUpdate(h, cpus, c, Idle, 0);
    NoneCount(cpus[c := Idle]);
  }

  lemma UndisturbedFront(events: seq<Event>, states: seq<State>)
    requires |states| == |events| + 1 && events != [] && Undisturbed(events, states)
    ensures var last := |events| - 1;
      && Undisturbed(events[..last], states[..last + 1])
      && (events[last].Count? ==> NoneCounted(states[last].cpus))
  {
    hide NoneCounted;
    var last := |events| - 1;
    forall i | 0 <= i < last && events[..last][i].Count? ensures NoneCounted(states[..last + 1][i].cpus) {
      assert events[i].Count?;
    }
  }

  lemma MoveKeepsOne(h: Handler, s: State, e: Event)
    requires |s.mem| == Slots(h) && Enabled(s, e) && OneAtMost(s.cpus)
    requires e.Count? ==> NoneCounted(s.cpus)
    ensures OneAtMost(Apply(h, s, e).cpus)
  {
    hide Bump, NextOp, Slots;
  }

  lemma MoveCompletes(h: Handler, s: State, e: Event)
    requires Shaped(h, s) && Enabled(s, e)
    ensures Complete(Apply(h, s, e).done) == Complete(s.done) + if e.Finish? then 1 else 0
  {
    hide Bump, NextOp, Slots, Complete;
    var cpu := s.cpus[e.cpu];
    match e
    case Receive(_, _) =>
    case Loop(_) => FinishedAppend(h, s.done, Job(cpu.p, cpu.i), 0);
    case Count(_) =>
    case Finish(_) => FinishedAppend(h, s.done, Job(cpu.p, DATA_NR), 0);
  }

  /**
   * If no CPU adds to the counter between another's add and its second read, then exactly one reply is sent
   * for every full batch of completed packets, whatever else interleaves.
   */
  lemma {:induction false} UndisturbedReplies(h: Handler, n: nat, events: seq<Event>, states: seq<State>)
    requires |states| == |events| + 1 && Trace(h, n, events, states) && Undisturbed(events, states)
    ensures OneAtMost(Last(states).cpus)
    ensures ReplyCount(events, states) == Complete(Last(states).done) / BATCH
  {
    hide Trace, Undisturbed, OneAtMost, NoneCounted, Apply, Start, Accounted, StopsRightly, Complete, Reached;
    if events == [] {
      TraceStart(h, n, states);
      NoneAtStart(h, n);
    } else {
      var last := |events| - 1;
      var s, e := states[last], events[last];
      TraceFront(h, n, events, states);
      UndisturbedFront(events, states);
      UndisturbedReplies(h, n, events[..last], states[..last + 1]);
      TraceReached(h, n, events[..last], states[..last + 1]);
      AlwaysAccounted(h, n, events[..last], s);
      MoveKeepsOne(h, s, e);
      MoveReplies(h, s, e);
    }
  }

  lemma NoneAtStart(h: Handler, n: nat)
    ensures OneAtMost(Start(h, n).cpus) && Complete(Start(h, n).done) == 0
  {
  }

  lemma MoveReplies(h: Handler, s: State, e: Event)
    requires Accounted(h, s) && Enabled(s, e) && OneAtMost(s.cpus)
    ensures Complete(Apply(h, s, e).done) / BATCH == Complete(s.done) / BATCH + if Replies(s, e) then 1 else 0
  {
    hide Apply, Complete, OneAtMost, Finished, InFlight, InFlightCount, Slots;
    MoveCompletes(h, s, e);
    if e.Finish? {
      OnlyOne(h, s.cpus, e.cpu);
      var k := Complete(s.done);
      WrapKeepsBatches(k + 1);
      NextBatch(k);
    }
  }

  // ----- disturbed runs -----

  lemma SomeCounted(h: Handler, cpus: seq<Cpu>, c: nat)
    requires c < |cpus| && cpus[c].Counted?
    ensures InFlightCount(cpus) >= 1
  {
    InFlightUpdate(h, cpus, c, Idle, 0);
  }

  /** Until the counter has reached a batch there is no reply. */
  lemma {:induction false} NoneBeforeBatch(h: Handler, n: nat, events: seq<Event>, states: seq<State>)
    requires |states| == |events| + 1 && Trace(h, n, events, states)
    requires Complete(Last(states).done) + InFlightCount(Last(states).cpus) < BATCH
    ensures ReplyCount(events, states) == 0
  {
    hide Trace, Apply, Start, Accounted, StopsRightly, Complete, InFlightCount, Reached, Slots;
    if events != [] {
      var last := |events| - 1;
      var s, e := states[last], events[last];
      TraceFront(h, n, events, states);
      TraceReached(h, n, events[..last], states[..last + 1]);
      AlwaysAccounted(h, n, events[..last], s);
      NoReplyYet(h, s, e);
      NoneBeforeBatch(h, n, events[..last], states[..last + 1]);
    }
  }

  lemma NoReplyYet(h: Handler, s: State, e: Event)
    requires Accounted(h, s) && Enabled(s, e)
    requires var t := Apply(h, s, e); Complete(t.done) + InFlightCount(t.cpus) < BATCH
    ensures Complete(s.done) + InFlightCount(s.cpus) < BATCH && !Replies(s, e)
  {
    hide Apply, Complete, Finished, InFlight, InFlightCount, Slots;
    SomeSlot(h);
    StepTotals(h, s, e, 0);
    if e.Finish? {
      SomeCounted(h, s.cpus, e.cpu);
    }
  }

  function Zeros(): Payload {
    seq(DATA_NR, _ => 0)
  }

  lemma {:induction false} ZerosPass(h: Handler, i: nat)
    requires i <= DATA_NR
    ensures Passes(h, Zeros(), i) == DATA_NR
    decreases DATA_NR - i
  {
    if i < DATA_NR {
      ZerosPass(h, i + 1);
    }
  }

  /** Two CPUs, k packets served one after another. */
  lemma {:induction false} ServedTimes(h: Handler, k: nat) returns (events: seq<Event>, s: State)
    ensures Reached(h, 2, events, s) && s.cpus == [Idle, Idle]
    ensures Complete(s.done) == k
  {
    hide Reached, ServedMem, ServedCount, Passes, Complete;
    if k == 0 {
      events, s := [], Start(h, 2);
      StartTwo(h);
    } else {
      var front, r := ServedTimes(h, k - 1);
      var more := ServedIsRun(h, 2, front, r, 0, Zeros());
      var job := Job(Zeros(), Passes(h, Zeros(), 0));
      ZerosPass(h, 0);
      FinishedAppend(h, r.done, job, 0);
      events := front + more;
      s := State(ServedMem(h, r.mem, Zeros()), ServedCount(h, r.count, Zeros()), r.cpus, r.done + [job]);
    }
  }

  lemma StartTwo(h: Handler)
    ensures Reached(h, 2, [], Start(h, 2)) && Start(h, 2).cpus == [Idle, Idle]
    ensures Complete(Start(h, 2).done) == 0
  {
  }

  /** A CPU makes all its passes and stops short of the counter. */
  lemma {:induction false} LoopOn(h: Handler, n: nat, events: seq<Event>, s: State, c: nat, p: Payload, i: nat)
    returns (more: seq<Event>, t: State)
    requires Reached(h, n, events, s) && |s.mem| == Slots(h) && c < |s.cpus|
    requires i <= DATA_NR && s.cpus[c] == Looping(p, i) && Passes(h, p, i) == DATA_NR
    ensures Reached(h, n, events + more, t) && |t.mem| == Slots(h)
    ensures t.cpus == s.cpus[c := Looping(p, DATA_NR)] && t.count == s.count && t.done == s.done
    decreases DATA_NR - i
  {
    hide Reached, NextOp, Slots;
    if i == DATA_NR {
      more, t := [], s;
      assert events + more == events;
    } else {
      var r := Apply(h, s, Loop(c));
      ReachNext(h, n, events, s, Loop(c));
      more, t := LoopOn(h, n, events + [Loop(c)], r, c, p, i + 1);
      assert events + [Loop(c)] + more == events + ([Loop(c)] + more);
      more := [Loop(c)] + more;
    }
  }

  /** CPU c takes a packet and makes all its passes. */
  lemma TakeOn(h: Handler, n: nat, events: seq<Event>, s: State, c: nat)
    returns (more: seq<Event>, t: State)
    requires Reached(h, n, events, s) && |s.mem| == Slots(h) && c < |s.cpus| && s.cpus[c].Idle?
    ensures Reached(h, n, events + more, t) && |t.mem| == Slots(h)
    ensures t.cpus == s.cpus[c := Looping(Zeros(), DATA_NR)] && t.count == s.count && t.done == s.done
  {
    hide Reached, Slots, Passes, Zeros;
    var e := Receive(c, Zeros());
    ReachNext(h, n, events, s, e);
    ZerosPass(h, 0);
    more, t := LoopOn(h, n, events + [e], Apply(h, s, e), c, Zeros(), 0);
    assert events + [e] + more == events + ([e] + more);
    more := [e] + more;
  }

  /** Both CPUs stand before the counter, k packets having been completed. */
  lemma BothReady(h: Handler, k: nat) returns (events: seq<Event>, s: State)
    ensures Reached(h, 2, events, s) && |s.mem| == Slots(h)
    ensures s.cpus == [Looping(Zeros(), DATA_NR), Looping(Zeros(), DATA_NR)]
    ensures Complete(s.done) == k && s.count == k % TWO32
  {
    hide Reached, Slots, Complete, InFlightCount, Finished, InFlight, StopsRightly, Zeros;
    events, s := ServedTimes(h, k);
    AlwaysAccounted(h, 2, events, s);
    AllIdle(h, s.cpus, 0);
    var more: seq<Event>;
    more, s := TakeOn(h, 2, events, s, 0);
    events := events + more;
    more, s := TakeOn(h, 2, events, s, 1);
    events := events + more;
  }

  function FourSteps(): seq<Event> {
    [Count(0), Count(1), Finish(0), Finish(1)]
  }

  /** Both CPUs add to the counter before either reads it again: both read the same number. */
  lemma FourStates(h: Handler, a: State) returns (b: State, c: State, d: State, e: State)
    requires |a.mem| == Slots(h) && a.cpus == [Looping(Zeros(), DATA_NR), Looping(Zeros(), DATA_NR)]
    ensures Enabled(a, Count(0)) && b == Apply(h, a, Count(0))
    ensures |b.mem| == Slots(h) && Enabled(b, Count(1)) && c == Apply(h, b, Count(1))
    ensures |c.mem| == Slots(h) && Enabled(c, Finish(0)) && d == Apply(h, c, Finish(0))
    ensures |d.mem| == Slots(h) && Enabled(d, Finish(1)) && e == Apply(h, d, Finish(1))
    ensures c.count == d.count == ((a.count + 1) % TWO32 + 1) % TWO32
    ensures e.cpus == [Idle, Idle] && Complete(e.done) == Complete(a.done) + 2
  {
    hide Slots, Complete, Zeros, Apply;
    var p := Zeros();
    b := Counting(h, a, 0, p);
    c := Counting(h, b, 1, p);
    d := Finishing(h, c, 0, p);
    e := Finishing(h, d, 1, p);
  }

  lemma Counting(h: Handler, s: State, c: nat, p: Payload) returns (t: State)
    requires |s.mem| == Slots(h) && c < |s.cpus| && s.cpus[c] == Looping(p, DATA_NR)
    ensures t == Apply(h, s, Count(c)) && t.mem == s.mem && t.done == s.done
    ensures t.count == (s.count + 1) % TWO32 && t.cpus == s.cpus[c := Counted(p)]
  {
    hide Slots;
    t := Apply(h, s, Count(c));
  }

  lemma Finishing(h: Handler, s: State, c: nat, p: Payload) returns (t: State)
    requires |s.mem| == Slots(h) && c < |s.cpus| && s.cpus[c] == Counted(p)
    ensures t == Apply(h, s, Finish(c)) && t.mem == s.mem && t.count == s.count
    ensures t.cpus == s.cpus[c := Idle] && Complete(t.done) == Complete(s.done) + 1
  {
    hide Slots, Complete;
    t := Apply(h, s, Finish(c));
    FinishedAppend(h, s.done, Job(p, DATA_NR), 0);
  }

  lemma BothRead(h: Handler, events: seq<Event>, states: seq<State>) returns (ends: seq<State>)
    requires |states| == |events| + 1 && Trace(h, 2, events, states)
    requires |Last(states).mem| == Slots(h)
    requires Last(states).cpus == [Looping(Zeros(), DATA_NR), Looping(Zeros(), DATA_NR)]
    ensures |ends| == |events + FourSteps()| + 1 && Trace(h, 2, events + FourSteps(), ends)
    ensures Complete(Last(ends).done) == Complete(Last(states).done) + 2 && Last(ends).cpus == [Idle, Idle]
    ensures ReplyCount(events + FourSteps(), ends) == ReplyCount(events, states)
         + if ((Last(states).count + 1) % TWO32 + 1) % TWO32 % BATCH == 0 then 2 else 0
  {
    hide Trace, Slots, Complete, ReplyCount, Zeros, Apply, Enabled, Last;
    var b, c, d, e := FourStates(h, Last(states));
    Extend(h, 2, events, states, Count(0));
    Extend(h, 2, events + [Count(0)], states + [b], Count(1));
    Extend(h, 2, events + [Count(0)] + [Count(1)], states + [b] + [c], Finish(0));
    Extend(h, 2, events + [Count(0)] + [Count(1)] + [Finish(0)], states + [b] + [c] + [d], Finish(1));
    ends := states + [b] + [c] + [d] + [e];
    assert events + [Count(0)] + [Count(1)] + [Finish(0)] + [Finish(1)] == events + FourSteps();
  }

  lemma Overlap(h: Handler, k: nat) returns (events: seq<Event>, states: seq<State>)
    requires k < BATCH
    ensures |states| == |events| + 1 && Trace(h, 2, events, states) && Quiescent(Last(states))
    ensures Complete(Last(states).done) == k + 2
    ensures ReplyCount(events, states) == if (k + 2) % BATCH == 0 then 2 else 0
  {
    hide Trace, Reached, Slots, Complete, ReplyCount, Zeros, Apply;
    var front, s := BothReady(h, k);
    var before := ReachedTrace(h, 2, front, s);
    NoneCount(s.cpus);
    NoneBeforeBatch(h, 2, front, before);
    states := BothRead(h, front, before);
    events := front + FourSteps();
  }

  /** A batch that gets two replies: the 1023rd and the 1024th packet overlap. */
  lemma DoubledReply(h: Handler) returns (events: seq<Event>, states: seq<State>)
    ensures |states| == |events| + 1 && Trace(h, 2, events, states) && Quiescent(Last(states))
    ensures Complete(Last(states).done) == BATCH && ReplyCount(events, states) == 2
  {
    events, states := Overlap(h, BATCH - 2);
  }

  /** A batch that gets none: the 1024th and the 1025th packet overlap. */
  lemma LostReply(h: Handler) returns (events: seq<Event>, states: seq<State>)
    ensures |states| == |events| + 1 && Trace(h, 2, events, states) && Quiescent(Last(states))
    ensures Complete(Last(states).done) == BATCH + 1 && ReplyCount(events, states) == 0
  {
    events, states := Overlap(h, BATCH - 1);
  }
}
