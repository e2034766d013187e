/**
 * reduce, histogram and aggregate on many CPUs at once. Each CPU walks through one payload; the atomic adds
 * on the shared map are the points where CPUs interleave.
 */
module SharedCounters {
  import opened Words
  import opened Packets

  datatype Handler = Reduce | Histogram | Aggregate

  const HISTOG_NR: nat := 1024

  /** DATA_NR signed words. */
  type Payload = p: seq<i32> | |p| == DATA_NR witness seq(DATA_NR, _ => 0)

  function Slots(h: Handler): nat {
    match h
    case Reduce => DATA_NR
    case Histogram => HISTOG_NR
    case Aggregate => 1
  }

  /** What one pass through the loop does to the shared map. */
  datatype Op = AddTo(slot: nat, delta: i32) | Skip | Exit

  /** The first i words of the payload, added up without bound. */
  function PayloadSum(p: Payload, i: nat): int
    requires i <= DATA_NR
  {
    if i == 0 then 0 else PayloadSum(p, i - 1) + p[i - 1]
  }

  /**
   * histogram lets 1024 pass its range guard, but the map has no such key and the lookup finds nothing.
   * aggregate adds into a local 32-bit variable and touches the map once, after its last pass.
   */
  function NextOp(h: Handler, p: Payload, i: nat): (op: Op)
    requires i < DATA_NR
    ensures op.AddTo? ==> op.slot < Slots(h)
  {
    match h
    case Reduce => AddTo(i, p[i])
    case Histogram =>
      if p[i] > HISTOG_NR || p[i] < 0 then Exit
      else if p[i] < HISTOG_NR then AddTo(p[i], 1)
      else Skip
    case Aggregate =>
      if i == DATA_NR - 1 then AddTo(0, Signed(PayloadSum(p, DATA_NR) % TWO32)) else Skip
  }

  // ----- the machine -----

  /** Loop index i of a CPU counts the passes made; a Counted CPU has still to re-read the counter. */
  datatype Cpu = Idle | Looping(p: Payload, i: nat) | Counted(p: Payload)

  /** A packet that a CPU is done with, and the number of passes it made over it. */
  datatype Job = Job(p: Payload, i: nat)

  datatype State = State(mem: seq<u32>, count: u32, cpus: seq<Cpu>, done: seq<Job>)

  datatype Event = Receive(cpu: nat, p: Payload) | Loop(cpu: nat) | Count(cpu: nat) | Finish(cpu: nat)

  ghost predicate Shaped(h: Handler, s: State) {
    && |s.mem| == Slots(h)
    && (forall c :: 0 <= c < |s.cpus| ==> s.cpus[c].Looping? ==> s.cpus[c].i <= DATA_NR)
    && (forall j :: 0 <= j < |s.done| ==> s.done[j].i <= DATA_NR)
  }

  predicate Enabled(s: State, e: Event) {
    && e.cpu < |s.cpus|
    && match e
       case Receive(_, _) => s.cpus[e.cpu].Idle?
       case Loop(_) => s.cpus[e.cpu].Looping? && s.cpus[e.cpu].i < DATA_NR
       case Count(_) => s.cpus[e.cpu].Looping? && s.cpus[e.cpu].i == DATA_NR
       case Finish(_) => s.cpus[e.cpu].Counted?
  }

  function Bump(mem: seq<u32>, a: nat, d: int): seq<u32>
    requires a < |mem|
  {
    mem[a := (mem[a] + d) % TWO32]
  }

  function Apply(h: Handler, s: State, e: Event): State
    requires |s.mem| == Slots(h) && Enabled(s, e)
  {
    var cpu := s.cpus[e.cpu];
    match e
    case Receive(c, p) => s.(cpus := s.cpus[c := Looping(p, 0)])
    case Loop(c) =>
      (match NextOp(h, cpu.p, cpu.i)
       case AddTo(a, d) => s.(mem := Bump(s.mem, a, d), cpus := s.cpus[c := Looping(cpu.p, cpu.i + 1)])
       case Skip => s.(cpus := s.cpus[c := Looping(cpu.p, cpu.i + 1)])
       case Exit => s.(cpus := s.cpus[c := Idle], done := s.done + [Job(cpu.p, cpu.i)]))
    case Count(c) => s.(count := (s.count + 1) % TWO32, cpus := s.cpus[c := Counted(cpu.p)])
    case Finish(c) => s.(cpus := s.cpus[c := Idle], done := s.done + [Job(cpu.p, DATA_NR)])
  }

  function Start(h: Handler, n: nat): State {
    State(seq(Slots(h), _ => 0), 0, seq(n, _ => Idle), [])
  }

  /** s is reached on n CPUs by some interleaving of their steps. */
  ghost predicate Reached(h: Handler, n: nat, events: seq<Event>, s: State)
    decreases |events|
  {
    if events == [] then s == Start(h, n)
    else
      var last := events[|events| - 1];
      exists r :: Reached(h, n, events[..|events| - 1], r)
               && |r.mem| == Slots(h) && Enabled(r, last) && s == Apply(h, r, last)
  }

  ghost predicate Quiescent(s: State) {
    forall c :: 0 <= c < |s.cpus| ==> s.cpus[c].Idle?
  }

  // ----- what packets contribute -----

  /** What the first i passes over p add to slot a, as an unbounded sum. */
  function Added(h: Handler, p: Payload, i: nat, a: nat): int
    requires i <= DATA_NR
  {
    if i == 0 then 0
    else
      var op := NextOp(h, p, i - 1);
      Added(h, p, i - 1, a) + if op.AddTo? && op.slot == a then op.delta else 0
  }

  function CpuAdded(h: Handler, cpu: Cpu, a: nat): int {
    match cpu
    case Idle => 0
    case Looping(p, i) => if i <= DATA_NR then Added(h, p, i, a) else 0
    case Counted(p) => Added(h, p, DATA_NR, a)
  }

  function JobAdded(h: Handler, job: Job, a: nat): int {
    if job.i <= DATA_NR then Added(h, job.p, job.i, a) else 0
  }

  function InFlight(h: Handler, cpus: seq<Cpu>, a: nat): int {
    if cpus == [] then 0 else CpuAdded(h, cpus[0], a) + InFlight(h, cpus[1..], a)
  }

  function Finished(h: Handler, done: seq<Job>, a: nat): int {
    if done == [] then 0 else Finished(h, done[..|done| - 1], a) + JobAdded(h, done[|done| - 1], a)
  }

  /** CPUs past the counter but not yet done. */
  function InFlightCount(cpus: seq<Cpu>): nat {
    if cpus == [] then 0 else (if cpus[0].Counted? then 1 else 0) + InFlightCount(cpus[1..])
  }

  /** Packets that were walked to their end. */
  function Complete(done: seq<Job>): nat {
    if done == [] then 0
    else Complete(done[..|done| - 1]) + if done[|done| - 1].i == DATA_NR then 1 else 0
  }

  lemma {:induction false} InFlightUpdate(h: Handler, cpus: seq<Cpu>, c: nat, cpu: Cpu, a: nat)
    requires c < |cpus|
    ensures InFlight(h, cpus[c := cpu], a) == InFlight(h, cpus, a) - CpuAdded(h, cpus[c], a) + CpuAdded(h, cpu, a)
    ensures InFlightCount(cpus[c := cpu])
         == InFlightCount(cpus) - (if cpus[c].Counted? then 1 else 0) + if cpu.Counted? then 1 else 0
  {
    hide CpuAdded;
    if c == 0 {
      assert cpus[c := cpu][1..] == cpus[1..];
    } else {
      assert cpus[c := cpu][1..] == cpus[1..][c - 1 := cpu];
      InFlightUpdate(h, cpus[1..], c - 1, cpu, a);
    }
  }

  lemma FinishedAppend(h: Handler, done: seq<Job>, job: Job, a: nat)
    ensures Finished(h, done + [job], a) == Finished(h, done, a) + JobAdded(h, job, a)
    ensures Complete(done + [job]) == Complete(done) + if job.i == DATA_NR then 1 else 0
  {
    hide JobAdded;
    assert (done + [job])[..|done|] == done;
  }

  // ----- the accounting invariant -----

  /** Every slot holds, modulo 2^32, exactly what finished and unfinished packets have added so far. */
  ghost predicate Accounted(h: Handler, s: State) {
    && Shaped(h, s)
    && (forall a :: 0 <= a < Slots(h) ==> s.mem[a] == (Finished(h, s.done, a) + InFlight(h, s.cpus, a)) % TWO32)
    && s.count == (Complete(s.done) + InFlightCount(s.cpus)) % TWO32
  }

  /** A packet left early was left at its first value outside 0..1024. */
  ghost predicate StopsRightly(h: Handler, s: State) {
    && (forall c :: 0 <= c < |s.cpus| ==> s.cpus[c].Looping? ==> NoExit(h, s.cpus[c].p, s.cpus[c].i))
    && (forall c :: 0 <= c < |s.cpus| ==> s.cpus[c].Counted? ==> NoExit(h, s.cpus[c].p, DATA_NR))
    && (forall j :: 0 <= j < |s.done| ==> Stopped(h, s.done[j]))
  }

  ghost predicate NoExit(h: Handler, p: Payload, i: nat) {
    i <= DATA_NR && forall j :: 0 <= j < i ==> !NextOp(h, p, j).Exit?
  }

  ghost predicate Stopped(h: Handler, job: Job) {
    NoExit(h, job.p, job.i) && (job.i < DATA_NR ==> NextOp(h, job.p, job.i).Exit?)
  }

  lemma {:induction false} AllIdle(h: Handler, cpus: seq<Cpu>, a: nat)
    requires forall c :: 0 <= c < |cpus| ==> cpus[c].Idle?
    ensures InFlight(h, cpus, a) == 0 && InFlightCount(cpus) == 0
  {
    if cpus != [] {
      AllIdle(h, cpus[1..], a);
    }
  }

  lemma StartAccounted(h: Handler, n: nat)
    ensures Accounted(h, Start(h, n)) && StopsRightly(h, Start(h, n))
  {
    var s := Start(h, n);
    AllIdle(h, s.cpus, 0);
    forall a | 0 <= a < Slots(h) ensures s.mem[a] == (Finished(h, s.done, a) + InFlight(h, s.cpus, a)) % TWO32 {
      AllIdle(h, s.cpus, a);
    }
  }

  /** One step changes what slot a should hold by what it adds to slot a. */
  lemma StepTotals(h: Handler, s: State, e: Event, a: nat)
    requires Shaped(h, s) && Enabled(s, e) && a < Slots(h)
    ensures var t := Apply(h, s, e);
      var op := if e.Loop? then NextOp(h, s.cpus[e.cpu].p, s.cpus[e.cpu].i) else Skip;
      && Finished(h, t.done, a) + InFlight(h, t.cpus, a)
         == Finished(h, s.done, a) + InFlight(h, s.cpus, a) + (if op.AddTo? && op.slot == a then op.delta else 0)
      && Complete(t.done) + InFlightCount(t.cpus)
         == Complete(s.done) + InFlightCount(s.cpus) + (if e.Count? then 1 else 0)
      && t.mem[a] == (if op.AddTo? && op.slot == a then (s.mem[a] + op.delta) % TWO32 else s.mem[a])
      && t.count == (if e.Count? then (s.count + 1) % TWO32 else s.count)
  {
    hide NextOp, InFlight, InFlightCount, Finished, Complete;
    var cpu := s.cpus[e.cpu];
    match e
    case Receive(c, p) => InFlightUpdate(h, s.cpus, c, Looping(p, 0), a);
    case Loop(c) =>
      InFlightUpdate(h, s.cpus, c, Looping(cpu.p, cpu.i + 1), a);
      InFlightUpdate(h, s.cpus, c, Idle, a);
      FinishedAppend(h, s.done, Job(cpu.p, cpu.i), a);
    case Count(c) => InFlightUpdate(h, s.cpus, c, Counted(cpu.p), a);
    case Finish(c) =>
      InFlightUpdate(h, s.cpus, c, Idle, a);
      FinishedAppend(h, s.done, Job(cpu.p, DATA_NR), a);
  }

  lemma StepShaped(h: Handler, s: State, e: Event)
    requires Shaped(h, s) && StopsRightly(h, s) && Enabled(s, e)
    ensures Shaped(h, Apply(h, s, e)) && StopsRightly(h, Apply(h, s, e))
  {
  }

  lemma StepAccounted(h: Handler, s: State, e: Event)
    requires Accounted(h, s) && StopsRightly(h, s) && Enabled(s, e)
    ensures Accounted(h, Apply(h, s, e)) && StopsRightly(h, Apply(h, s, e))
  {
    hide NextOp, InFlight, InFlightCount, Finished, Complete, StopsRightly, Slots, Apply;
    var t := Apply(h, s, e);
    StepShaped(h, s, e);
    forall a | 0 <= a < Slots(h)
      ensures t.mem[a] == (Finished(h, t.done, a) + InFlight(h, t.cpus, a)) % TWO32
    {
      StepTotals(h, s, e, a);
      var op := if e.Loop? then NextOp(h, s.cpus[e.cpu].p, s.cpus[e.cpu].i) else Skip;
      if op.AddTo? && op.slot == a {
        ModAdd(Finished(h, s.done, a) + InFlight(h, s.cpus, a), op.delta);
      }
    }
    SomeSlot(h);
    StepTotals(h, s, e, 0);
    ModAdd(Complete(s.done) + InFlightCount(s.cpus), 1);
  }

  lemma SomeSlot(h: Handler)
    ensures Slots(h) > 0
  {
  }

  /** The accounting holds in every state that any interleaving of any number of CPUs reaches. */
  lemma {:induction false} AlwaysAccounted(h: Handler, n: nat, events: seq<Event>, s: State)
    requires Reached(h, n, events, s)
    ensures Accounted(h, s) && StopsRightly(h, s)
    decreases |events|
  {
    hide Accounted, StopsRightly, Apply, Enabled, Start;
    if events == [] {
      StartAccounted(h, n);
    } else {
      var front, last := events[..|events| - 1], events[|events| - 1];
      var r :| Reached(h, n, front, r) && |r.mem| == Slots(h) && Enabled(r, last) && s == Apply(h, r, last);
      AlwaysAccounted(h, n, front, r);
      StepAccounted(h, r, last);
    }
  }

  // ----- one packet at a time -----

  /** How many passes the loop makes over p, from pass i on. */
  function Passes(h: Handler, p: Payload, i: nat): (k: nat)
    requires i <= DATA_NR
    ensures i <= k <= DATA_NR
    decreases DATA_NR - i
  {
    if i == DATA_NR || NextOp(h, p, i).Exit? then i else Passes(h, p, i + 1)
  }

  /** The shared map and the counter after the handler has run on p with no other CPU at work. */
  function ServedMem(h: Handler, mem: seq<u32>, p: Payload): (r: seq<u32>)
    ensures |r| == |mem|
  {
    seq(|mem|, a requires 0 <= a < |mem| => (mem[a] + Added(h, p, Passes(h, p, 0), a)) % TWO32)
  }

  function ServedCount(h: Handler, count: u32, p: Payload): u32 {
    if Passes(h, p, 0) == DATA_NR then (count + 1) % TWO32 else count
  }

  ghost predicate PartlyServed(h: Handler, mem: seq<u32>, p: Payload, i: nat, now: seq<u32>) {
    && i <= DATA_NR && |now| == |mem|
    && forall a :: 0 <= a < |mem| ==> now[a] == (mem[a] + Added(h, p, i, a)) % TWO32
  }

  lemma PartlyServedNext(h: Handler, mem: seq<u32>, p: Payload, i: nat, now: seq<u32>)
    requires i < DATA_NR && PartlyServed(h, mem, p, i, now)
    requires |mem| == Slots(h) && !NextOp(h, p, i).Exit?
    ensures var op := NextOp(h, p, i);
      PartlyServed(h, mem, p, i + 1, if op.AddTo? then Bump(now, op.slot, op.delta) else now)
  {
    hide NextOp, Slots;
    var op := NextOp(h, p, i);
    forall a | 0 <= a < |mem|
      ensures op.AddTo? && op.slot == a ==>
        (now[a] + op.delta) % TWO32 == (mem[a] + Added(h, p, i, a) + op.delta) % TWO32
    {
      if op.AddTo? && op.slot == a {
        ModAdd(mem[a] + Added(h, p, i, a), op.delta);
      }
    }
  }

  lemma FullyServed(h: Handler, mem: seq<u32>, p: Payload, now: seq<u32>)
    requires PartlyServed(h, mem, p, Passes(h, p, 0), now)
    ensures now == ServedMem(h, mem, p)
  {
    hide Added, Passes;
  }

  lemma ReachNext(h: Handler, n: nat, events: seq<Event>, r: State, e: Event)
    requires Reached(h, n, events, r) && |r.mem| == Slots(h) && Enabled(r, e)
    ensures Reached(h, n, events + [e], Apply(h, r, e))
  {
    assert (events + [e])[..|events|] == events;
  }

  /** The state a CPU leaves behind when it is done with p, having started from the map mem. */
  function Left(h: Handler, s: State, c: nat, p: Payload, mem: seq<u32>): State
    requires c < |s.cpus|
  {
    State(ServedMem(h, mem, p), ServedCount(h, s.count, p), s.cpus[c := Idle], s.done + [Job(p, Passes(h, p, 0))])
  }

  lemma CountRuns(h: Handler, n: nat, events: seq<Event>, s: State, c: nat, p: Payload, mem: seq<u32>)
    requires Reached(h, n, events, s) && |s.mem| == Slots(h) && c < |s.cpus|
    requires s.cpus[c] == Looping(p, DATA_NR) && Passes(h, p, 0) == DATA_NR
    requires PartlyServed(h, mem, p, DATA_NR, s.mem)
    ensures Reached(h, n, events + [Count(c), Finish(c)], Left(h, s, c, p, mem))
  {
    hide Reached, Slots, PartlyServed, Passes, ServedMem;
    FullyServed(h, mem, p, s.mem);
    ReachNext(h, n, events, s, Count(c));
    var t := Apply(h, s, Count(c));
    ReachNext(h, n, events + [Count(c)], t, Finish(c));
    assert events + [Count(c)] + [Finish(c)] == events + [Count(c), Finish(c)];
    assert s.cpus[c := Counted(p)][c := Idle] == s.cpus[c := Idle];
  }

  lemma ExitRuns(h: Handler, n: nat, events: seq<Event>, s: State, c: nat, p: Payload, i: nat, mem: seq<u32>)
    requires Reached(h, n, events, s) && |s.mem| == Slots(h) && c < |s.cpus|
    requires i < DATA_NR && s.cpus[c] == Looping(p, i) && Passes(h, p, 0) == i && NextOp(h, p, i).Exit?
    requires PartlyServed(h, mem, p, i, s.mem)
    ensures Reached(h, n, events + [Loop(c)], Left(h, s, c, p, mem))
  {
    hide Reached, NextOp, Slots, PartlyServed, Passes, ServedMem;
    FullyServed(h, mem, p, s.mem);
    ReachNext(h, n, events, s, Loop(c));
  }

  /** Running CPU c alone from pass i finishes the packet. */
  lemma {:induction false} LoopRuns(h: Handler, n: nat, events: seq<Event>, s: State, c: nat,
        p: Payload, i: nat, mem: seq<u32>)
    returns (more: seq<Event>)
    requires Reached(h, n, events, s) && |s.mem| == Slots(h) == |mem| && c < |s.cpus|
    requires i <= DATA_NR && s.cpus[c] == Looping(p, i) && Passes(h, p, i) == Passes(h, p, 0)
    requires PartlyServed(h, mem, p, i, s.mem)
    ensures Reached(h, n, events + more, Left(h, s, c, p, mem))
    decreases DATA_NR - i
  {
    hide Reached, NextOp, Slots, PartlyServed, Left;
    if i == DATA_NR {
      CountRuns(h, n, events, s, c, p, mem);
      more := [Count(c), Finish(c)];
    } else if NextOp(h, p, i).Exit? {
      ExitRuns(h, n, events, s, c, p, i, mem);
      more := [Loop(c)];
    } else {
      var t := Apply(h, s, Loop(c));
      ReachNext(h, n, events, s, Loop(c));
      PartlyServedNext(h, mem, p, i, s.mem);
      var rest := LoopRuns(h, n, events + [Loop(c)], t, c, p, i + 1, mem);
      more := [Loop(c)] + rest;
      assert events + [Loop(c)] + rest == events + more;
      SameLeft(h, s, t, c, p, mem);
    }
  }

  lemma SameLeft(h: Handler, s: State, t: State, c: nat, p: Payload, mem: seq<u32>)
    requires c < |s.cpus| && |t.cpus| == |s.cpus| && t.cpus == s.cpus[c := t.cpus[c]]
    requires t.count == s.count && t.done == s.done
    ensures Left(h, t, c, p, mem) == Left(h, s, c, p, mem)
  {
    assert t.cpus[c := Idle] == s.cpus[c := Idle];
  }

  /** A handler call that no other CPU disturbs is a run of the machine. */
  lemma ServedIsRun(h: Handler, n: nat, events: seq<Event>, s: State, c: nat, p: Payload)
    returns (more: seq<Event>)
    requires Reached(h, n, events, s) && c < |s.cpus| && s.cpus[c].Idle?
    ensures Reached(h, n, events + more,
      State(ServedMem(h, s.mem, p), ServedCount(h, s.count, p), s.cpus, s.done + [Job(p, Passes(h, p, 0))]))
  {
    hide Reached, NextOp, Slots, Passes, ServedMem, ServedCount;
    AlwaysAccounted(h, n, events, s);
    var e := Receive(c, p);
    ReachNext(h, n, events, s, e);
    var t := Apply(h, s, e);
    NothingServed(h, s.mem, p);
    var rest := LoopRuns(h, n, events + [e], t, c, p, 0, s.mem);
    more := [e] + rest;
    assert events + [e] + rest == events + more;
    assert t.cpus[c := Idle] == s.cpus;
  }

  lemma NothingServed(h: Handler, mem: seq<u32>, p: Payload)
    ensures PartlyServed(h, mem, p, 0, mem)
  {
  }
}
