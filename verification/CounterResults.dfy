/** What the shared maps of reduce, histogram and aggregate hold after any interleaving of any number of CPUs. */
module CounterResults {
  import opened Words
  import opened Packets
  import opened SharedCounters

  // ----- the schedule does not matter -----

  /** The packets of finished jobs. */
  function Payloads(done: seq<Job>): (ps: seq<Payload>)
    ensures |ps| == |done|
  {
    seq(|done|, j requires 0 <= j < |done| => done[j].p)
  }

  ghost predicate AllStopped(h: Handler, done: seq<Job>) {
    forall j :: 0 <= j < |done| ==> Stopped(h, done[j])
  }

  lemma {:induction false} PassesIs(h: Handler, job: Job, i: nat)
    requires Stopped(h, job) && i <= job.i
    ensures Passes(h, job.p, i) == job.i
    decreases job.i - i
  {
    hide NextOp;
    if i < job.i {
      PassesIs(h, job, i + 1);
    }
  }

  /** A packet determines how far it is walked. */
  lemma SameJob(h: Handler, job: Job, job': Job)
    requires Stopped(h, job) && Stopped(h, job') && job.p == job'.p
    ensures job == job'
  {
    hide Stopped;
    assert job.i >= 0 && job'.i >= 0;
    PassesIs(h, job, 0);
    PassesIs(h, job', 0);
  }

  lemma FinishedInsert(h: Handler, done: seq<Job>, k: nat, a: nat)
    requires k < |done|
    ensures var rest := done[..k] + done[k + 1..];
      && Finished(h, done, a) == Finished(h, rest, a) + JobAdded(h, done[k], a)
      && Complete(done) == Complete(rest) + if done[k].i == DATA_NR then 1 else 0
    decreases |done|
  {
    hide JobAdded;
    var last := |done| - 1;
    if k < last {
      FinishedInsert(h, done[..last], k, a);
      RestFront(done, k);
    } else {
      assert done[..k] + done[k + 1..] == done[..k];
    }
  }

  lemma RestFront(done: seq<Job>, k: nat)
    requires k < |done| - 1
    ensures var last, rest := |done| - 1, done[..k] + done[k + 1..];
      && rest[..|rest| - 1] == done[..last][..k] + done[..last][k + 1..]
      && rest != [] && rest[|rest| - 1] == done[last] && done[..last][k] == done[k]
  {
  }

  /** Taking out entry k takes one occurrence of its packet out of the multiset. */
  lemma Without(w: seq<Job>, k: nat)
    requires k < |w|
    ensures multiset(Payloads(w[..k] + w[k + 1..])) == multiset(Payloads(w)) - multiset{w[k].p}
  {
    var ps := Payloads(w);
    assert Payloads(w[..k] + w[k + 1..]) == ps[..k] + ps[k + 1..];
    assert ps == ps[..k] + [ps[k]] + ps[k + 1..];
  }

  lemma Position(w: seq<Job>, p: Payload) returns (k: nat)
    requires p in multiset(Payloads(w))
    ensures k < |w| && w[k].p == p
  {
    k :| k < |w| && Payloads(w)[k] == p;
  }

  lemma StoppedWithout(h: Handler, w: seq<Job>, k: nat)
    requires k < |w| && AllStopped(h, w)
    ensures AllStopped(h, w[..k] + w[k + 1..])
  {
    hide Stopped;
  }

  lemma {:induction false} FinishedOrder(h: Handler, v: seq<Job>, w: seq<Job>, a: nat)
    requires multiset(Payloads(v)) == multiset(Payloads(w)) && AllStopped(h, v) && AllStopped(h, w)
    ensures Finished(h, v, a) == Finished(h, w, a) && Complete(v) == Complete(w)
    decreases |v|
  {
    hide Finished, Complete, Payloads, JobAdded, AllStopped, Stopped;
    assert |v| == |multiset(Payloads(v))| && |w| == |multiset(Payloads(w))|;
    if v == [] {
      assert w == [];
    } else {
      PickFirst(v);
      var k := Position(w, v[0].p);
      StoppedAt(h, v, 0);
      StoppedAt(h, w, k);
      SameJob(h, v[0], w[k]);
      Without(v, 0);
      Without(w, k);
      StoppedWithout(h, v, 0);
      StoppedWithout(h, w, k);
      FinishedOrder(h, v[..0] + v[1..], w[..k] + w[k + 1..], a);
      FinishedInsert(h, v, 0, a);
      FinishedInsert(h, w, k, a);
    }
  }

  lemma PickFirst(v: seq<Job>)
    requires v != []
    ensures v[0].p in multiset(Payloads(v))
  {
    assert Payloads(v)[0] == v[0].p;
  }

  lemma StoppedAt(h: Handler, w: seq<Job>, k: nat)
    requires k < |w| && AllStopped(h, w)
    ensures Stopped(h, w[k])
  {
  }

  /**
   * At quiescence the shared map and the counter depend only on which packets were processed: not on the
   * number of CPUs, not on which CPU took which packet, not on how the adds interleaved.
   */
  lemma ScheduleIndependent(h: Handler, m: nat, es: seq<Event>, s: State, n: nat, fs: seq<Event>, t: State)
    requires Reached(h, m, es, s) && Quiescent(s)
    requires Reached(h, n, fs, t) && Quiescent(t)
    requires multiset(Payloads(s.done)) == multiset(Payloads(t.done))
    ensures s.mem == t.mem && s.count == t.count
  {
    hide Reached, Finished, InFlight, Complete, InFlightCount, Stopped, Payloads, Slots;
    AlwaysAccounted(h, m, es, s);
    AlwaysAccounted(h, n, fs, t);
    AllIdle(h, s.cpus, 0);
    AllIdle(h, t.cpus, 0);
    FinishedOrder(h, s.done, t.done, 0);
    forall a | 0 <= a < Slots(h) ensures s.mem[a] == t.mem[a] {
      AllIdle(h, s.cpus, a);
      AllIdle(h, t.cpus, a);
      FinishedOrder(h, s.done, t.done, a);
    }
  }

  // ----- reduce -----

  lemma {:induction false} ReduceAdded(p: Payload, i: nat, a: nat)
    requires i <= DATA_NR && a < DATA_NR
    ensures Added(Reduce, p, i, a) == if a < i then p[a] else 0
  {
    if i > 0 {
      ReduceAdded(p, i - 1, a);
    }
  }

  /** What the payloads of the finished packets add up to in column a. */
  function ColumnSum(done: seq<Job>, a: nat): int
    requires a < DATA_NR
  {
    if done == [] then 0 else ColumnSum(done[..|done| - 1], a) + done[|done| - 1].p[a]
  }

  /** What packets still in a loop have added to slot a: payload[a] once the loop has passed a. */
  function PartialColumn(cpus: seq<Cpu>, a: nat): int
    requires a < DATA_NR
  {
    if cpus == [] then 0
    else
      (match cpus[0]
       case Idle => 0
       case Looping(p, i) => if a < i then p[a] else 0
       case Counted(p) => p[a]) + PartialColumn(cpus[1..], a)
  }

  lemma {:induction false} ReduceFinished(done: seq<Job>, a: nat)
    requires a < DATA_NR && forall j :: 0 <= j < |done| ==> Stopped(Reduce, done[j])
    ensures Finished(Reduce, done, a) == ColumnSum(done, a) && Complete(done) == |done|
  {
    if done != [] {
      ReduceFinished(done[..|done| - 1], a);
      ReduceAdded(done[|done| - 1].p, DATA_NR, a);
    }
  }

  lemma {:induction false} ReduceInFlight(cpus: seq<Cpu>, a: nat)
    requires a < DATA_NR
    requires forall c :: 0 <= c < |cpus| ==> cpus[c].Looping? ==> cpus[c].i <= DATA_NR
    ensures InFlight(Reduce, cpus, a) == PartialColumn(cpus, a)
  {
    if cpus != [] {
      ReduceInFlight(cpus[1..], a);
      match cpus[0]
      case Idle =>
      case Looping(p, i) => ReduceAdded(p, i, a);
      case Counted(p) => ReduceAdded(p, DATA_NR, a);
    }
  }

  /** In every reachable state slot a is the column sum of finished packets plus what loops past a added. */
  lemma ReduceSlots(n: nat, events: seq<Event>, s: State, a: nat)
    requires Reached(Reduce, n, events, s) && a < DATA_NR
    ensures |s.mem| == DATA_NR
    ensures s.mem[a] == (ColumnSum(s.done, a) + PartialColumn(s.cpus, a)) % TWO32
    ensures s.count == (|s.done| + InFlightCount(s.cpus)) % TWO32
  {
    hide Reached, Finished, InFlight, ColumnSum, PartialColumn, Complete, InFlightCount, Stopped;
    AlwaysAccounted(Reduce, n, events, s);
    ReduceFinished(s.done, a);
    ReduceInFlight(s.cpus, a);
  }

  /** At quiescence slot a is the column sum of the packets, and the counter is their number. */
  lemma ReduceTotal(n: nat, events: seq<Event>, s: State, a: nat)
    requires Reached(Reduce, n, events, s) && Quiescent(s) && a < DATA_NR
    ensures |s.mem| == DATA_NR && s.mem[a] == ColumnSum(s.done, a) % TWO32
    ensures s.count == |s.done| % TWO32
  {
    hide Reached, ColumnSum, PartialColumn, InFlightCount;
    ReduceSlots(n, events, s, a);
    AllIdle(Reduce, s.cpus, a);
    NothingPartial(s.cpus, a);
  }

  lemma {:induction false} NothingPartial(cpus: seq<Cpu>, a: nat)
    requires a < DATA_NR && forall c :: 0 <= c < |cpus| ==> cpus[c].Idle?
    ensures PartialColumn(cpus, a) == 0
  {
    if cpus != [] {
      NothingPartial(cpus[1..], a);
    }
  }

  // ----- histogram -----

  /** How often b occurs among the first i values. */
  function Occurrences(p: Payload, i: nat, b: nat): nat
    requires i <= DATA_NR
  {
    if i == 0 then 0 else Occurrences(p, i - 1, b) + if p[i - 1] == b then 1 else 0
  }

  lemma {:induction false} HistogramAdded(p: Payload, i: nat, b: nat)
    requires i <= DATA_NR && b < HISTOG_NR
    ensures Added(Histogram, p, i, b) == Occurrences(p, i, b)
  {
    if i > 0 {
      HistogramAdded(p, i - 1, b);
    }
  }

  function FinishedOccurrences(done: seq<Job>, b: nat): nat {
    if done == [] then 0
    else
      var job := done[|done| - 1];
      FinishedOccurrences(done[..|done| - 1], b) + if job.i <= DATA_NR then Occurrences(job.p, job.i, b) else 0
  }

  function CurrentOccurrences(cpus: seq<Cpu>, b: nat): nat {
    if cpus == [] then 0
    else
      (match cpus[0]
       case Idle => 0
       case Looping(p, i) => if i <= DATA_NR then Occurrences(p, i, b) else 0
       case Counted(p) => Occurrences(p, DATA_NR, b)) + CurrentOccurrences(cpus[1..], b)
  }

  lemma {:induction false} HistogramFinished(done: seq<Job>, b: nat)
    requires b < HISTOG_NR
    ensures Finished(Histogram, done, b) == FinishedOccurrences(done, b)
  {
    if done != [] {
      HistogramFinished(done[..|done| - 1], b);
      var job := done[|done| - 1];
      if job.i <= DATA_NR {
        HistogramAdded(job.p, job.i, b);
      }
    }
  }

  lemma {:induction false} HistogramInFlight(cpus: seq<Cpu>, b: nat)
    requires b < HISTOG_NR
    ensures InFlight(Histogram, cpus, b) == CurrentOccurrences(cpus, b)
  {
    if cpus != [] {
      HistogramInFlight(cpus[1..], b);
      match cpus[0]
      case Idle =>
      case Looping(p, i) => if i <= DATA_NR { HistogramAdded(p, i, b); }
      case Counted(p) => HistogramAdded(p, DATA_NR, b);
    }
  }

  ghost predicate InGuard(v: i32) {
    0 <= v <= 1024
  }

  /** Every value this CPU has walked over is in the guard. */
  ghost predicate Guarded(cpu: Cpu) {
    match cpu
    case Idle => true
    case Looping(p, i) => i <= DATA_NR && forall k :: 0 <= k < i ==> InGuard(p[k])
    case Counted(p) => forall k :: 0 <= k < DATA_NR ==> InGuard(p[k])
  }

  lemma NoExitGuarded(p: Payload, i: nat)
    requires NoExit(Histogram, p, i)
    ensures i <= DATA_NR && forall k :: 0 <= k < i ==> InGuard(p[k])
  {
    forall k | 0 <= k < i ensures InGuard(p[k]) {
      assert !NextOp(Histogram, p, k).Exit?;
    }
  }

  /**
   * In every reachable state bin b counts, modulo 2^32, the occurrences of b in the part of each packet that
   * was walked. No value walked was outside 0..1024, and a finished packet was walked to its end or to its
   * first value outside.
   */
  lemma HistogramBins(n: nat, events: seq<Event>, s: State, b: nat)
    requires Reached(Histogram, n, events, s) && b < HISTOG_NR
    ensures |s.mem| == 1024
    ensures s.mem[b] == (FinishedOccurrences(s.done, b) + CurrentOccurrences(s.cpus, b)) % TWO32
    ensures forall j :: 0 <= j < |s.done| ==>
      && s.done[j].i <= DATA_NR
      && (forall k :: 0 <= k < s.done[j].i ==> InGuard(s.done[j].p[k]))
      && (s.done[j].i < DATA_NR ==> !InGuard(s.done[j].p[s.done[j].i]))
    ensures forall c :: 0 <= c < |s.cpus| ==> Guarded(s.cpus[c])
  {
    hide Reached, Finished, InFlight, FinishedOccurrences, CurrentOccurrences, Complete, InFlightCount;
    AlwaysAccounted(Histogram, n, events, s);
    HistogramFinished(s.done, b);
    HistogramInFlight(s.cpus, b);
    forall j | 0 <= j < |s.done|
      ensures s.done[j].i <= DATA_NR
      ensures forall k :: 0 <= k < s.done[j].i ==> InGuard(s.done[j].p[k])
      ensures s.done[j].i < DATA_NR ==> !InGuard(s.done[j].p[s.done[j].i])
    {
      var job := s.done[j];
      assert Stopped(Histogram, job);
      NoExitGuarded(job.p, job.i);
    }
    forall c | 0 <= c < |s.cpus| ensures Guarded(s.cpus[c]) {
      match s.cpus[c]
      case Idle =>
      case Looping(p, i) => NoExitGuarded(p, i);
      case Counted(p) => NoExitGuarded(p, DATA_NR);
    }
  }

  function Total(mem: seq<u32>): nat {
    if mem == [] then 0 else Total(mem[..|mem| - 1]) + mem[|mem| - 1]
  }

  /** Occurrences of all values below b. */
  function Below(p: Payload, i: nat, b: nat): nat
    requires i <= DATA_NR
  {
    if b == 0 then 0 else Below(p, i, b - 1) + Occurrences(p, i, b - 1)
  }

  lemma {:induction false} BelowNext(p: Payload, i: nat, b: nat)
    requires 0 < i <= DATA_NR
    ensures Below(p, i, b) == Below(p, i - 1, b) + if 0 <= p[i - 1] < b then 1 else 0
  {
    if b > 0 {
      BelowNext(p, i, b - 1);
    }
  }

  lemma {:induction false} BelowNone(p: Payload, b: nat)
    ensures Below(p, 0, b) == 0
  {
    if b > 0 {
      BelowNone(p, b - 1);
    }
  }

  /** How many of the first i values have a bin. */
  function InBins(p: Payload, i: nat): (n: nat)
    requires i <= DATA_NR
    ensures n <= i
  {
    if i == 0 then 0 else InBins(p, i - 1) + if 0 <= p[i - 1] < HISTOG_NR then 1 else 0
  }

  lemma {:induction false} BelowIsInBins(p: Payload, i: nat)
    requires i <= DATA_NR
    ensures Below(p, i, HISTOG_NR) == InBins(p, i)
  {
    hide Below;
    if i == 0 {
      BelowNone(p, HISTOG_NR);
    } else {
      BelowIsInBins(p, i - 1);
      BelowNext(p, i, HISTOG_NR);
    }
  }

  ghost predicate InRange(p: Payload, i: nat) {
    i <= DATA_NR && forall k :: 0 <= k < i ==> 0 <= p[k] < HISTOG_NR
  }

  lemma {:induction false} InBinsAll(p: Payload, i: nat)
    requires i <= DATA_NR
    ensures InBins(p, i) == i <==> InRange(p, i)
  {
    if i > 0 {
      InBinsAll(p, i - 1);
    }
  }

  lemma {:induction false} NoExitInRange(p: Payload, i: nat)
    requires i <= DATA_NR && InRange(p, DATA_NR)
    ensures Passes(Histogram, p, i) == DATA_NR
    decreases DATA_NR - i
  {
    if i < DATA_NR {
      NoExitInRange(p, i + 1);
    }
  }

  /** A packet puts all its 256 values into bins exactly when each of them is below 1024 and not negative. */
  lemma PacketInBins(p: Payload)
    ensures InBins(p, Passes(Histogram, p, 0)) == 256 <==> forall k :: 0 <= k < 256 ==> 0 <= p[k] < 1024
  {
    hide Passes, InBins;
    InBinsAll(p, DATA_NR);
    if InRange(p, DATA_NR) {
      NoExitInRange(p, 0);
    }
  }

  /** Occurrences of all values below b in all finished packets. */
  function AllBelow(done: seq<Job>, b: nat): nat {
    if b == 0 then 0 else AllBelow(done, b - 1) + FinishedOccurrences(done, b - 1)
  }

  lemma {:induction false} AllBelowNext(done: seq<Job>, b: nat)
    requires done != [] && done[|done| - 1].i <= DATA_NR
    ensures AllBelow(done, b)
         == AllBelow(done[..|done| - 1], b) + Below(done[|done| - 1].p, done[|done| - 1].i, b)
  {
    hide Occurrences;
    if b > 0 {
      AllBelowNext(done, b - 1);
    }
  }

  lemma {:induction false} AllBelowNone(b: nat)
    ensures AllBelow([], b) == 0
  {
    if b > 0 {
      AllBelowNone(b - 1);
    }
  }

  /** How many values with a bin the finished packets were walked over. */
  function Walked(done: seq<Job>): nat {
    if done == [] then 0
    else
      var job := done[|done| - 1];
      Walked(done[..|done| - 1]) + if job.i <= DATA_NR then InBins(job.p, job.i) else 0
  }

  lemma {:induction false} AllBelowIsWalked(done: seq<Job>)
    requires forall j :: 0 <= j < |done| ==> done[j].i <= DATA_NR
    ensures AllBelow(done, HISTOG_NR) == Walked(done)
  {
    hide AllBelow, Below, InBins;
    if done == [] {
      AllBelowNone(HISTOG_NR);
    } else {
      AllBelowIsWalked(done[..|done| - 1]);
      AllBelowNext(done, HISTOG_NR);
      BelowIsInBins(done[|done| - 1].p, done[|done| - 1].i);
    }
  }

  lemma {:induction false} TotalMod(mem: seq<u32>, done: seq<Job>)
    requires forall b :: 0 <= b < |mem| ==> mem[b] == FinishedOccurrences(done, b) % TWO32
    ensures Total(mem) % TWO32 == AllBelow(done, |mem|) % TWO32
  {
    hide FinishedOccurrences;
    if mem != [] {
      var b := |mem| - 1;
      TotalMod(mem[..b], done);
      SumMod(Total(mem[..b]), AllBelow(done, b), FinishedOccurrences(done, b));
    }
  }

  lemma SumMod(t: nat, x: nat, y: nat)
    requires t % TWO32 == x % TWO32
    ensures (t + y % TWO32) % TWO32 == (x + y) % TWO32
  {
    ModAdd(t, y % TWO32);
    ModAdd(x, y % TWO32);
    ModAdd(y, x);
  }

  /** At quiescence the bins add up, modulo 2^32, to the number of values with a bin that were walked over. */
  lemma HistogramWalked(n: nat, events: seq<Event>, s: State)
    requires Reached(Histogram, n, events, s) && Quiescent(s)
    ensures Total(s.mem) % TWO32 == Walked(s.done) % TWO32
    ensures s.count == Complete(s.done) % TWO32
  {
    hide Reached, Finished, InFlight, FinishedOccurrences, CurrentOccurrences, Complete, InFlightCount, AllBelow,
      Walked, Guarded, InGuard;
    AlwaysAccounted(Histogram, n, events, s);
    HistogramBins(n, events, s, 0);
    AllIdle(Histogram, s.cpus, 0);
    forall b | 0 <= b < HISTOG_NR ensures s.mem[b] == FinishedOccurrences(s.done, b) % TWO32 {
      AllIdle(Histogram, s.cpus, b);
      HistogramInFlight(s.cpus, b);
      HistogramFinished(s.done, b);
    }
    TotalMod(s.mem, s.done);
    AllBelowIsWalked(s.done);
  }

  /** Values without a bin in packets that were walked to their end: each of them is 1024. */
  function Skipped(done: seq<Job>): nat {
    if done == [] then 0
    else
      var job := done[|done| - 1];
      Skipped(done[..|done| - 1]) + if job.i == DATA_NR then DATA_NR - InBins(job.p, DATA_NR) else 0
  }

  /** Values with a bin that were counted before their packet was left early. */
  function Stray(done: seq<Job>): nat {
    if done == [] then 0
    else
      var job := done[|done| - 1];
      Stray(done[..|done| - 1]) + if job.i < DATA_NR then InBins(job.p, job.i) else 0
  }

  lemma {:induction false} WalkedBalance(done: seq<Job>)
    requires forall j :: 0 <= j < |done| ==> done[j].i <= DATA_NR
    ensures Walked(done) + Skipped(done) == DATA_NR * Complete(done) + Stray(done)
  {
    hide InBins;
    if done != [] {
      WalkedBalance(done[..|done| - 1]);
    }
  }

  /**
   * At quiescence the bins add up to 256 times the packet counter, modulo 2^32, exactly when as many values
   * were counted for packets left early as values of 1024 were skipped in the others.
   */
  lemma HistogramExact(n: nat, events: seq<Event>, s: State)
    requires Reached(Histogram, n, events, s) && Quiescent(s)
    ensures Total(s.mem) % TWO32 == DATA_NR * s.count % TWO32
      <==> Stray(s.done) % TWO32 == Skipped(s.done) % TWO32
  {
    hide Reached, Complete, Walked, Skipped, Stray, Guarded, InGuard, FinishedOccurrences, CurrentOccurrences;
    HistogramWalked(n, events, s);
    HistogramBins(n, events, s, 0);
    WalkedBalance(s.done);
    TimesMod(Complete(s.done));
    BalanceMod(Walked(s.done), Skipped(s.done), DATA_NR * Complete(s.done), Stray(s.done));
  }

  lemma BalanceMod(w: nat, k: nat, c: nat, t: nat)
    requires w + k == c + t
    ensures w % TWO32 == c % TWO32 <==> t % TWO32 == k % TWO32
  {
    ModDiffers(w, c);
    ModDiffers(t, k);
  }

  lemma ModDiffers(x: int, y: int)
    ensures x % TWO32 == y % TWO32 <==> (x - y) % TWO32 == 0
  {
    if x % TWO32 == y % TWO32 {
      var q := x / TWO32 - y / TWO32;
      assert x - y == q * TWO32;
      ModShift(x - y, q);
    }
    if (x - y) % TWO32 == 0 {
      var q := (x - y) / TWO32;
      assert x - q * TWO32 == y;
      ModShift(x, q);
    }
  }

  lemma {:induction false} NothingAmiss(done: seq<Job>)
    requires AllStopped(Histogram, done)
    requires forall j :: 0 <= j < |done| ==> InRange(done[j].p, DATA_NR) || done[j].i == 0
    ensures Skipped(done) == 0 && Stray(done) == 0
  {
    hide InRange, Stopped, InBins;
    if done != [] {
      NothingAmiss(done[..|done| - 1]);
      JobFits(done[|done| - 1]);
    }
  }

  lemma JobFits(job: Job)
    requires Stopped(Histogram, job) && (InRange(job.p, DATA_NR) || job.i == 0)
    ensures job.i == DATA_NR ==> InBins(job.p, DATA_NR) == DATA_NR
    ensures job.i < DATA_NR ==> InBins(job.p, job.i) == 0
  {
    hide NextOp, InRange, InBins;
    PassesIs(Histogram, job, 0);
    if InRange(job.p, DATA_NR) {
      NoExitInRange(job.p, 0);
      InBinsAll(job.p, DATA_NR);
    } else {
      NoBins(job.p);
    }
  }

  lemma NoBins(p: Payload)
    ensures InBins(p, 0) == 0
  {
  }

  /** In particular if every packet was in range, or was left at its very first value. */
  lemma HistogramTotal(n: nat, events: seq<Event>, s: State)
    requires Reached(Histogram, n, events, s) && Quiescent(s)
    requires forall j :: 0 <= j < |s.done| ==> InRange(s.done[j].p, DATA_NR) || s.done[j].i == 0
    ensures Total(s.mem) % TWO32 == DATA_NR * s.count % TWO32
  {
    hide Reached, InRange, Stopped, Skipped, Stray;
    HistogramExact(n, events, s);
    AlwaysAccounted(Histogram, n, events, s);
    NothingAmiss(s.done);
  }

  /** A run of one CPU over one packet. */
  lemma OnePacket(p: Payload) returns (events: seq<Event>, s: State)
    ensures Reached(Histogram, 1, events, s) && Quiescent(s)
    ensures s.done == [Job(p, Passes(Histogram, p, 0))]
    ensures Total(s.mem) % TWO32 == InBins(p, Passes(Histogram, p, 0))
    ensures s.count == if Passes(Histogram, p, 0) == DATA_NR then 1 else 0
  {
    hide Reached, Passes, InBins, Total, ServedMem, Walked, Complete, Slots;
    var start, k := Start(Histogram, 1), Passes(Histogram, p, 0);
    StartReached(Histogram, 1);
    events := ServedIsRun(Histogram, 1, [], start, 0, p);
    assert [] + events == events;
    s := State(ServedMem(Histogram, start.mem, p), ServedCount(Histogram, 0, p), start.cpus, [Job(p, k)]);
    assert start.done + [Job(p, k)] == [Job(p, k)];
    HistogramWalked(1, events, s);
    WalkedOne(Job(p, k));
  }

  lemma StartReached(h: Handler, n: nat)
    ensures Reached(h, n, [], Start(h, n))
  {
  }

  lemma WalkedOne(job: Job)
    requires job.i <= DATA_NR
    ensures Walked([job]) == InBins(job.p, job.i)
  {
    hide InBins;
    assert Walked([]) == 0;
    assert [job][..0] == [];
  }

  /** 1024 first, then zeros. */
  function WithoutBin(): Payload {
    seq(DATA_NR, k => if k == 0 then HISTOG_NR else 0)
  }

  /** One packet that holds 1024: it is counted, and the bins add up to 255. */
  lemma HistogramShort() returns (events: seq<Event>, s: State)
    ensures Reached(Histogram, 1, events, s) && Quiescent(s)
    ensures s.done == [Job(WithoutBin(), DATA_NR)]
    ensures s.count == 1 && Total(s.mem) % TWO32 == DATA_NR - 1
  {
    hide Reached, Total;
    var p := WithoutBin();
    events, s := OnePacket(p);
    WalkedOn(0);
    ZerosInBins(DATA_NR);
  }

  lemma {:induction false} WalkedOn(i: nat)
    requires i <= DATA_NR
    ensures Passes(Histogram, WithoutBin(), i) == DATA_NR
    decreases DATA_NR - i
  {
    if i < DATA_NR {
      WalkedOn(i + 1);
    }
  }

  lemma {:induction false} ZerosInBins(i: nat)
    requires 0 < i <= DATA_NR
    ensures InBins(WithoutBin(), i) == i - 1
  {
    if i > 1 {
      ZerosInBins(i - 1);
    } else {
      NoBins(WithoutBin());
    }
  }

  /** Zero first, then negative values. */
  function LeftEarly(): Payload {
    seq(DATA_NR, k => if k == 0 then 0 else -1)
  }

  /** One packet left at its second value: it is not counted, but its first value stays in its bin. */
  lemma HistogramStray() returns (events: seq<Event>, s: State)
    ensures Reached(Histogram, 1, events, s) && Quiescent(s)
    ensures s.done == [Job(LeftEarly(), 1)]
    ensures s.count == 0 && Total(s.mem) % TWO32 == 1
  {
    hide Reached, Total;
    var p := LeftEarly();
    events, s := OnePacket(p);
    assert NextOp(Histogram, p, 1).Exit?;
    assert Passes(Histogram, p, 1) == 1;
    assert Passes(Histogram, p, 0) == 1;
    NoBins(p);
    assert InBins(p, 1) == 1;
  }

  lemma TimesMod(k: nat)
    ensures DATA_NR * (k % TWO32) % TWO32 == DATA_NR * k % TWO32
  {
    var q := k / TWO32;
    assert DATA_NR * (k % TWO32) == DATA_NR * k - (DATA_NR * q) * TWO32;
    ModShift(DATA_NR * k, DATA_NR * q);
  }

  // ----- aggregate -----

  lemma {:induction false} AggregateAdded(p: Payload, i: nat)
    requires i <= DATA_NR
    ensures Added(Aggregate, p, i, 0) == if i == DATA_NR then Signed(PayloadSum(p, DATA_NR) % TWO32) else 0
  {
    hide PayloadSum;
    if i > 0 {
      AggregateAdded(p, i - 1);
    }
  }

  /** The sum depends on each word once: changing word k from p[k] to v changes it by v less p[k]. */
  lemma {:induction false} PayloadSumUpdate(p: Payload, q: Payload, k: nat, i: nat)
    requires k < DATA_NR && q == p[k := q[k]] && i <= DATA_NR
    ensures PayloadSum(q, i) == PayloadSum(p, i) + if k < i then q[k] as int - p[k] as int else 0
  {
    if i > 0 {
      PayloadSumUpdate(p, q, k, i - 1);
    }
  }

  lemma {:induction false} PayloadSumZero(p: Payload, i: nat)
    requires i <= DATA_NR && forall k :: 0 <= k < DATA_NR ==> p[k] == 0
    ensures PayloadSum(p, i) == 0
  {
    if i > 0 {
      PayloadSumZero(p, i - 1);
    }
  }

  /** Every word of every finished packet. */
  function GrandSum(done: seq<Job>): int {
    if done == [] then 0 else GrandSum(done[..|done| - 1]) + PayloadSum(done[|done| - 1].p, DATA_NR)
  }

  lemma SignedAdd(x: int, t: int, d: int)
    requires x % TWO32 == t % TWO32
    ensures (x + Signed(d % TWO32)) % TWO32 == (t + d) % TWO32
  {
    var m := d % TWO32;
    ModAdd(x, m);
    ModAdd(t, m);
    ModAdd(d, t);
    assert (x + m) % TWO32 == (t + d) % TWO32;
    if m >= TWO31 {
      ModShift(x + m, 1);
    }
  }

  lemma {:induction false} AggregateFinished(done: seq<Job>)
    requires forall j :: 0 <= j < |done| ==> Stopped(Aggregate, done[j])
    ensures Finished(Aggregate, done, 0) % TWO32 == GrandSum(done) % TWO32 && Complete(done) == |done|
  {
    hide PayloadSum;
    if done != [] {
      var front, p := done[..|done| - 1], done[|done| - 1].p;
      assert Stopped(Aggregate, done[|done| - 1]);
      AggregateFinished(front);
      AggregateAdded(p, DATA_NR);
      SignedAdd(Finished(Aggregate, front, 0), GrandSum(front), PayloadSum(p, DATA_NR));
    }
  }

  /** Whatever the schedule, the quiescent slot holds the sum of all words of all packets modulo 2^32. */
  lemma AggregateTotal(n: nat, events: seq<Event>, s: State)
    requires Reached(Aggregate, n, events, s) && Quiescent(s)
    ensures |s.mem| == 1 && s.mem[0] == GrandSum(s.done) % TWO32
    ensures s.count == |s.done| % TWO32
  {
    hide Reached, Finished, InFlight, GrandSum, Complete, InFlightCount, Stopped;
    AlwaysAccounted(Aggregate, n, events, s);
    AllIdle(Aggregate, s.cpus, 0);
    AggregateFinished(s.done);
  }
}
