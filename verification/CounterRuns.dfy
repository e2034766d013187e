/** Whole runs of the counting handlers over one frame after another. */
module CounterRuns {
  import opened Words
  import opened Packets
  import opened SharedCounters
  import opened CounterResults
  import opened CounterHandlers

  /** The maps after all frames. */
  function ServedAll(h: Handler, frames: seq<seq<u8>>): Maps {
    if frames == [] then Maps(seq(Slots(h), _ => 0), 0)
    else Served(h, ServedAll(h, frames[..|frames| - 1]), frames[|frames| - 1])
  }

  /** How many frames moved the counter. */
  function Counted(h: Handler, frames: seq<seq<u8>>): nat {
    if frames == [] then 0
    else Counted(h, frames[..|frames| - 1]) + if Counts(h, frames[|frames| - 1]) then 1 else 0
  }

  /** How many frames were sent back. */
  function Answered(h: Handler, frames: seq<seq<u8>>): nat {
    if frames == [] then 0
    else
      var front, last := frames[..|frames| - 1], frames[|frames| - 1];
      Answered(h, front) + if ActionOf(h, ServedAll(h, front), last) == XdpTx then 1 else 0
  }

  /** The accepted frames, as the machine records them. */
  function Jobs(h: Handler, frames: seq<seq<u8>>): seq<Job> {
    if frames == [] then []
    else
      var front, last := Jobs(h, frames[..|frames| - 1]), frames[|frames| - 1];
      if Accepted(last) then front + [Job(Values(last), Passes(h, Values(last), 0))] else front
  }

  /** The handlers, called one after another, do what the machine does on a single CPU. */
  lemma {:induction false} RunsOnMachine(h: Handler, frames: seq<seq<u8>>) returns (events: seq<Event>)
    ensures var m := ServedAll(h, frames);
      Reached(h, 1, events, State(m.mem, m.count, [Idle], Jobs(h, frames)))
  {
    hide Accepted, Values, ServedMem, ServedCount, Passes;
    if frames == [] {
      events := [];
      assert Start(h, 1).cpus == [Idle];
    } else {
      hide Reached;
      var front, last := frames[..|frames| - 1], frames[|frames| - 1];
      events := RunsOnMachine(h, front);
      if Accepted(last) {
        var m := ServedAll(h, front);
        var more := ServedIsRun(h, 1, events, State(m.mem, m.count, [Idle], Jobs(h, front)), 0, Values(last));
        events := events + more;
      }
    }
  }

  lemma NextBatch(n: nat)
    ensures (n + 1) / BATCH == n / BATCH + if (n + 1) % BATCH == 0 then 1 else 0
  {
  }

  /** The batch size divides 2^32, so wrapping around does not change which packets fill a batch. */
  lemma WrapKeepsBatches(n: nat)
    ensures n % TWO32 % BATCH == n % BATCH
  {
    var q := n / TWO32;
    var k := q * 0x40_0000;
    assert n % TWO32 == n - k * BATCH;
    BatchShift(n, k);
  }

  lemma BatchShift(y: int, k: int)
    ensures (y - k * BATCH) % BATCH == y % BATCH
  {
    var n := y / BATCH;
    assert y - k * BATCH == (n - k) * BATCH + y % BATCH;
  }

  /**
   * After any number of frames the counter is the number of frames counted modulo 2^32, and exactly one
   * reply was sent for every full batch, also when the counter has wrapped around.
   */
  lemma {:induction false} OneReplyPerBatch(h: Handler, frames: seq<seq<u8>>)
    ensures ServedAll(h, frames).count == Counted(h, frames) % 0x1_0000_0000
    ensures Answered(h, frames) == Counted(h, frames) / 1024
  {
    hide Accepted, Values, ServedMem, Passes;
    if frames != [] {
      var front, last := frames[..|frames| - 1], frames[|frames| - 1];
      OneReplyPerBatch(h, front);
      var n := Counted(h, front);
      if Counts(h, last) {
        ModAdd(n, 1);
        WrapKeepsBatches(n + 1);
        NextBatch(n);
      }
    }
  }

  /** The sum of all words of all accepted frames. */
  function AllWords(frames: seq<seq<u8>>): int {
    if frames == [] then 0
    else
      var last := frames[|frames| - 1];
      AllWords(frames[..|frames| - 1]) + if Accepted(last) then PayloadSum(Values(last), DATA_NR) else 0
  }

  lemma {:induction false} AllWordsOfJobs(frames: seq<seq<u8>>)
    ensures GrandSum(Jobs(Aggregate, frames)) == AllWords(frames)
  {
    hide Accepted, Values, PayloadSum, Passes;
    if frames != [] {
      var front, last := frames[..|frames| - 1], frames[|frames| - 1];
      AllWordsOfJobs(front);
      var jobs := Jobs(Aggregate, front);
      if Accepted(last) {
        assert (jobs + [Job(Values(last), Passes(Aggregate, Values(last), 0))])[..|jobs|] == jobs;
      }
    }
  }

  /** rxaggr is the wrapping sum of every word of every accepted frame. */
  lemma AggregateSum(frames: seq<seq<u8>>)
    ensures ServedAll(Aggregate, frames).mem == [AllWords(frames) % TWO32]
    ensures Counted(Aggregate, frames) == |Jobs(Aggregate, frames)|
  {
    hide Reached, ServedAll, AllWords, GrandSum, Jobs;
    var events := RunsOnMachine(Aggregate, frames);
    var m := ServedAll(Aggregate, frames);
    var s := State(m.mem, m.count, [Idle], Jobs(Aggregate, frames));
    AggregateTotal(1, events, s);
    AllWordsOfJobs(frames);
    EveryFrameCounts(frames);
  }

  lemma {:induction false} EveryFrameCounts(frames: seq<seq<u8>>)
    ensures Counted(Aggregate, frames) == |Jobs(Aggregate, frames)|
  {
    hide Accepted, Values, Passes;
    if frames != [] {
      EveryFrameCounts(frames[..|frames| - 1]);
      if Accepted(frames[|frames| - 1]) {
        AllPasses(Aggregate, Values(frames[|frames| - 1]), 0);
      }
    }
  }
}
