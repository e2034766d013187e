/** The reduce, histogram and aggregate handlers, run on one frame after another. */
module CounterHandlers {
  import opened Words
  import opened Packets
  import opened SharedCounters
  import opened CounterResults

  const MIB: int := 1048576

  /** A reply is sent whenever the packet counter reaches a multiple of this. */
  const BATCH: nat := 1024

  /** The payload of an accepted frame as signed words. */
  function Values(p: seq<u8>): Payload
    requires Accepted(p)
  {
    seq(DATA_NR, i requires 0 <= i < DATA_NR => Signed(PayloadWord(p, i)))
  }

  /** A frame that carries the little-endian bytes of 256 words has these words, read as signed, for values. */
  lemma ValuesOfWords(p: seq<u8>, w: seq<u32>, i: nat)
    requires Accepted(p) && |w| == 256 && i < 256
    requires w[i] as int == p[42 + 4 * i] as int + 0x100 * (p[43 + 4 * i] as int)
                         + 0x1_0000 * (p[44 + 4 * i] as int) + 0x100_0000 * (p[45 + 4 * i] as int)
    ensures Values(p)[i] == if w[i] < 0x8000_0000 then w[i] as int else w[i] as int - 0x1_0000_0000
  {
    hide PayloadWord;
    PayloadBytes(p, i);
  }

  /** C's % truncates toward zero. */
  function Remainder(x: int, y: int): int
    requires y > 0
  {
    if x >= 0 then x % y else -(-x % y)
  }

  /** The test on the counter, which the handlers read as a signed word. */
  predicate BatchFull(count: u32) {
    Remainder(Signed(count), MIB / TOT_SIZE_B) == 0
  }

  lemma ZeroRemainder(x: int)
    ensures Remainder(x, BATCH) == 0 <==> x % BATCH == 0
  {
  }

  /** Reading the counter as signed makes no difference, because the batch size divides 2^32. */
  lemma BatchFullIs(count: u32)
    ensures BatchFull(count) <==> count % BATCH == 0
  {
    assert MIB / TOT_SIZE_B == BATCH;
    ZeroRemainder(Signed(count));
  }

  // ----- what one call does -----

  datatype Maps = Maps(mem: seq<u32>, count: u32)

  /** The maps after the handler has seen frame p. */
  function Served(h: Handler, m: Maps, p: seq<u8>): Maps {
    if Accepted(p) then Maps(ServedMem(h, m.mem, Values(p)), ServedCount(h, m.count, Values(p))) else m
  }

  /** The frames that move the packet counter: accepted, and walked to their end. */
  predicate Counts(h: Handler, p: seq<u8>) {
    Accepted(p) && Passes(h, Values(p), 0) == DATA_NR
  }

  /** Frame p is sent back to its sender. */
  predicate Answers(h: Handler, m: Maps, p: seq<u8>) {
    Counts(h, p) && Served(h, m, p).count % BATCH == 0
  }

  function ActionOf(h: Handler, m: Maps, p: seq<u8>): Action {
    if Answers(h, m, p) then XdpTx
    else if Accepted(p) && h.Aggregate? then XdpDrop
    else XdpPass
  }

  function FrameAfter(h: Handler, m: Maps, p: seq<u8>): seq<u8> {
    if Answers(h, m, p) then Swapped(p) else p
  }

  lemma AddSigned(x: u32, y: u32)
    ensures Add(x, y) == (x + Signed(y)) % TWO32
  {
    if y >= TWO31 {
      ModShift(x + y, 1);
    }
  }

  /** Only histogram ever leaves its loop early. */
  lemma {:induction false} AllPasses(h: Handler, w: Payload, i: nat)
    requires i <= DATA_NR && !h.Histogram?
    ensures Passes(h, w, i) == DATA_NR
    decreases DATA_NR - i
  {
    if i < DATA_NR {
      AllPasses(h, w, i + 1);
    }
  }

  /** Slot i of the reduction gains the four payload bytes from 42 + 4 * i on, lowest first. */
  lemma ReduceBytes(m: Maps, p: seq<u8>, i: nat)
    requires Accepted(p) && |m.mem| == 256 && i < 256
    ensures |Served(Reduce, m, p).mem| == 256
    ensures Served(Reduce, m, p).mem[i] as int
         == (m.mem[i] + p[42 + 4 * i] as int + 0x100 * (p[43 + 4 * i] as int)
             + 0x1_0000 * (p[44 + 4 * i] as int) + 0x100_0000 * (p[45 + 4 * i] as int)) % 0x1_0000_0000
  {
    hide PayloadWord, Passes, Added;
    AllPasses(Reduce, Values(p), 0);
    ReduceAdded(Values(p), DATA_NR, i);
    PayloadBytes(p, i);
    AddSigned(m.mem[i], PayloadWord(p, i));
  }

  /** Exactly when a frame is answered, dropped or passed. */
  lemma ActionIs(h: Handler, m: Maps, p: seq<u8>)
    ensures ActionOf(h, m, p) == XdpTx
      <==> Accepted(p) && Passes(h, Values(p), 0) == 256 && (m.count + 1) % 0x1_0000_0000 % 1024 == 0
    ensures ActionOf(h, m, p) == XdpDrop <==> Accepted(p) && h.Aggregate? && ActionOf(h, m, p) != XdpTx
    ensures FrameAfter(h, m, p) == if ActionOf(h, m, p) == XdpTx then Swapped(p) else p
  {
    hide Values, Passes, ServedMem, Swapped, Accepted;
  }

  // ----- the handlers -----

  method Reply(pkt: array<u8>, count: u32, otherwise: Action) returns (action: Action)
    requires pkt.Length >= PAYLOAD_AT
    modifies pkt
    ensures pkt[..] == if count % BATCH == 0 then Swapped(old(pkt[..])) else old(pkt[..])
    ensures action == if count % BATCH == 0 then XdpTx else otherwise
  {
    hide Swapped, BatchFull;
    BatchFullIs(count);
    if BatchFull(count) {
      SwapEndpoints(pkt);
      return XdpTx;
    }
    return otherwise;
  }

  /** One wrapping add of the locally wrapped sum is as good as adding every word to the slot. */
  lemma AggregateServed(x: u32, w: Payload)
    ensures ServedMem(Aggregate, [x], w) == [(x + PayloadSum(w, DATA_NR)) % TWO32]
    ensures Passes(Aggregate, w, 0) == DATA_NR
  {
    hide Passes, Added, PayloadSum;
    AllPasses(Aggregate, w, 0);
    AggregateAdded(w, DATA_NR);
    SignedAdd(x, x, PayloadSum(w, DATA_NR));
  }

  class ReduceMaps {
    const rxred: array<u32>
    var rxpkt: u32

    predicate Valid()
      reads this
    {
      rxred.Length == DATA_NR
    }

    function Contents(): Maps
      reads this, rxred
    {
      Maps(rxred[..], rxpkt)
    }

    constructor ()
      ensures Valid() && fresh(rxred)
      ensures Contents() == Maps(seq(DATA_NR, _ => 0), 0)
    {
      rxred := new u32[DATA_NR](_ => 0);
      rxpkt := 0;
    }

    method Handle(pkt: array<u8>) returns (action: Action)
      requires Valid() && rxred as object != pkt as object
      modifies this, rxred, pkt
      ensures Valid()
      ensures Contents() == Served(Reduce, old(Contents()), old(pkt[..]))
      ensures action == ActionOf(Reduce, old(Contents()), old(pkt[..]))
      ensures pkt[..] == FrameAfter(Reduce, old(Contents()), old(pkt[..]))
    {
      hide Swapped, PartlyServed, Passes, PayloadWord, Added, ServedMem;
      var ok := Check(pkt);
      if !ok {
        return XdpPass;
      }
      ghost var was, p, w := rxred[..], pkt[..], Values(pkt[..]);
      NothingServed(Reduce, was, w);
      for i := 0 to DATA_NR
        invariant pkt[..] == p && rxpkt == old(rxpkt)
        invariant PartlyServed(Reduce, was, w, i, rxred[..])
      {
        PartlyServedNext(Reduce, was, w, i, rxred[..]);
        AddSigned(rxred[i], PayloadWord(p, i));
        rxred[i] := Add(rxred[i], PayloadWord(pkt[..], i));
      }
      AllPasses(Reduce, w, 0);
      FullyServed(Reduce, was, w, rxred[..]);
      rxpkt := Add(rxpkt, 1);
      action := Reply(pkt, rxpkt, XdpPass);
    }
  }

  class HistogramMaps {
    const rxhist: array<u32>
    var rxpkt: u32

    predicate Valid()
      reads this
    {
      rxhist.Length == HISTOG_NR
    }

    function Contents(): Maps
      reads this, rxhist
    {
      Maps(rxhist[..], rxpkt)
    }

    constructor ()
      ensures Valid() && fresh(rxhist)
      ensures Contents() == Maps(seq(HISTOG_NR, _ => 0), 0)
    {
      rxhist := new u32[HISTOG_NR](_ => 0);
      rxpkt := 0;
    }

    /** The loop, which a value outside the guard ends early. */
    method CountValues(pkt: array<u8>) returns (complete: bool)
      requires Valid() && rxhist as object != pkt as object && Accepted(pkt[..])
      modifies rxhist
      ensures rxhist[..] == ServedMem(Histogram, old(rxhist[..]), Values(pkt[..]))
      ensures complete <==> Passes(Histogram, Values(pkt[..]), 0) == DATA_NR
    {
      hide PartlyServed, PayloadWord, Added, ServedMem;
      ghost var was, w := rxhist[..], Values(pkt[..]);
      NothingServed(Histogram, was, w);
      for i := 0 to DATA_NR
        invariant PartlyServed(Histogram, was, w, i, rxhist[..])
        invariant Passes(Histogram, w, i) == Passes(Histogram, w, 0)
      {
        var value := Signed(PayloadWord(pkt[..], i));
        if value > HISTOG_NR || value < 0 {
          FullyServed(Histogram, was, w, rxhist[..]);
          return false;
        }
        PartlyServedNext(Histogram, was, w, i, rxhist[..]);
        if value < rxhist.Length {
          rxhist[value] := Add(rxhist[value], 1);
        }
      }
      FullyServed(Histogram, was, w, rxhist[..]);
      return true;
    }

    /** A frame left early adds to the bins but does not move the packet counter. */
    method Handle(pkt: array<u8>) returns (action: Action)
      requires Valid() && rxhist as object != pkt as object
      modifies this, rxhist, pkt
      ensures Valid()
      ensures Contents() == Served(Histogram, old(Contents()), old(pkt[..]))
      ensures action == ActionOf(Histogram, old(Contents()), old(pkt[..]))
      ensures pkt[..] == FrameAfter(Histogram, old(Contents()), old(pkt[..]))
    {
      hide Swapped, PayloadWord, Passes, ServedMem;
      var ok := Check(pkt);
      if !ok {
        return XdpPass;
      }
      var complete := CountValues(pkt);
      if !complete {
        return XdpPass;
      }
      rxpkt := Add(rxpkt, 1);
      action := Reply(pkt, rxpkt, XdpPass);
    }
  }

  class AggregateMaps {
    var rxaggr: u32
    var rxpkt: u32

    function Contents(): Maps
      reads this
    {
      Maps([rxaggr], rxpkt)
    }

    constructor ()
      ensures Contents() == Maps(seq(1, _ => 0), 0)
    {
      rxaggr, rxpkt := 0, 0;
    }

    method Handle(pkt: array<u8>) returns (action: Action)
      modifies this, pkt
      ensures Contents() == Served(Aggregate, old(Contents()), old(pkt[..]))
      ensures action == ActionOf(Aggregate, old(Contents()), old(pkt[..]))
      ensures pkt[..] == FrameAfter(Aggregate, old(Contents()), old(pkt[..]))
    {
      hide Swapped, PayloadWord, Passes, ServedMem;
      var ok := Check(pkt);
      if !ok {
        return XdpPass;
      }
      ghost var p, w := pkt[..], Values(pkt[..]);
      var res: u32 := 0;
      for i := 0 to DATA_NR
        invariant pkt[..] == p && rxpkt == old(rxpkt) && rxaggr == old(rxaggr)
        invariant res == PayloadSum(w, i) % TWO32
      {
        AddSigned(res, PayloadWord(p, i));
        ModAdd(PayloadSum(w, i), w[i]);
        res := Add(res, PayloadWord(pkt[..], i));
      }
      ModAdd(PayloadSum(w, DATA_NR), rxaggr);
      AggregateServed(rxaggr, w);
      rxaggr := Add(rxaggr, res);
      rxpkt := Add(rxpkt, 1);
      action := Reply(pkt, rxpkt, XdpDrop);
    }
  }
}
