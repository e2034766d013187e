/** The kvstore handler: four map fields and a frame that is rewritten in place. */
module KvStore {
  import opened Words
  import opened Packets
  import opened Checksum
  import opened UdpChecks
  import opened KvCache

  const CONTENT_AT: nat := 50

  /** Flag, key and value of a request: words 0, 1 and 2 of the payload. */
  function Flag(p: seq<u8>): u32
    requires Accepted(p)
  {
    PayloadWord(p, 0)
  }

  function Key(p: seq<u8>): u32
    requires Accepted(p)
  {
    PayloadWord(p, 1)
  }

  function Content(p: seq<u8>): u32
    requires Accepted(p)
  {
    PayloadWord(p, 2)
  }

  /** Which bytes of the frame they are. */
  lemma RequestBytes(p: seq<u8>)
    requires Accepted(p)
    ensures Flag(p) as int == p[42] as int + 0x100 * (p[43] as int) + 0x1_0000 * (p[44] as int)
                           + 0x100_0000 * (p[45] as int)
    ensures Key(p) as int == p[46] as int + 0x100 * (p[47] as int) + 0x1_0000 * (p[48] as int)
                          + 0x100_0000 * (p[49] as int)
    ensures Content(p) as int == p[50] as int + 0x100 * (p[51] as int) + 0x1_0000 * (p[52] as int)
                              + 0x100_0000 * (p[53] as int)
  {
    hide PayloadWord;
    PayloadBytes(p, 0);
    PayloadBytes(p, 1);
    PayloadBytes(p, 2);
  }

  /** A 32-bit store on a little-endian host. */
  function Put32(p: seq<u8>, o: nat, v: u32): (r: seq<u8>)
    requires o + 4 <= |p|
    ensures |r| == |p|
  {
    p[o := v % 0x100][o + 1 := v / 0x100 % 0x100][o + 2 := v / 0x1_0000 % 0x100][o + 3 := v / 0x100_0000]
  }

  /** The request with the content found written into it and its check field cleared. */
  function Found(p: seq<u8>, v: u32): (r: seq<u8>)
    requires Accepted(p)
    ensures |r| == |p|
  {
    Put32(p, CONTENT_AT, v)[CHECK_AT := 0][CHECK_AT + 1 := 0]
  }

  /** The frame before the header swap. */
  function Answered(p: seq<u8>, found: Option<u32>): (r: seq<u8>)
    requires Accepted(p)
    ensures |r| == |p|
  {
    match found
    case None => p
    case Some(v) => WithCheck(Found(p, v), Folded(HostSum(Found(p, v))))
  }

  /** What a read looks up; a write looks nothing up. */
  function Lookup(c: Cache, p: seq<u8>): Option<u32>
    requires Accepted(p)
  {
    if Flag(p) != 0 then None else Get(c, Key(p))
  }

  /** The cache request that a frame makes. */
  function RequestOf(p: seq<u8>, victims: set<u32>): Request
    requires Accepted(p)
  {
    if Flag(p) != 0 then Write(Key(p), Content(p), victims) else Read(Key(p))
  }

  class Store {
    var blk1: Block
    var blk2: Block
    var blk3: Block
    var blk4: Block

    ghost function State(): Cache
      reads this
    {
      Cache(blk1, blk2, blk3, blk4)
    }

    constructor ()
      ensures State() == EMPTY
    {
      blk1, blk2, blk3, blk4 := map[], map[], map[], map[];
    }

    /** bpf_map_update_elem on the selected block, dropping the given keys. */
    method Update(v: int, key: u32, val: u32, victims: set<u32>)
      requires GetSet(v) == Route(key)
      modifies this
      ensures State() == Put(old(State()), key, val, victims)
    {
      hide Route;
      match v
      case 2 => blk2 := (blk2 - victims)[key := val];
      case 3 => blk3 := (blk3 - victims)[key := val];
      case 4 => blk4 := (blk4 - victims)[key := val];
      case _ => blk1 := (blk1 - victims)[key := val];
    }

    method LookupElem(v: int, key: u32) returns (found: Option<u32>)
      requires GetSet(v) == Route(key)
      ensures found == Get(State(), key)
    {
      hide Route;
      match v
      case 2 => found := Find(blk2, key);
      case 3 => found := Find(blk3, key);
      case 4 => found := Find(blk4, key);
      case _ => found := Find(blk1, key);
    }

    /** victims are the keys that the map drops if this frame makes it write. */
    method Handle(pkt: array<u8>, victims: set<u32>) returns (action: Action)
      modifies this, pkt
      ensures !Accepted(old(pkt[..])) ==>
        action == XdpPass && State() == old(State()) && pkt[..] == old(pkt[..])
      ensures Accepted(old(pkt[..])) ==> var p := old(pkt[..]);
        && action == XdpTx
        && State() == Step(old(State()), RequestOf(p, victims))
        && pkt[..] == Swapped(Answered(p, Lookup(old(State()), p)))
    {
      hide Swapped, Put, Get, Route, HostSum, Put32, WithCheck, Folded;
      ghost var p := pkt[..];
      var ok := Check(pkt);
      if !ok {
        return XdpPass;
      }
      var flag := PayloadWord(pkt[..], 0);
      var key := PayloadWord(pkt[..], 1);
      RouteIsGetSet(key);
      if flag != 0 {
        var val := PayloadWord(pkt[..], 2);
        Update(key % SETS_NR, key, val, victims);
      } else {
        var cont := LookupElem(key % SETS_NR, key);
        if cont.Some? {
          WriteContent(pkt, cont.value);
          var csum := CalUdpCsum(pkt);
          StoreCheck(pkt, csum);
        }
      }
      SwapEndpoints(pkt);
      action := XdpTx;
    }
  }

  lemma RouteIsGetSet(key: u32)
    ensures GetSet(key % SETS_NR) == Route(key)
  {
  }

  /** payload[2] = value, then udp->check = 0. */
  method WriteContent(pkt: array<u8>, v: u32)
    requires Accepted(pkt[..])
    modifies pkt
    ensures pkt[..] == Found(old(pkt[..]), v)
  {
    pkt[50] := v % 0x100;
    pkt[51] := v / 0x100 % 0x100;
    pkt[52] := v / 0x1_0000 % 0x100;
    pkt[53] := v / 0x100_0000;
    pkt[CHECK_AT] := 0;
    pkt[CHECK_AT + 1] := 0;
  }

  method StoreCheck(pkt: array<u8>, csum: u16)
    requires pkt.Length >= PAYLOAD_AT
    modifies pkt
    ensures pkt[..] == WithCheck(old(pkt[..]), csum)
  {
    pkt[CHECK_AT] := csum % 0x100;
    pkt[CHECK_AT + 1] := csum / 0x100;
  }

  // ----- replies that verify -----

  lemma AcceptedIsWellSized(p: seq<u8>)
    requires Accepted(p)
    ensures WellSized(p) && Be16(p, LEN_AT) == TOT_SIZE_B + 8
  {
  }

  /** The content written is the content a receiver reads, and the flag and the key stay. */
  lemma FoundContent(p: seq<u8>, v: u32)
    requires Accepted(p)
    ensures Accepted(Found(p, v))
    ensures Content(Found(p, v)) == v && Key(Found(p, v)) == Key(p) && Flag(Found(p, v)) == Flag(p)
  {
    Digits32(v);
  }

  /** Outside check field and content, every byte of the reply is the request's byte that Source names. */
  lemma ReplyBytes(p: seq<u8>, v: u32, i: nat)
    requires Accepted(p) && i < |p| && !(40 <= i < 42) && !(50 <= i < 54)
    ensures |Swapped(Answered(p, Some(v)))| == |p|
    ensures Swapped(Answered(p, Some(v)))[i] == p[Source(i)]
  {
    hide Swapped, HostSum, Folded;
    SwappedBytes(Answered(p, Some(v)), i);
  }

  /** A reply that writes nothing into the frame. */
  lemma PlainReplyBytes(p: seq<u8>, i: nat)
    requires Accepted(p) && i < |p|
    ensures |Swapped(Answered(p, None))| == |p|
    ensures Swapped(Answered(p, None))[i] == p[Source(i)]
  {
    hide Swapped;
    SwappedBytes(p, i);
  }

  /** A write or a read that finds nothing: the reply verifies exactly when the request does. */
  lemma UnansweredVerifies(p: seq<u8>)
    requires Accepted(p)
    ensures WellSized(p) && WellSized(Swapped(Answered(p, None)))
    ensures Verifies(Swapped(Answered(p, None))) <==> Verifies(p)
  {
    hide Swapped, Verifies;
    AcceptedIsWellSized(p);
    SwapKeepsVerifying(p);
  }

  /** Where the code stops summing. */
  function SumEnd(p: seq<u8>): nat {
    if |p| <= UDP_AT + MAX_UDP_SIZE + 1 then |p| else UDP_AT + MAX_UDP_SIZE + 1
  }

  /**
   * A read that finds content, whether or not the request verified: the reply verifies exactly when the bytes
   * behind the datagram, as far as they are summed, add up to 0 modulo 65535 and the recomputation's fold has
   * no carry to drop, or add up to 1 and it has one.
   */
  lemma AnsweredVerifiesAny(p: seq<u8>, v: u32)
    requires Accepted(p)
    ensures var q := Answered(p, Some(v));
      && WellSized(Swapped(q))
      && (Verifies(Swapped(q)) <==>
          LeSum(p[PAYLOAD_AT + TOT_SIZE_B..SumEnd(p)]) % ONES == if Fold(HostSum(Found(p, v))) <= ONES then 0 else 1)
  {
    hide Swapped, Verifies, HostSum, Fold, Found, WithCheck, LeSum;
    FoundCheck(p, v);
    FoundContent(p, v);
    FoundTail(p, v);
    AcceptedIsWellSized(Found(p, v));
    FilledVerifies(Found(p, v));
    TrailingExcess(Found(p, v), SumEnd(p));
    SwapKeepsVerifying(Answered(p, Some(v)));
  }

  lemma FoundTail(p: seq<u8>, v: u32)
    requires Accepted(p)
    ensures Found(p, v)[PAYLOAD_AT + TOT_SIZE_B..SumEnd(p)] == p[PAYLOAD_AT + TOT_SIZE_B..SumEnd(p)]
  {
  }

  /** In particular, in a frame that ends with its datagram, exactly when the fold has no carry to drop. */
  lemma AnsweredVerifies(p: seq<u8>, v: u32)
    requires Accepted(p) && |p| == PAYLOAD_AT + TOT_SIZE_B
    ensures var q := Answered(p, Some(v));
      WellSized(Swapped(q)) && (Verifies(Swapped(q)) <==> Fold(HostSum(Found(p, v))) <= ONES)
  {
    hide Swapped, Verifies, HostSum, Fold, Found, Answered;
    AnsweredVerifiesAny(p, v);
    LeSumEmpty();
    assert p[PAYLOAD_AT + TOT_SIZE_B..SumEnd(p)] == [];
  }

  /** A request to read key 0, with a checksum that verifies. */
  function ReadRequest(): (p: seq<u8>)
    ensures |p| == 1066
  {
    seq(1066, i => if i == 23 then 17 else if i == 38 then 4 else if i == 39 then 8
                   else if i == 40 then 0xF7 else if i == 41 then 0xDE else 0)
  }

  /** The one request before it. */
  const STORED: Request := Write(0, 0xDEF8_FFFF, {})

  /** A request that verifies, after a legal run, gets a reply that does not. */
  lemma ReplyFails()
    ensures var p := ReadRequest();
      && Legal([STORED]) && Accepted(p) && Flag(p) == 0 && Verifies(p)
      && Lookup(Run([STORED]), p) == Some(0xDEF8_FFFF)
      && WellSized(Swapped(Answered(p, Some(0xDEF8_FFFF))))
      && !Verifies(Swapped(Answered(p, Some(0xDEF8_FFFF))))
  {
    hide Swapped, Verifies, HostSum, Found, Answered, Run, Get, Legal, DroppingFrame, ReadRequest;
    var p := ReadRequest();
    RequestVerifies();
    StoredIsFound();
    FoundDrops();
    DroppedCarry();
    AnsweredVerifies(p, 0xDEF8_FFFF);
  }

  lemma RequestVerifies()
    ensures var p := ReadRequest();
      Accepted(p) && Flag(p) == 0 && Key(p) == 0 && Verifies(p)
  {
    hide LeSum, PseudoHeader, Canon, Verifies;
    var p := ReadRequest();
    VerifiesInHostOrder(p);
    assert Datagram(p) == p[UDP_AT..];
    LeSumAppend(PseudoHeader(p), p[UDP_AT..]);
    NoAddresses(p);
    SparseSum(p);
    CanonIs(ONES, ONES, 0);
  }

  lemma StoredIsFound()
    ensures Legal([STORED]) && Get(Run([STORED]), 0) == Some(0xDEF8_FFFF)
  {
    hide Get, Put;
    assert Front([STORED]) == [] && Last([STORED]) == STORED;
    assert Run([]) == EMPTY;
    assert Run([STORED]) == Put(EMPTY, 0, 0xDEF8_FFFF, {});
    EmptyRoutes();
    PutGet(EMPTY, 0, 0xDEF8_FFFF, {}, 0);
  }

  lemma FoundDrops()
    ensures Found(ReadRequest(), 0xDEF8_FFFF) == DroppingFrame()
  {
    var q, r := Found(ReadRequest(), 0xDEF8_FFFF), DroppingFrame();
    assert |q| == |r|;
    forall i | 0 <= i < |r| ensures q[i] == r[i] {
    }
  }

  /** Two bytes behind the datagram, 2 and 0, spoil the check field of every reply. */
  lemma TrailingFails(p: seq<u8>, v: u32)
    requires Accepted(p) && |p| == PAYLOAD_AT + TOT_SIZE_B + 2 && p[1066] == 2 && p[1067] == 0
    ensures WellSized(Swapped(Answered(p, Some(v)))) && !Verifies(Swapped(Answered(p, Some(v))))
  {
    hide Swapped, Verifies, HostSum, Fold, Found, Answered;
    AnsweredVerifiesAny(p, v);
    var tail := p[PAYLOAD_AT + TOT_SIZE_B..SumEnd(p)];
    assert tail == [2, 0] && tail[2..] == [];
    LeSumEmpty();
  }

  lemma FoundCheck(p: seq<u8>, v: u32)
    requires Accepted(p)
    ensures Found(p, v)[CHECK_AT] == 0 && Found(p, v)[CHECK_AT + 1] == 0
  {
  }

  // ----- what a client reads -----

  lemma SwapKeepsPayload(p: seq<u8>)
    requires Accepted(p)
    ensures Accepted(Swapped(p))
    ensures Flag(Swapped(p)) == Flag(p) && Key(Swapped(p)) == Key(p) && Content(Swapped(p)) == Content(p)
  {
    hide Swapped;
    SwappedBytes(p, PROTOCOL_AT);
    SwappedBytes(p, 38);
    SwappedBytes(p, 39);
    forall i | 42 <= i < 54 ensures Swapped(p)[i] == p[i] {
      SwappedBytes(p, i);
    }
  }

  /**
   * After any legal run of requests, the reply to a read carries the latest value written to its key if the
   * key is still kept, and otherwise the content that the request itself brought.
   */
  lemma ReadReplyIsLatest(reqs: seq<Request>, p: seq<u8>)
    requires Legal(reqs) && Accepted(p) && Flag(p) == 0
    ensures Kept(reqs, Key(p)) ==> Key(p) in Latest(reqs)
    ensures var reply := Swapped(Answered(p, Lookup(Run(reqs), p)));
      && Accepted(reply) && Key(reply) == Key(p)
      && Content(reply) == if Kept(reqs, Key(p)) then Latest(reqs)[Key(p)] else Content(p)
  {
    hide Swapped, Run, Get, Kept, Latest, Legal, Found, HostSum, Folded;
    GetIsLatest(reqs, Key(p));
    var found := Lookup(Run(reqs), p);
    if found.Some? {
      FoundContent(p, found.value);
      CheckKeepsPayload(Found(p, found.value), Folded(HostSum(Found(p, found.value))));
    }
    SwapKeepsPayload(Answered(p, found));
  }

  lemma CheckKeepsPayload(p: seq<u8>, csum: u16)
    requires Accepted(p)
    ensures Accepted(WithCheck(p, csum))
    ensures Key(WithCheck(p, csum)) == Key(p) && Content(WithCheck(p, csum)) == Content(p)
  {
  }
}
