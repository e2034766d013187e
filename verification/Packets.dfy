/** Ethernet, IPv4 (20-byte header) and UDP fields of a frame, and the header swap that sends it back. */
module Packets {
  import opened Words

  // offsets of the fields, from the start of the frame
  const PROTOCOL_AT: nat := 23
  const SADDR_AT: nat := 26
  const DADDR_AT: nat := 30
  const UDP_AT: nat := 34
  const LEN_AT: nat := 38
  const CHECK_AT: nat := 40
  const PAYLOAD_AT: nat := 42

  const IPPROTO_UDP: u8 := 17
  const TOT_SIZE_B: nat := 1024

  /** A payload of TOT_SIZE_B bytes is this many 32-bit words. */
  const DATA_NR: nat := 256

  datatype Action = XdpPass | XdpDrop | XdpTx

  /** The value of two bytes on a little-endian host. */
  function Le16(p: seq<u8>, o: nat): u16
    requires o + 2 <= |p|
  {
    p[o] as int + 0x100 * (p[o + 1] as int)
  }

  function Le32(p: seq<u8>, o: nat): u32
    requires o + 4 <= |p|
  {
    p[o] as int + 0x100 * (p[o + 1] as int) + 0x1_0000 * (p[o + 2] as int) + 0x100_0000 * (p[o + 3] as int)
  }

  /** ntohs of the two bytes at o. */
  function Be16(p: seq<u8>, o: nat): u16
    requires o + 2 <= |p|
  {
    0x100 * (p[o] as int) + p[o + 1] as int
  }

  /** The nested length checks and the protocol check that every handler starts with. */
  predicate IsUdp(p: seq<u8>) {
    |p| >= PAYLOAD_AT && p[PROTOCOL_AT] == IPPROTO_UDP
  }

  /** The payload size as an unsigned int: a UDP length below 8 wraps around. */
  function PayloadSize(p: seq<u8>): u32
    requires |p| >= PAYLOAD_AT
  {
    Sub(Be16(p, LEN_AT), 8)
  }

  /** The frames that the 1024-byte handlers work on; they pass every other frame. */
  predicate Accepted(p: seq<u8>) {
    IsUdp(p) && PayloadSize(p) == TOT_SIZE_B && PAYLOAD_AT + TOT_SIZE_B <= |p|
  }

  /** Word i of the payload. */
  function PayloadWord(p: seq<u8>, i: nat): u32
    requires PAYLOAD_AT + 4 * i + 4 <= |p|
  {
    Le32(p, PAYLOAD_AT + 4 * i)
  }

  /** Accepted in terms of the bytes of the frame: a UDP datagram of 1032 bytes that fits. */
  lemma AcceptedIs(p: seq<u8>)
    ensures Accepted(p) <==> |p| >= 1066 && p[23] == 17 && 0x100 * (p[38] as int) + p[39] as int == 1032
  {
  }

  /** Word i of the payload is four bytes of the frame, lowest first. */
  lemma PayloadBytes(p: seq<u8>, i: nat)
    requires 42 + 4 * i + 4 <= |p|
    ensures PayloadWord(p, i) as int == p[42 + 4 * i] as int + 0x100 * (p[43 + 4 * i] as int)
                                     + 0x1_0000 * (p[44 + 4 * i] as int) + 0x100_0000 * (p[45 + 4 * i] as int)
  {
  }

  // ----- exchanging fields -----

  function SwapAt(p: seq<u8>, a: nat, b: nat, n: nat): (r: seq<u8>)
    requires a + n <= b && b + n <= |p|
    ensures |r| == |p|
  {
    p[..a] + p[b..b + n] + p[a + n..b] + p[a..a + n] + p[b + n..]
  }

  /** Ports, addresses and MAC addresses of source and destination exchanged. */
  function Swapped(p: seq<u8>): (r: seq<u8>)
    requires |p| >= PAYLOAD_AT
    ensures |r| == |p|
  {
    SwapAt(SwapAt(SwapAt(p, 34, 36, 2), 26, 30, 4), 0, 6, 6)
  }

  lemma SwapAtByte(p: seq<u8>, a: nat, b: nat, n: nat, i: nat)
    requires a + n <= b && b + n <= |p| && i < |p|
    ensures SwapAt(p, a, b, n)[i]
         == if a <= i < a + n then p[b + i - a] else if b <= i < b + n then p[a + i - b] else p[i]
  {
  }

  /** Which byte of the frame each byte of the reply is. */
  function Source(i: nat): nat {
    if i < 6 then i + 6
    else if i < 12 then i - 6
    else if 26 <= i < 30 then i + 4
    else if 30 <= i < 34 then i - 4
    else if 34 <= i < 36 then i + 2
    else if 36 <= i < 38 then i - 2
    else i
  }

  lemma SwappedBytes(p: seq<u8>, i: nat)
    requires |p| >= PAYLOAD_AT && i < |p|
    ensures Swapped(p)[i] == p[Source(i)]
  {
    hide SwapAt;
    var q := SwapAt(p, 34, 36, 2);
    var r := SwapAt(q, 26, 30, 4);
    var j := if i < 6 then i + 6 else if i < 12 then i - 6 else i;
    var k := if 26 <= j < 30 then j + 4 else if 30 <= j < 34 then j - 4 else j;
    SwapAtByte(r, 0, 6, 6, i);
    SwapAtByte(q, 26, 30, 4, j);
    SwapAtByte(p, 34, 36, 2, k);
  }

  /** MAC addresses, IP addresses and ports change places, and nothing else moves. */
  lemma SwappedFields(p: seq<u8>)
    requires |p| >= PAYLOAD_AT
    ensures var r := Swapped(p);
      && r[0..6] == p[6..12] && r[6..12] == p[0..6] && r[12..26] == p[12..26]
      && r[26..30] == p[30..34] && r[30..34] == p[26..30]
      && r[34..36] == p[36..38] && r[36..38] == p[34..36] && r[38..] == p[38..]
  {
    hide Swapped;
    var r := Swapped(p);
    forall i | 0 <= i < |p| ensures r[i] == p[Source(i)] {
      SwappedBytes(p, i);
    }
  }

  /** Replying to a reply restores the frame. */
  lemma SwappedTwice(p: seq<u8>)
    requires |p| >= PAYLOAD_AT
    ensures Swapped(Swapped(p)) == p
  {
    hide Swapped;
    forall i | 0 <= i < |p| ensures Swapped(Swapped(p))[i] == p[i] {
      SwappedBytes(Swapped(p), i);
      SwappedBytes(p, Source(i));
    }
  }

  method SwapFields(pkt: array<u8>, a: nat, b: nat, n: nat)
    requires a + n <= b && b + n <= pkt.Length
    modifies pkt
    ensures pkt[..] == SwapAt(old(pkt[..]), a, b, n)
  {
    ghost var was := pkt[..];
    assert SwapAt(was, a, b, 0) == was;
    for i := 0 to n
      invariant pkt[..] == SwapAt(was, a, b, i)
    {
      var mem := pkt[b + i];
      pkt[b + i] := pkt[a + i];
      pkt[a + i] := mem;
      SwapAtNext(was, a, b, i);
    }
  }

  lemma SwapAtNext(p: seq<u8>, a: nat, b: nat, i: nat)
    requires a + i < b && b + i < |p|
    ensures var q := SwapAt(p, a, b, i);
      SwapAt(p, a, b, i + 1) == q[b + i := q[a + i]][a + i := q[b + i]]
  {
    hide SwapAt;
    var q := SwapAt(p, a, b, i);
    var r := q[b + i := q[a + i]][a + i := q[b + i]];
    SwapAtByte(p, a, b, i, a + i);
    SwapAtByte(p, a, b, i, b + i);
    forall j | 0 <= j < |p| ensures SwapAt(p, a, b, i + 1)[j] == r[j] {
      SwapAtByte(p, a, b, i, j);
      SwapAtByte(p, a, b, i + 1, j);
    }
  }

  method SwapEndpoints(pkt: array<u8>)
    requires pkt.Length >= PAYLOAD_AT
    modifies pkt
    ensures pkt[..] == Swapped(old(pkt[..]))
  {
    hide SwapAt;
    ghost var p := pkt[..];
    SwapFields(pkt, 34, 36, 2);
    assert pkt[..] == SwapAt(p, 34, 36, 2);
    SwapFields(pkt, 26, 30, 4);
    assert pkt[..] == SwapAt(SwapAt(p, 34, 36, 2), 26, 30, 4);
    SwapFields(pkt, 0, 6, 6);
  }

  /** The nested checks every 1024-byte handler starts with. */
  method Check(pkt: array<u8>) returns (ok: bool)
    ensures ok <==> Accepted(pkt[..])
    ensures ok <==> pkt.Length >= 1066 && pkt[23] == 17 && 0x100 * (pkt[38] as int) + pkt[39] as int == 1032
  {
    AcceptedIs(pkt[..]);
    if 14 <= pkt.Length {
      if 34 <= pkt.Length {
        if pkt[PROTOCOL_AT] == IPPROTO_UDP {
          if 42 <= pkt.Length {
            var payloadSize := PayloadSize(pkt[..]);
            if payloadSize != TOT_SIZE_B {
              return false;
            }
            return PAYLOAD_AT + 4 * (payloadSize / 4) <= pkt.Length;
          }
        }
      }
    }
    return false;
  }

  /** ping_pong: every UDP frame goes back to its sender, every other frame passes untouched. */
  method PingPong(pkt: array<u8>) returns (action: Action)
    modifies pkt
    ensures var udp := pkt.Length >= 42 && old(pkt[..])[23] == 17;
      && action == (if udp then XdpTx else XdpPass)
      && pkt[..] == (if udp then Swapped(old(pkt[..])) else old(pkt[..]))
  {
    hide Swapped;
    action := XdpPass;
    if 14 <= pkt.Length {
      if 34 <= pkt.Length {
        if pkt[PROTOCOL_AT] == IPPROTO_UDP {
          if 42 <= pkt.Length {
            SwapEndpoints(pkt);
            action := XdpTx;
          }
        }
      }
    }
  }
}
