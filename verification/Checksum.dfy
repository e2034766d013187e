/** caludpcsum, against the checksum of RFC 768 with the one's complement arithmetic of RFC 1071. */
module Checksum {
  import opened Words
  import opened Packets

  const MAX_UDP_SIZE: nat := 1480
  const ONES: int := 0xFFFF

  // ----- reference: one's complement sum of big-endian words -----

  /** One's complement addition: the carry out of bit 15 comes back in at bit 0. */
  function OnesAdd(a: u16, b: u16): u16 {
    if a + b > ONES then a + b - ONES else a + b
  }

  /** Section 1 of RFC 1071: adjacent bytes pair up, a last odd byte is padded with zero on the right. */
  function OnesSum(s: seq<u8>): u16 {
    if s == [] then 0
    else if |s| == 1 then 0x100 * (s[0] as int)
    else OnesAdd(0x100 * (s[0] as int) + s[1] as int, OnesSum(s[2..]))
  }

  /** The pseudo header of RFC 768: addresses, zero, protocol, UDP length. */
  function PseudoHeader(p: seq<u8>): (h: seq<u8>)
    requires |p| >= PAYLOAD_AT
    ensures |h| == 12
  {
    p[SADDR_AT..UDP_AT] + [0, p[PROTOCOL_AT]] + p[LEN_AT..CHECK_AT]
  }

  /** The checksum of RFC 768 over the pseudo header and the UDP bytes as they stand. */
  function Rfc768(p: seq<u8>, udp: seq<u8>): u16
    requires |p| >= PAYLOAD_AT
  {
    ONES - OnesSum(PseudoHeader(p) + udp)
  }

  /** The number a little-endian host reads where the network has x. */
  function Swap16(x: u16): u16 {
    x % 0x100 * 0x100 + x / 0x100
  }

  // ----- plain sums, in both byte orders -----

  function BeSum(s: seq<u8>): nat {
    if s == [] then 0
    else if |s| == 1 then 0x100 * (s[0] as int)
    else 0x100 * (s[0] as int) + s[1] as int + BeSum(s[2..])
  }

  function LeSum(s: seq<u8>): nat {
    if s == [] then 0
    else if |s| == 1 then s[0]
    else s[0] as int + 0x100 * (s[1] as int) + LeSum(s[2..])
  }

  /** What a one's complement sum makes of a plain sum: 0 only for 0, else a residue in 1..65535. */
  function Canon(x: nat): u16 {
    if x == 0 then 0 else (x - 1) % ONES + 1
  }

  lemma CanonIs(x: nat, r: nat, q: int)
    requires x > 0 && x == ONES * q + r && 1 <= r <= ONES
    ensures Canon(x) == r
  {
  }

  lemma CanonOf(x: nat) returns (q: nat)
    requires x > 0
    ensures x == ONES * q + Canon(x) && 1 <= Canon(x)
  {
    q := (x - 1) / ONES;
  }

  lemma {:induction false} OnesSumIsCanon(s: seq<u8>)
    ensures OnesSum(s) == Canon(BeSum(s))
  {
    if |s| == 1 {
      if s[0] > 0 {
        CanonIs(BeSum(s), 0x100 * (s[0] as int), 0);
      }
    } else if |s| >= 2 {
      OnesSumIsCanon(s[2..]);
      OnesAddCanon(0x100 * (s[0] as int) + s[1] as int, BeSum(s[2..]));
    }
  }

  lemma OnesAddCanon(a: u16, x: nat)
    ensures OnesAdd(a, Canon(x)) == Canon(a + x)
  {
    if x > 0 {
      var q := CanonOf(x);
      var r := a + Canon(x);
      if r > ONES {
        CanonIs(a + x, r - ONES, q + 1);
      } else {
        CanonIs(a + x, r, q);
      }
    } else if a > 0 {
      CanonIs(a, a, 0);
    }
  }

  /** Section 2(B) of RFC 1071: exchanging the bytes of every word multiplies the sum by 256. */
  lemma {:induction false} ByteOrder(s: seq<u8>) returns (q: nat)
    ensures 0x100 * BeSum(s) == LeSum(s) + ONES * q
    ensures BeSum(s) == 0 <==> LeSum(s) == 0
  {
    if s == [] {
      q := 0;
    } else if |s| == 1 {
      q := s[0];
    } else {
      q := ByteOrder(s[2..]);
      q := q + s[0];
    }
  }

  lemma SwapCanon(s: seq<u8>)
    ensures Swap16(OnesSum(s)) == Canon(LeSum(s))
  {
    OnesSumIsCanon(s);
    var q := ByteOrder(s);
    if BeSum(s) > 0 {
      var n := CanonOf(BeSum(s));
      SwapResidue(BeSum(s), n, Canon(BeSum(s)), LeSum(s), q);
    }
  }

  lemma SwapResidue(b: nat, n: nat, r: u16, l: nat, q: nat)
    requires b == ONES * n + r && 1 <= r && 0x100 * b == l + ONES * q && l > 0
    ensures Canon(l) == Swap16(r)
  {
    var h, w := r / 0x100, r % 0x100;
    assert r == 0x100 * h + w;
    assert 0x100 * r == ONES * h + Swap16(r);
    CanonIs(l, Swap16(r), 0x100 * n + h - q);
  }

  lemma {:induction false} LeSumAppend(a: seq<u8>, b: seq<u8>)
    requires |a| % 2 == 0
    ensures LeSum(a + b) == LeSum(a) + LeSum(b)
  {
    if a == [] {
      assert a + b == b;
    } else {
      assert (a + b)[2..] == a[2..] + b;
      LeSumAppend(a[2..], b);
    }
  }

  lemma {:induction false} LeSumBound(s: seq<u8>)
    ensures 2 * LeSum(s) <= ONES * (|s| + 1)
    ensures |s| % 2 == 0 ==> 2 * LeSum(s) <= ONES * |s|
    ensures |s| % 2 == 1 ==> 2 * LeSum(s) <= ONES * (|s| - 1) + 0x1FE
  {
    if |s| >= 2 {
      LeSumBound(s[2..]);
    }
  }

  // ----- the code -----

  /** The UDP bytes that the code sums: all of them up to 1480, and one more where there is one. */
  function Summed(p: seq<u8>): seq<u8>
    requires |p| >= PAYLOAD_AT
  {
    p[UDP_AT..if |p| <= UDP_AT + MAX_UDP_SIZE + 1 then |p| else UDP_AT + MAX_UDP_SIZE + 1]
  }

  /** Up to UDP byte 1480, and one more where there is one. */
  lemma SummedIs(p: seq<u8>)
    requires |p| >= PAYLOAD_AT
    ensures Summed(p) == p[34..if |p| <= 1515 then |p| else 1515]
  {
  }

  /** Source and destination address, zero, protocol, UDP length. */
  lemma PseudoHeaderIs(p: seq<u8>)
    requires |p| >= PAYLOAD_AT
    ensures PseudoHeader(p) == [p[26], p[27], p[28], p[29], p[30], p[31], p[32], p[33], 0, p[23], p[38], p[39]]
  {
  }

  function HostSum(p: seq<u8>): nat
    requires |p| >= PAYLOAD_AT
  {
    LeSum(PseudoHeader(p) + Summed(p))
  }

  /** One fold, a truncation to 16 bits, a complement. */
  function Folded(sum: nat): u16 {
    ONES - (sum % 0x1_0000 + sum / 0x1_0000) % 0x1_0000
  }

  lemma PseudoSum(p: seq<u8>)
    requires |p| >= PAYLOAD_AT
    ensures LeSum(PseudoHeader(p)) == Le16(p, 26) + Le16(p, 28) + Le16(p, 30) + Le16(p, 32)
                                   + 0x100 * (p[PROTOCOL_AT] as int) + Le16(p, LEN_AT)
  {
    var h := PseudoHeader(p);
    assert h[2..][2..] == h[4..] && h[4..][2..] == h[6..] && h[6..][2..] == h[8..] && h[8..][2..] == h[10..];
    assert LeSum(h[10..]) == Le16(p, LEN_AT);
    assert LeSum(h[8..]) == 0x100 * (p[PROTOCOL_AT] as int) + LeSum(h[10..]);
    assert LeSum(h[4..]) == Le16(p, 30) + Le16(p, 32) + LeSum(h[8..]);
  }

  lemma HostSumBound(p: seq<u8>)
    requires |p| >= PAYLOAD_AT
    ensures HostSum(p) == LeSum(PseudoHeader(p)) + LeSum(Summed(p))
    ensures HostSum(p) < 746 * 0x1_0000
    ensures LeSum(PseudoHeader(p)) <= 5 * ONES + 0xFF00
  {
    hide LeSum, PseudoHeader;
    LeSumAppend(PseudoHeader(p), Summed(p));
    PseudoSum(p);
    LeSumBound(Summed(p));
  }

  lemma AddIsSum(a: u32, b: u32)
    requires a + b < TWO32
    ensures Add(a, b) == a + b
  {
  }

  lemma Le32Halves(p: seq<u8>, o: nat)
    requires o + 4 <= |p|
    ensures Le32(p, o) % 0x1_0000 == Le16(p, o) && Le32(p, o) / 0x1_0000 == Le16(p, o + 2)
  {
  }

  method CalUdpCsum(pkt: array<u8>) returns (csum: u16)
    requires pkt.Length >= PAYLOAD_AT
    ensures csum == Folded(HostSum(pkt[..]))
  {
    hide LeSum, PseudoHeader, Add, Le16, Le32, HostSum;
    ghost var p := pkt[..];
    HostSumBound(p);
    PseudoSum(p);
    Le32Halves(p, SADDR_AT);
    Le32Halves(p, DADDR_AT);
    var saddr, daddr := Le32(pkt[..], SADDR_AT), Le32(pkt[..], DADDR_AT);
    var a := saddr % 0x1_0000;
    var b := saddr / 0x1_0000;
    var c := daddr % 0x1_0000;
    var d := daddr / 0x1_0000;
    var e: u32 := pkt[PROTOCOL_AT] as int * 0x100;
    var f := Le16(pkt[..], LEN_AT);
    AddIsSum(0, a);
    AddIsSum(a, b);
    AddIsSum(a + b, c);
    AddIsSum(a + b + c, d);
    AddIsSum(a + b + c + d, e);
    AddIsSum(a + b + c + d + e, f);
    var csumBuffer: u32 := 0;
    csumBuffer := Add(csumBuffer, a);
    csumBuffer := Add(csumBuffer, b);
    csumBuffer := Add(csumBuffer, c);
    csumBuffer := Add(csumBuffer, d);
    csumBuffer := Add(csumBuffer, e);
    csumBuffer := Add(csumBuffer, f);
    ghost var pseudo := LeSum(PseudoHeader(p));
    assert csumBuffer == pseudo;
    var buf := UDP_AT;
    var i := 0;
    assert p[UDP_AT..buf] == [];
    LeSumEmpty();
    while i < MAX_UDP_SIZE
      invariant i % 2 == 0 && i <= MAX_UDP_SIZE && buf == UDP_AT + i && buf <= pkt.Length
      invariant csumBuffer == pseudo + LeSum(p[UDP_AT..buf])
      invariant csumBuffer <= 5 * ONES + 0xFF00 + i * ONES
    {
      if buf + 2 > pkt.Length {
        break;
      }
      NextWord(p, buf);
      var word := Le16(pkt[..], buf);
      AddIsSum(csumBuffer, word);
      csumBuffer := Add(csumBuffer, word);
      buf := buf + 2;
      i := i + 2;
    }
    if buf + 1 <= pkt.Length {
      LastByte(p, buf);
      AddIsSum(csumBuffer, pkt[buf]);
      csumBuffer := Add(csumBuffer, pkt[buf]);
      assert Summed(p) == p[UDP_AT..buf + 1];
    } else {
      assert Summed(p) == p[UDP_AT..buf];
    }
    csum := (csumBuffer % 0x1_0000 + csumBuffer / 0x1_0000) % 0x1_0000;
    csum := ONES - csum;
  }

  lemma LeSumEmpty()
    ensures LeSum([]) == 0
  {
  }

  lemma NextWord(p: seq<u8>, buf: nat)
    requires UDP_AT <= buf && buf + 2 <= |p| && (buf - UDP_AT) % 2 == 0
    ensures LeSum(p[UDP_AT..buf + 2]) == LeSum(p[UDP_AT..buf]) + Le16(p, buf)
  {
    var w := p[buf..buf + 2];
    LeSumAppend(p[UDP_AT..buf], w);
    assert p[UDP_AT..buf] + w == p[UDP_AT..buf + 2];
    assert w[2..] == [];
  }

  lemma LastByte(p: seq<u8>, buf: nat)
    requires UDP_AT <= buf < |p| && (buf - UDP_AT) % 2 == 0
    ensures LeSum(p[UDP_AT..buf + 1]) == LeSum(p[UDP_AT..buf]) + p[buf]
  {
    LeSumAppend(p[UDP_AT..buf], [p[buf]]);
    assert p[UDP_AT..buf] + [p[buf]] == p[UDP_AT..buf + 1];
  }
}
