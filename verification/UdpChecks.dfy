/** When the code's checksum is the RFC's, and which replies still verify. */
module UdpChecks {
  import opened Words
  import opened Packets
  import opened Checksum

  /** The two halves that the single fold adds. */
  function Fold(sum: nat): nat {
    sum % 0x1_0000 + sum / 0x1_0000
  }

  /** Swapping bytes commutes with complementing. */
  lemma SwapComplement(x: u16)
    ensures Swap16(ONES - x) == ONES - Swap16(x)
  {
    var h, l := x / 0x100, x % 0x100;
    assert ONES - x == 0x100 * (0xFF - h) + (0xFF - l);
    assert (ONES - x) / 0x100 == 0xFF - h && (ONES - x) % 0x100 == 0xFF - l;
  }

  lemma SwapBytes(x: u16, y: u16)
    ensures y == Swap16(x) <==> y % 0x100 == x / 0x100 && y / 0x100 == x % 0x100
  {
  }

  lemma FoldCanon(sum: nat)
    requires sum < 746 * 0x1_0000
    ensures Fold(sum) <= ONES ==> Canon(sum) == Fold(sum)
    ensures Fold(sum) > ONES ==> Canon(sum) == Fold(sum) - ONES
  {
    var hi := sum / 0x1_0000;
    assert sum == ONES * hi + Fold(sum);
    if sum > 0 {
      if Fold(sum) <= ONES {
        CanonIs(sum, Fold(sum), hi);
      } else {
        CanonIs(sum, Fold(sum) - ONES, hi + 1);
      }
    }
  }

  /**
   * caludpcsum against RFC 768, for every frame, over the bytes that it sums: stored little-endian, its result
   * puts the RFC's two bytes on the wire exactly when the fold has no carry to drop, and otherwise it is
   * one more than the number that would. The high half of the accumulator never exceeds 745.
   */
  lemma ChecksumOfSummed(p: seq<u8>)
    requires PAYLOAD_AT <= |p|
    ensures var rfc := Rfc768(p, Summed(p));
      var csum := Folded(HostSum(p));
      && (Fold(HostSum(p)) <= ONES <==> csum % 0x100 == rfc / 0x100 && csum / 0x100 == rfc % 0x100)
      && csum == Swap16(rfc) + if Fold(HostSum(p)) <= ONES then 0 else 1
    ensures HostSum(p) / 0x1_0000 <= 745
  {
    hide OnesSum, LeSum, PseudoHeader, Canon, Swap16, Summed;
    var s := PseudoHeader(p) + Summed(p);
    HostSumBound(p);
    SwapCanon(s);
    SwapComplement(OnesSum(s));
    FoldCanon(HostSum(p));
    SwapBytes(Rfc768(p, Summed(p)), Folded(HostSum(p)));
  }

  /** Up to 1481 UDP bytes the code sums all of them. */
  lemma ChecksumExact(p: seq<u8>)
    requires PAYLOAD_AT <= |p| <= UDP_AT + MAX_UDP_SIZE + 1
    ensures var rfc := Rfc768(p, p[UDP_AT..]);
      var csum := Folded(HostSum(p));
      && (Fold(HostSum(p)) <= ONES <==> csum % 0x100 == rfc / 0x100 && csum / 0x100 == rfc % 0x100)
      && csum == Swap16(rfc) + if Fold(HostSum(p)) <= ONES then 0 else 1
    ensures HostSum(p) / 0x1_0000 <= 745
  {
    hide Rfc768, Swap16, HostSum;
    ChecksumOfSummed(p);
    assert Summed(p) == p[UDP_AT..];
  }

  lemma HostSumIs(p: seq<u8>)
    requires PAYLOAD_AT <= |p| <= UDP_AT + MAX_UDP_SIZE + 1
    ensures HostSum(p) == LeSum(PseudoHeader(p) + p[UDP_AT..])
  {
    hide LeSum, PseudoHeader;
    assert Summed(p) == p[UDP_AT..];
  }

  // ----- frames whose checksum verifies -----

  /** The UDP length field covers the header and fits in the frame. */
  predicate WellSized(p: seq<u8>) {
    |p| >= PAYLOAD_AT && 8 <= Be16(p, LEN_AT) && UDP_AT + Be16(p, LEN_AT) <= |p|
  }

  function Datagram(p: seq<u8>): seq<u8>
    requires WellSized(p)
  {
    p[UDP_AT..UDP_AT + Be16(p, LEN_AT)]
  }

  /** RFC 768 at the receiver: the one's complement sum, check field included, is all ones. */
  predicate Verifies(p: seq<u8>)
    requires WellSized(p)
  {
    OnesSum(PseudoHeader(p) + Datagram(p)) == ONES
  }

  lemma VerifiesInHostOrder(p: seq<u8>)
    requires WellSized(p)
    ensures Verifies(p) <==> Canon(LeSum(PseudoHeader(p) + Datagram(p))) == ONES
  {
    hide OnesSum, LeSum, PseudoHeader, Canon;
    var s := PseudoHeader(p) + Datagram(p);
    SwapCanon(s);
    SwapBytes(OnesSum(s), ONES);
  }

  lemma SwapKeepsLength(p: seq<u8>)
    requires WellSized(p)
    ensures WellSized(Swapped(p)) && Be16(Swapped(p), LEN_AT) == Be16(p, LEN_AT)
    ensures Le16(Swapped(p), LEN_AT) == Le16(p, LEN_AT) && Swapped(p)[PROTOCOL_AT] == p[PROTOCOL_AT]
  {
    hide Swapped;
    SwappedBytes(p, 38);
    SwappedBytes(p, 39);
    SwappedBytes(p, PROTOCOL_AT);
  }

  lemma SwappedWord(p: seq<u8>, o: nat)
    requires |p| >= PAYLOAD_AT && o + 2 <= |p| && Source(o + 1) == Source(o) + 1 && Source(o) + 2 <= |p|
    ensures Le16(Swapped(p), o) == Le16(p, Source(o))
  {
    hide Swapped;
    SwappedBytes(p, o);
    SwappedBytes(p, o + 1);
  }

  lemma PseudoSwapped(p: seq<u8>)
    requires WellSized(p)
    ensures LeSum(PseudoHeader(Swapped(p))) == LeSum(PseudoHeader(p))
  {
    hide Swapped, LeSum, PseudoHeader, Le16;
    SwapKeepsLength(p);
    PseudoSum(p);
    PseudoSum(Swapped(p));
    SwappedWord(p, 26);
    SwappedWord(p, 28);
    SwappedWord(p, 30);
    SwappedWord(p, 32);
  }

  /** The sum of the datagram as its two ports and the rest. */
  lemma PortsFirst(p: seq<u8>)
    requires WellSized(p)
    ensures LeSum(Datagram(p)) == Le16(p, 34) + Le16(p, 36) + LeSum(p[38..UDP_AT + Be16(p, LEN_AT)])
  {
    hide LeSum;
    NextWord(p, 34);
    NextWord(p, 36);
    assert p[34..34] == [];
    LeSumEmpty();
    var end := UDP_AT + Be16(p, LEN_AT);
    LeSumAppend(p[34..38], p[38..end]);
    assert p[34..38] + p[38..end] == Datagram(p);
  }

  lemma RestSwapped(p: seq<u8>, end: nat)
    requires |p| >= PAYLOAD_AT && 38 <= end <= |p|
    ensures Swapped(p)[38..end] == p[38..end]
  {
    hide Swapped;
    forall i | 38 <= i < end ensures Swapped(p)[i] == p[i] {
      SwappedBytes(p, i);
    }
  }

  /** Exchanging addresses and ports keeps the checksum's sum, so a reply verifies iff its request did. */
  lemma SwapKeepsVerifying(p: seq<u8>)
    requires WellSized(p)
    ensures WellSized(Swapped(p))
    ensures Verifies(Swapped(p)) <==> Verifies(p)
  {
    hide Swapped, LeSum, PseudoHeader, Canon, Le16, Be16, Verifies;
    var q := Swapped(p);
    SwapKeepsLength(p);
    PseudoSwapped(p);
    SwappedWord(p, 34);
    SwappedWord(p, 36);
    PortsFirst(p);
    PortsFirst(q);
    RestSwapped(p, UDP_AT + Be16(p, LEN_AT));
    LeSumAppend(PseudoHeader(p), Datagram(p));
    LeSumAppend(PseudoHeader(q), Datagram(q));
    VerifiesInHostOrder(p);
    VerifiesInHostOrder(q);
  }

  // ----- a recomputed check field -----

  function WithCheck(p: seq<u8>, csum: u16): (r: seq<u8>)
    requires |p| >= PAYLOAD_AT
    ensures |r| == |p|
  {
    p[CHECK_AT := csum % 0x100][CHECK_AT + 1 := csum / 0x100]
  }

  /** Filling an empty check field adds the value filled in to the datagram's sum. */
  lemma CheckAdds(p: seq<u8>, csum: u16)
    requires WellSized(p) && p[CHECK_AT] == 0 && p[CHECK_AT + 1] == 0
    ensures var q := WithCheck(p, csum);
      && WellSized(q) && Be16(q, LEN_AT) == Be16(p, LEN_AT)
      && LeSum(PseudoHeader(q) + Datagram(q)) == LeSum(PseudoHeader(p) + Datagram(p)) + csum
  {
    hide LeSum;
    var q := WithCheck(p, csum);
    var end := UDP_AT + Be16(p, LEN_AT);
    assert PseudoHeader(q) == PseudoHeader(p);
    hide PseudoHeader;
    LeSumAppend(PseudoHeader(p), p[34..end]);
    LeSumAppend(PseudoHeader(p), q[34..end]);
    LeSumAppend(p[34..42], p[42..end]);
    LeSumAppend(q[34..42], q[42..end]);
    assert p[34..42] + p[42..end] == p[34..end] && q[34..42] + q[42..end] == q[34..end];
    assert p[42..end] == q[42..end] && p[34..40] == q[34..40];
    NextWord(p, 40);
    NextWord(q, 40);
    assert Le16(q, 40) == csum;
  }

  /** How much more the code sums than the datagram: what it takes of the bytes behind, less what it leaves out. */
  function Excess(p: seq<u8>): int
    requires WellSized(p)
  {
    HostSum(p) - LeSum(PseudoHeader(p) + Datagram(p))
  }

  lemma LengthCounts(p: seq<u8>)
    requires WellSized(p)
    ensures LeSum(PseudoHeader(p) + Datagram(p)) > 0
  {
    hide LeSum, PseudoHeader;
    PseudoSum(p);
    LeSumAppend(PseudoHeader(p), Datagram(p));
  }

  /**
   * A check field filled by the code, in any frame whose length field fits: it verifies exactly when what was
   * summed beyond the datagram is 0 modulo 65535 and the fold had no carry to drop, or is 1 and it had one.
   */
  lemma FilledVerifies(p: seq<u8>)
    requires WellSized(p) && p[CHECK_AT] == 0 && p[CHECK_AT + 1] == 0
    ensures var q := WithCheck(p, Folded(HostSum(p)));
      WellSized(q) && (Verifies(q) <==> Excess(p) % ONES == if Fold(HostSum(p)) <= ONES then 0 else 1)
  {
    hide LeSum, PseudoHeader, Canon, HostSum, Verifies, Datagram, Folded, Fold;
    var csum := Folded(HostSum(p));
    CheckAdds(p, csum);
    HostSumBound(p);
    LengthCounts(p);
    VerifiesInHostOrder(WithCheck(p, csum));
    FilledResidue(HostSum(p), LeSum(PseudoHeader(p) + Datagram(p)));
  }

  lemma FilledResidue(sum: nat, own: nat)
    requires sum < 746 * 0x1_0000 && own > 0
    ensures Canon(own + Folded(sum)) == ONES <==> (sum - own) % ONES == if Fold(sum) <= ONES then 0 else 1
  {
    var hi, t := sum / 0x1_0000, Fold(sum);
    assert sum == ONES * hi + t;
    if t <= ONES {
      CanonTop(own + Folded(sum), sum - own, hi + 1, 0);
    } else {
      CanonTop(own + Folded(sum), sum - own, hi + 2, 1);
    }
  }

  /** x is a multiple of 65535 exactly when its complement modulo 65535, less r, is. */
  lemma CanonTop(x: nat, d: int, n: nat, r: nat)
    requires x > 0 && x + d == ONES * n + r && r <= 1
    ensures Canon(x) == ONES <==> d % ONES == r
  {
    if Canon(x) == ONES {
      var q := CanonOf(x);
      OnesMod(d, n - q - 1, r);
    }
    if d % ONES == r {
      var q := d / ONES;
      assert x == ONES * (n - q);
      CanonIs(x, ONES, n - q - 1);
    }
  }

  lemma OnesMod(d: int, q: int, r: nat)
    requires d == ONES * q + r && r < ONES
    ensures d % ONES == r
  {
  }

  /** A frame that ends with its datagram, and is not longer than the loop goes, has no excess. */
  lemma NoExcess(p: seq<u8>)
    requires WellSized(p) && |p| == UDP_AT + Be16(p, LEN_AT) <= UDP_AT + MAX_UDP_SIZE + 1
    ensures Excess(p) == 0
  {
    hide LeSum, PseudoHeader;
    HostSumIs(p);
    assert Datagram(p) == p[UDP_AT..];
  }

  /** Behind a datagram of even length, the excess is the sum of the bytes that follow, up to byte 1481. */
  lemma TrailingExcess(p: seq<u8>, end: nat)
    requires WellSized(p) && Be16(p, LEN_AT) % 2 == 0 && Be16(p, LEN_AT) <= MAX_UDP_SIZE
    requires end == if |p| <= UDP_AT + MAX_UDP_SIZE + 1 then |p| else UDP_AT + MAX_UDP_SIZE + 1
    ensures Excess(p) == LeSum(p[UDP_AT + Be16(p, LEN_AT)..end])
  {
    hide LeSum, PseudoHeader;
    var cut := UDP_AT + Be16(p, LEN_AT);
    LeSumAppend(PseudoHeader(p), Datagram(p));
    LeSumAppend(PseudoHeader(p), Summed(p));
    LeSumAppend(p[UDP_AT..cut], p[cut..end]);
    assert p[UDP_AT..cut] + p[cut..end] == Summed(p);
  }

  // ----- the fold does drop carries -----

  /** A frame of the size that kvstore works on: no addresses, empty check field, content 0xDEF8FFFF, else zeros. */
  function DroppingFrame(): seq<u8> {
    seq(1066, i => if i == 50 || i == 51 then 0xFF else if i == 52 then 0xF8 else if i == 53 then 0xDE
                   else if i == 23 then 17 else if i == 38 then 4 else if i == 39 then 8 else 0)
  }

  lemma {:induction false} ZeroSum(s: seq<u8>)
    requires forall i :: 0 <= i < |s| ==> s[i] == 0
    ensures LeSum(s) == 0
  {
    if |s| >= 2 {
      ZeroSum(s[2..]);
    }
  }

  /** The sum of the UDP bytes of a frame that is zero but for length, check field and third payload word. */
  lemma SparseSum(p: seq<u8>)
    requires |p| == 1066 && forall i :: 34 <= i < 1066 && !(38 <= i < 42) && !(50 <= i < 54) ==> p[i] == 0
    ensures LeSum(p[34..]) == Le16(p, 38) + Le16(p, 40) + Le16(p, 50) + Le16(p, 52)
  {
    hide LeSum;
    ZeroSum(p[34..38]);
    NextWord(p, 38);
    NextWord(p, 40);
    LeSumAppend(p[34..42], p[42..50]);
    ZeroSum(p[42..50]);
    assert p[34..42] + p[42..50] == p[34..50];
    NextWord(p, 50);
    NextWord(p, 52);
    LeSumAppend(p[34..54], p[54..]);
    ZeroSum(p[54..]);
    assert p[34..54] + p[54..] == p[34..];
  }

  lemma NoAddresses(p: seq<u8>)
    requires |p| >= PAYLOAD_AT && forall i :: 26 <= i < 34 ==> p[i] == 0
    requires p[PROTOCOL_AT] == 17 && p[38] == 4 && p[39] == 8
    ensures LeSum(PseudoHeader(p)) == 0x1904
  {
    hide LeSum, PseudoHeader;
    PseudoSum(p);
  }

  /** On it the fold drops a carry: the wire gets FF FF where RFC 768 puts FE FF. */
  lemma DroppedCarry()
    ensures var p := DroppingFrame();
      Accepted(p) && HostSum(p) == 0x1_FFFF && Folded(HostSum(p)) == 0xFFFF && Rfc768(p, p[UDP_AT..]) == 0xFEFF
  {
    hide OnesSum, LeSum, PseudoHeader, Canon, HostSum;
    var p := DroppingFrame();
    HostSumIs(p);
    LeSumAppend(PseudoHeader(p), p[UDP_AT..]);
    NoAddresses(p);
    SparseSum(p);
    ChecksumExact(p);
  }
}
