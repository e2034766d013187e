/** The cipher as the C code runs it: global registers that every routine updates in place, and EEA3 on top. */
module ZucCipher {
  import opened Bits
  import opened Words
  import opened Mersenne
  import opened Rotations
  import opened Sboxes
  import opened Zuc
  import opened ZucRuns

  type Lfsr = s: seq<u32> | |s| == 16 witness seq(16, _ => 0)

  class Cipher {
    // LFSR_S0 to LFSR_S15
    var lfsr: Lfsr
    // F_R1 and F_R2
    var r1: u32
    var r2: u32
    // BRC_X0 to BRC_X3, filled by BitReorganization
    var x0: u32
    var x1: u32
    var x2: u32
    var x3: u32

    ghost function Registers(): (st: State)
      reads this
      ensures |st.s| == 16
    {
      State(lfsr, r1, r2)
    }

    /** start is what the routine's local variable f, which it never assigns, holds on entry. */
    method LFSRWithInitialisationMode(start: u32, u: u32)
      modifies `lfsr
      ensures lfsr == InitLfsrFrom(start, old(lfsr), u)
    {
      hide AddM, MulByPow2;
      var f := start;
      var v := MulByPow2(f, 8);
      f := AddM(f, v);
      v := MulByPow2(lfsr[4], 20);
      f := AddM(f, v);
      v := MulByPow2(lfsr[10], 21);
      f := AddM(f, v);
      v := MulByPow2(lfsr[13], 17);
      f := AddM(f, v);
      v := MulByPow2(lfsr[15], 15);
      f := AddM(f, v);
      f := AddM(f, u);
      // every cell takes its neighbour's value and the last one takes f
      lfsr := lfsr[1..] + [f];
    }

    method LFSRWithWorkMode()
      modifies `lfsr
      ensures lfsr == WorkLfsr(old(lfsr))
    {
      hide AddM, MulByPow2;
      var f := lfsr[0];
      var v := MulByPow2(lfsr[0], 8);
      f := AddM(f, v);
      v := MulByPow2(lfsr[4], 20);
      f := AddM(f, v);
      v := MulByPow2(lfsr[10], 21);
      f := AddM(f, v);
      v := MulByPow2(lfsr[13], 17);
      f := AddM(f, v);
      v := MulByPow2(lfsr[15], 15);
      f := AddM(f, v);
      lfsr := lfsr[1..] + [f];
    }

    method BitReorganization()
      modifies `x0, `x1, `x2, `x3
      ensures x0 == X0(lfsr) && x1 == X1(lfsr) && x2 == X2(lfsr) && x3 == X3(lfsr)
    {
      hide And, Or, Shl, Shr;
      x0 := Or(Shl(And(lfsr[15], 0x7FFF_8000), 1), And(lfsr[14], 0xFFFF));
      x1 := Or(Shl(And(lfsr[11], 0xFFFF), 16), Shr(lfsr[9], 15));
      x2 := Or(Shl(And(lfsr[7], 0xFFFF), 16), Shr(lfsr[5], 15));
      x3 := Or(Shl(And(lfsr[2], 0xFFFF), 16), Shr(lfsr[0], 15));
    }

    method RunF() returns (w: u32)
      modifies `r1, `r2
      ensures FResult(w, r1, r2) == F(x0, x1, x2, old(r1), old(r2))
    {
      hide Xor, Add, Or, Shl, Shr, L1, L2, Byte0, Byte1, Byte2, Byte3, S0, S1, MakeU32;
      w := Add(Xor(x0, r1), r2);
      var w1 := Add(r1, x1);
      var w2 := Xor(r2, x2);
      var u := L1(Or(Shl(w1, 16), Shr(w2, 16)));
      var v := L2(Or(Shl(w2, 16), Shr(w1, 16)));
      r1 := MakeU32(S0(Byte3(u)), S1(Byte2(u)), S0(Byte1(u)), S1(Byte0(u)));
      r2 := MakeU32(S0(Byte3(v)), S1(Byte2(v)), S0(Byte1(v)), S1(Byte0(v)));
    }

    method Initialization(k: array<u8>, iv: array<u8>)
      requires k.Length == 16 && iv.Length == 16
      modifies this
      ensures Registers() == Initialized(k[..], iv[..])
    {
      hide InitLfsrFrom, F, X0, X1, X2, X3, Shr, LoadKey;
      lfsr := LoadKey(k[..], iv[..]);
      r1 := 0;
      r2 := 0;
      ghost var loaded := State(LoadKey(k[..], iv[..]), 0, 0);
      var nCount := 32;
      while nCount > 0
        invariant 0 <= nCount <= 32
        invariant Registers() == InitSteps(loaded, 32 - nCount)
      {
        BitReorganization();
        var w := RunF();
        LFSRWithInitialisationMode(lfsr[0], Shr(w, 1));
        nCount := nCount - 1;
      }
    }

    method GenerateKeystream(ks: array<u32>, len: int)
      requires len <= ks.Length
      modifies this, ks
      ensures var n := if len > 0 then len else 0;
        && ks[..n] == Stream(WorkStep(old(Registers())), n)
        && ks[n..] == old(ks[n..])
        && Registers() == WorkSteps(old(Registers()), n + 1)
    {
      hide WorkLfsr, F, X0, X1, X2, X3, Xor;
      ghost var first := WorkStep(Registers());
      BitReorganization();
      var dropped := RunF();
      LFSRWithWorkMode();
      WorkStepsAdd(old(Registers()), 1, 0);
      assert Registers() == first;
      var i := 0;
      while i < len
        invariant 0 <= i && (i <= len || i == 0)
        invariant Registers() == WorkSteps(first, i)
        invariant ks[..i] == Stream(first, i)
        invariant ks[i..] == old(ks[i..])
      {
        BitReorganization();
        var w := RunF();
        ks[i] := Xor(w, x3);
        LFSRWithWorkMode();
        assert ks[..i + 1] == ks[..i] + [ks[i]];
        i := i + 1;
      }
      WorkStepsAdd(old(Registers()), 1, i);
      assert WorkSteps(old(Registers()), 1) == first;
    }

    method ZUC(k: array<u8>, iv: array<u8>, ks: array<u32>, len: nat)
      requires k.Length == 16 && iv.Length == 16 && len <= ks.Length
      modifies this, ks
      ensures ks[..len] == Keystream(k[..], iv[..], len)
      ensures ks[len..] == old(ks[len..])
    {
      hide Initialized, WorkStep, Stream, WorkSteps;
      Initialization(k, iv);
      GenerateKeystream(ks, len);
    }

    /** Encrypts or decrypts the first WordCount(length) words of m into c; m and c may be one buffer. */
    method EEA3(ck: array<u8>, length: u32, m: array<u32>, c: array<u32>)
      requires ck.Length == 16
      requires WordCount(length) <= m.Length && WordCount(length) <= c.Length
      modifies this, c
      ensures c[..] == Eea3(ck[..], WordCount(length), old(m[..]), old(c[..]))
    {
      hide Eea3Iv, Xor, Keystream;
      var bearer: u32, count: u32, direction: u32 := 120, 150, 1;
      var l := Add(length, 31) / 32;
      var z := new u32[l];
      var iv := new u8[16](i requires 0 <= i < 16 => Eea3Iv(count, bearer, direction)[i]);
      assert iv[..] == Eea3Iv(count, bearer, direction);
      ZUC(ck, iv, z, l);
      assert z[..l] == Eea3Keystream(ck[..], l);
      ghost var result := Eea3(ck[..], l, old(m[..]), old(c[..]));
      var i := 0;
      while i < l
        invariant 0 <= i <= l
        invariant forall j :: 0 <= j < i ==> c[j] == result[j]
        invariant forall j :: i <= j < c.Length ==> c[j] == old(c[j])
        invariant forall j :: i <= j < m.Length ==> m[j] == old(m[j])
        modifies c
      {
        assert z[i] == z[..l][i];
        assert result[i] == Xor(old(m[i]), z[i]);
        c[i] := Xor(m[i], z[i]);
        i := i + 1;
      }
      assert c[..] == result;
    }
  }

  // ----- EEA3 as a function of its inputs -----

  /** The number of 32-bit words processed; the addition is on 32-bit words. */
  function WordCount(length: u32): nat {
    Add(length, 31) / 32
  }

  function Eea3Iv(count: u32, bearer: u32, direction: u32): (iv: seq<u8>)
    ensures |iv| == 16
  {
    var half: seq<u8> := [
      And(Shr(count, 24), 0xFF), And(Shr(count, 16), 0xFF), And(Shr(count, 8), 0xFF), And(count, 0xFF),
      And(Or(Shl(bearer, 3), Shl(And(direction, 1), 2)), 0xFC), 0, 0, 0
    ];
    half + half
  }

  function Eea3Keystream(ck: seq<u8>, n: nat): (z: seq<u32>)
    requires |ck| == 16
    ensures |z| == n
  {
    Keystream(ck, Eea3Iv(150, 120, 1), n)
  }

  /** n words of m under the key stream, and the other words of c as they were. */
  function Eea3(ck: seq<u8>, n: nat, m: seq<u32>, c: seq<u32>): (r: seq<u32>)
    requires |ck| == 16 && n <= |m| && n <= |c|
    ensures |r| == |c|
  {
    seq(|c|, i requires 0 <= i < |c| => if i < n then Xor(m[i], Eea3Keystream(ck, n)[i]) else c[i])
  }

  // ----- what EEA3 is for -----

  lemma Eea3Word(ck: seq<u8>, n: nat, m: seq<u32>, c: seq<u32>, i: nat)
    requires |ck| == 16 && n <= |m| && n <= |c| && i < |c|
    ensures Eea3(ck, n, m, c)[i] == if i < n then Xor(m[i], Eea3Keystream(ck, n)[i]) else c[i]
  {
    hide Eea3Keystream, Xor;
  }

  /**
   * Applying EEA3 to its own output under the same key and LENGTH restores the processed words, and the
   * other words of the second output buffer keep what they held.
   */
  lemma Eea3Undoes(ck: seq<u8>, n: nat, m: seq<u32>, c: seq<u32>, d: seq<u32>)
    requires |ck| == 16 && n <= |m| && n <= |c| && n <= |d|
    ensures Eea3(ck, n, Eea3(ck, n, m, c), d) == m[..n] + d[n..]
  {
    hide Eea3, Eea3Keystream, Xor;
    var e := Eea3(ck, n, m, c);
    var r := Eea3(ck, n, e, d);
    forall i | 0 <= i < |d| ensures r[i] == (m[..n] + d[n..])[i] {
      Eea3Word(ck, n, e, d, i);
      if i < n {
        Eea3Word(ck, n, m, c, i);
        XorCancels(m[i], Eea3Keystream(ck, n)[i]);
      }
    }
  }

  /** Encrypting fewer words gives a prefix of encrypting more. */
  lemma Eea3Prefix(ck: seq<u8>, n: nat, n': nat, m: seq<u32>, c: seq<u32>)
    requires |ck| == 16 && n <= n' <= |m| && n' <= |c|
    ensures Eea3(ck, n, m, c)[..n] == Eea3(ck, n', m, c)[..n]
  {
    hide Eea3, Stream, Initialized, WorkStep, Eea3Iv, Xor;
    StreamPrefix(WorkStep(Initialized(ck, Eea3Iv(150, 120, 1))), n, n');
    forall i | 0 <= i < n ensures Eea3(ck, n, m, c)[i] == Eea3(ck, n', m, c)[i] {
      Eea3Word(ck, n, m, c, i);
      Eea3Word(ck, n', m, c, i);
      assert Eea3Keystream(ck, n)[i] == Eea3Keystream(ck, n')[..n][i];
    }
  }

  // ----- bits -----

  /** Bit i of a bit string held in words, most significant bit of each word first. */
  predicate Bit(w: seq<u32>, i: nat)
    requires i < 32 * |w|
  {
    Odd(Right(w[i / 32], 31 - i % 32))
  }

  /** Each of the first LENGTH bits of the output is the message bit exclusive-or the key stream bit. */
  lemma Eea3Bits(ck: seq<u8>, length: u32, m: seq<u32>, c: seq<u32>, i: nat)
    requires |ck| == 16 && length <= TWO32 - 32
    requires WordCount(length) <= |m| && WordCount(length) <= |c| && i < length
    ensures i < 32 * WordCount(length)
    ensures Bit(Eea3(ck, WordCount(length), m, c), i)
         == (Bit(m, i) != Bit(Eea3Keystream(ck, WordCount(length)), i))
  {
    hide Eea3, Eea3Keystream, Xor, WordCount;
    WordCountRoundsUp(length);
    var n, j := WordCount(length), i / 32;
    Eea3Word(ck, n, m, c, j);
    XorIs(m[j], Eea3Keystream(ck, n)[j]);
    XorDigit(m[j], Eea3Keystream(ck, n)[j], 31 - i % 32);
  }

  /** WordCount rounds LENGTH up to whole words exactly while LENGTH + 31 does not wrap. */
  lemma WordCountRoundsUp(length: u32)
    ensures 32 * WordCount(length) >= length <==> length <= TWO32 - 32
    ensures length <= TWO32 - 32 ==> 32 * WordCount(length) < length + 32
    ensures length > TWO32 - 32 ==> WordCount(length) == 0
  {
  }

  /** Two calls of the method, the second one in place, give the message back. */
  method RoundTrip(a: Cipher, b: Cipher, ck: array<u8>, length: u32, m: array<u32>, c: array<u32>)
    requires ck.Length == 16 && m != c
    requires WordCount(length) <= m.Length && WordCount(length) <= c.Length
    modifies a, b, c
    ensures c[..] == m[..WordCount(length)] + old(c[WordCount(length)..])
  {
    hide Eea3;
    ghost var n, before, key := WordCount(length), c[..], ck[..];
    a.EEA3(ck, length, m, c);
    ghost var mid := c[..];
    b.EEA3(ck, length, c, c);
    Eea3Undoes(key, n, m[..], before, mid);
    forall i | n <= i < c.Length ensures mid[i] == before[i] {
      Eea3Word(key, n, m[..], before, i);
    }
    assert mid[n..] == before[n..];
  }
}
