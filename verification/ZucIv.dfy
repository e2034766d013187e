/** What the IV of EEA3 holds, and that different parameters never lead to one internal state. */
module ZucIv {
  import opened Bits
  import opened Words
  import opened Zuc
  import opened ZucRuns
  import opened ZucCipher

  /** The IV of document 1 of the 128-EEA3 specification: counter, five bits of bearer, direction, twice over. */
  lemma Eea3IvFields(count: u32, bearer: u32, direction: u32, i: nat)
    requires i < 16
    ensures Eea3Iv(count, bearer, direction)[i] == (
      if i % 8 == 0 then count / 0x100_0000
      else if i % 8 == 1 then count / 0x1_0000 % 0x100
      else if i % 8 == 2 then count / 0x100 % 0x100
      else if i % 8 == 3 then count % 0x100
      else if i % 8 == 4 then bearer % 32 * 8 + direction % 2 * 4
      else 0)
  {
    hide And, Or, Shl, Shr;
    CountBytes(count);
    BearerByte(bearer, direction);
  }

  lemma CountBytes(count: u32)
    ensures And(Shr(count, 24), 0xFF) == count / 0x100_0000
    ensures And(Shr(count, 16), 0xFF) == count / 0x1_0000 % 0x100
    ensures And(Shr(count, 8), 0xFF) == count / 0x100 % 0x100 && And(count, 0xFF) == count % 0x100
  {
    hide And, Shl, Shr;
    Powers();
    Shifts(count);
    Mask(Shr(count, 24), 0x100);
    Mask(Shr(count, 16), 0x100);
    Mask(Shr(count, 8), 0x100);
    Mask(count, 0x100);
  }

  lemma ByEight(bearer: u32)
    ensures Shl(bearer, 3) == bearer % 0x2000_0000 * 8
  {
    hide Shl;
    assert Pow2(3) == 8;
    Shift(bearer, 3, 8);
  }

  lemma LastBit(direction: u32)
    ensures And(direction, 1) == direction % 2 && Shl(And(direction, 1), 2) == direction % 2 * 4
  {
    hide And, Shl;
    assert Pow2(1) == 2 && Pow2(2) == 4;
    assert PowerOfTwo(2);
    Mask(direction, 2);
    Shift(And(direction, 1), 2, 4);
  }

  lemma KeepSix(x: u32, h: nat, y: nat)
    requires x == h * 8 && y <= 4 && x + y < TWO32
    ensures Or(x, y) == x + y && And(x + y, 0xFC) == (x + y) / 4 % 64 * 4
  {
    hide Or, And;
    assert Pow2(3) == 8 && Pow2(6) == 64 && Pow2(2) == 4;
    assert PowerOfTwo(8);
    Concat(x, h, y, 8);
    AndMask(x + y, 6, 2);
    AndIs(x + y, 0xFC);
  }

  lemma AndIs(x: u32, y: u32)
    ensures And(x, y) == BitAnd(x, y)
  {
  }

  lemma SixBits(bearer: nat, h: nat, d: nat, j: nat, k: nat, b: nat)
    requires bearer == 0x2000_0000 * j + h && h == 32 * k + b && b < 32 && d < 2
    ensures (h * 8 + d * 4) / 4 % 64 * 4 == bearer % 32 * 8 + d * 4
  {
    var m := 2 * b + d;
    assert (h * 8 + d * 4) / 4 == 64 * k + m;
    DivMod(64 * k + m, 64, k, m);
    DivMod(bearer, 32, 0x100_0000 * j + k, b);
  }

  lemma BearerByte(bearer: u32, direction: u32)
    ensures And(Or(Shl(bearer, 3), Shl(And(direction, 1), 2)), 0xFC) == bearer % 32 * 8 + direction % 2 * 4
  {
    hide And, Or, Shl;
    ByEight(bearer);
    LastBit(direction);
    var h, d := bearer % 0x2000_0000, direction % 2;
    KeepSix(h * 8, h, d * 4);
    SixBits(bearer, h, d, bearer / 0x2000_0000, h / 32, h % 32);
  }

  /**
   * Two EEA3 runs share an internal state, the same number of steps in, exactly when they agree on the key,
   * the counter, the low five bits of the bearer and the direction.
   */
  lemma Eea3StatesDistinct(ck: seq<u8>, count: u32, bearer: u32, direction: u32,
        ck': seq<u8>, count': u32, bearer': u32, direction': u32, n: nat)
    requires |ck| == 16 && |ck'| == 16
    ensures WorkSteps(Initialized(ck, Eea3Iv(count, bearer, direction)), n)
         == WorkSteps(Initialized(ck', Eea3Iv(count', bearer', direction')), n)
      <==> ck == ck' && count == count' && bearer % 32 == bearer' % 32 && direction % 2 == direction' % 2
  {
    hide Initialized, WorkSteps, Eea3Iv;
    var iv, iv' := Eea3Iv(count, bearer, direction), Eea3Iv(count', bearer', direction');
    InitialisationInjective(ck, iv, ck', iv', n);
    IvInjective(count, bearer, direction, count', bearer', direction');
  }

  lemma IvInjective(count: u32, bearer: u32, direction: u32, count': u32, bearer': u32, direction': u32)
    ensures Eea3Iv(count, bearer, direction) == Eea3Iv(count', bearer', direction')
      <==> count == count' && bearer % 32 == bearer' % 32 && direction % 2 == direction' % 2
  {
    hide Eea3Iv;
    var iv, iv' := Eea3Iv(count, bearer, direction), Eea3Iv(count', bearer', direction');
    if iv == iv' {
      LeadingFields(count, bearer, direction);
      LeadingFields(count', bearer', direction');
      FieldsDetermine(count, bearer, direction, count', bearer', direction', iv);
    } else if count == count' && bearer % 32 == bearer' % 32 && direction % 2 == direction' % 2 {
      SameFields(count, bearer, direction, bearer', direction');
    }
  }

  lemma SameFields(count: u32, bearer: u32, direction: u32, bearer': u32, direction': u32)
    requires bearer % 32 == bearer' % 32 && direction % 2 == direction' % 2
    ensures Eea3Iv(count, bearer, direction) == Eea3Iv(count, bearer', direction')
  {
    hide Eea3Iv;
    var iv, iv' := Eea3Iv(count, bearer, direction), Eea3Iv(count, bearer', direction');
    forall i | 0 <= i < 16 ensures iv[i] == iv'[i] {
      Eea3IvFields(count, bearer, direction, i);
      Eea3IvFields(count, bearer', direction', i);
    }
  }

  lemma LeadingFields(count: u32, bearer: u32, direction: u32)
    ensures var iv := Eea3Iv(count, bearer, direction);
      && iv[0] == count / 0x100_0000 && iv[1] == count / 0x1_0000 % 0x100
      && iv[2] == count / 0x100 % 0x100 && iv[3] == count % 0x100
      && iv[4] == bearer % 32 * 8 + direction % 2 * 4
  {
    hide Eea3Iv;
    Eea3IvFields(count, bearer, direction, 0);
    Eea3IvFields(count, bearer, direction, 1);
    Eea3IvFields(count, bearer, direction, 2);
    Eea3IvFields(count, bearer, direction, 3);
    Eea3IvFields(count, bearer, direction, 4);
  }

  lemma FieldsDetermine(count: u32, bearer: u32, direction: u32, count': u32, bearer': u32, direction': u32,
        iv: seq<u8>)
    requires |iv| == 16
    requires iv[0] == count / 0x100_0000 == count' / 0x100_0000
    requires iv[1] == count / 0x1_0000 % 0x100 == count' / 0x1_0000 % 0x100
    requires iv[2] == count / 0x100 % 0x100 == count' / 0x100 % 0x100
    requires iv[3] == count % 0x100 == count' % 0x100
    requires iv[4] == bearer % 32 * 8 + direction % 2 * 4 == bearer' % 32 * 8 + direction' % 2 * 4
    ensures count == count' && bearer % 32 == bearer' % 32 && direction % 2 == direction' % 2
  {
    Digits32(count);
    Digits32(count');
  }

  /** EEA3 always runs on one IV: counter 150, bearer 120 modulo 32, direction 1. */
  lemma Eea3FixedIv(ck: seq<u8>, n: nat)
    requires |ck| == 16
    ensures Eea3Keystream(ck, n)
         == Keystream(ck, [0, 0, 0, 0x96, 0xC4, 0, 0, 0, 0, 0, 0, 0x96, 0xC4, 0, 0, 0], n)
  {
    hide Eea3Iv, Keystream;
    var iv := Eea3Iv(150, 120, 1);
    var fixed: seq<u8> := [0, 0, 0, 0x96, 0xC4, 0, 0, 0, 0, 0, 0, 0x96, 0xC4, 0, 0, 0];
    forall i | 0 <= i < 16 ensures iv[i] == fixed[i] {
      Eea3IvFields(150, 120, 1, i);
    }
    assert iv == fixed;
  }
}
