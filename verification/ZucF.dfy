/** F's register update is a permutation of (F_R1, F_R2) for every X1 and X2. */
module ZucF {
  import opened Words
  import opened Rotations
  import opened Sboxes
  import opened Zuc

  // ----- bytes of a word -----

  lemma Above(x: u32, h: nat, y: u32, d: nat)
    requires (d == 0x100 || d == 0x1_0000 || d == 0x100_0000) && x == h * d && y < d
    ensures Or(x, y) == x + y
  {
    hide Or;
    Powers();
    Concat(x, h, y, d);
  }

  lemma ByteShifts(a: u8)
    ensures Shl(a, 24) == a * 0x100_0000 && Shl(a, 16) == a * 0x1_0000 && Shl(a, 8) == a * 0x100
  {
    hide Shl, Shr;
    Shifts(a);
  }

  lemma MakeU32IsSum(a: u8, b: u8, c: u8, d: u8)
    ensures MakeU32(a, b, c, d) == a * 0x100_0000 + b * 0x1_0000 + c * 0x100 + d
  {
    hide Shl, Or;
    ByteShifts(a);
    ByteShifts(b);
    ByteShifts(c);
    var x, y, z := a * 0x100_0000, b * 0x1_0000, c * 0x100;
    Above(x, a, y, 0x100_0000);
    Above(x + y, a * 0x100 + b, z, 0x1_0000);
    Above(x + y + z, a * 0x1_0000 + b * 0x100 + c, d, 0x100);
  }

  lemma BytesAre(u: u32)
    ensures Byte3(u) == u / 0x100_0000 && Byte2(u) == u / 0x1_0000 % 0x100
    ensures Byte1(u) == u / 0x100 % 0x100 && Byte0(u) == u % 0x100
  {
    hide And, Shr;
    Powers();
    Shifts(u);
    Mask(Shr(u, 16), 0x100);
    Mask(Shr(u, 8), 0x100);
    Mask(u, 0x100);
  }

  lemma BytesSum(u: u32)
    ensures u == Byte3(u) * 0x100_0000 + Byte2(u) * 0x1_0000 + Byte1(u) * 0x100 + Byte0(u)
  {
    hide Byte3, Byte2, Byte1, Byte0;
    BytesAre(u);
    Digits32(u);
  }

  lemma DigitsUnique(a: u8, b: u8, c: u8, d: u8, a': u8, b': u8, c': u8, d': u8)
    requires a * 0x100_0000 + b * 0x1_0000 + c * 0x100 + d == a' * 0x100_0000 + b' * 0x1_0000 + c' * 0x100 + d'
    ensures a == a' && b == b' && c == c' && d == d'
  {
    assert a == a';
    assert b == b';
  }

  lemma BytesOfMake(a: u8, b: u8, c: u8, d: u8)
    ensures var u := MakeU32(a, b, c, d);
      Byte3(u) == a && Byte2(u) == b && Byte1(u) == c && Byte0(u) == d
  {
    hide MakeU32, Byte3, Byte2, Byte1, Byte0;
    var u := MakeU32(a, b, c, d);
    MakeU32IsSum(a, b, c, d);
    BytesSum(u);
    DigitsUnique(a, b, c, d, Byte3(u), Byte2(u), Byte1(u), Byte0(u));
  }

  lemma MakeOfBytes(u: u32)
    ensures MakeU32(Byte3(u), Byte2(u), Byte1(u), Byte0(u)) == u
  {
    hide MakeU32, Byte3, Byte2, Byte1, Byte0;
    BytesSum(u);
    MakeU32IsSum(Byte3(u), Byte2(u), Byte1(u), Byte0(u));
  }

  // ----- the S-box layer -----

  function Unsubstitute(y: u32): u32 {
    MakeU32(S0Inverse(Byte3(y)), S1Inverse(Byte2(y)), S0Inverse(Byte1(y)), S1Inverse(Byte0(y)))
  }

  lemma SubstituteBijective(u: u32)
    ensures Unsubstitute(Substitute(u)) == u
    ensures Substitute(Unsubstitute(u)) == u
  {
    hide MakeU32, Byte3, Byte2, Byte1, Byte0, S0, S1, S0Inverse, S1Inverse;
    var a, b, c, d := Byte3(u), Byte2(u), Byte1(u), Byte0(u);
    MakeOfBytes(u);
    BytesOfMake(S0(a), S1(b), S0(c), S1(d));
    BytesOfMake(S0Inverse(a), S1Inverse(b), S0Inverse(c), S1Inverse(d));
    S0Bijective(a);
    S1Bijective(b);
    S0Bijective(c);
    S1Bijective(d);
  }

  // ----- the half-word exchange -----

  /** The low half of a above the high half of b. */
  function Mix(a: u32, b: u32): u32 {
    Or(Shl(a, 16), Shr(b, 16))
  }

  lemma MixParts(a: u32, ah: nat, al: nat, b: u32, bh: nat, bl: nat)
    requires a == ah * 0x1_0000 + al && al < 0x1_0000
    requires b == bh * 0x1_0000 + bl && bl < 0x1_0000
    ensures Mix(a, b) == al * 0x1_0000 + bh
  {
    hide Or, Shl, Shr;
    Powers();
    Shifts(a);
    Shifts(b);
    ModIs(a * 0x1_0000, ah, al * 0x1_0000);
    Concat(al * 0x1_0000, al, Shr(b, 16), 0x1_0000);
  }

  lemma MixTwice(a: u32, b: u32)
    ensures Mix(Mix(b, a), Mix(a, b)) == a
  {
    hide Mix;
    var ah, al, bh, bl := a / 0x1_0000, a % 0x1_0000, b / 0x1_0000, b % 0x1_0000;
    MixParts(a, ah, al, b, bh, bl);
    MixParts(b, bh, bl, a, ah, al);
    MixParts(Mix(b, a), bl, ah, Mix(a, b), al, bh);
  }

  // ----- the register update -----

  /** The registers that F turned into (q1, q2). */
  function FBack(x1: u32, x2: u32, q1: u32, q2: u32): (u32, u32) {
    var a := L1Inverse(Unsubstitute(q1));
    var b := L2Inverse(Unsubstitute(q2));
    (Sub(Mix(b, a), x1), Xor(Mix(a, b), x2))
  }

  /** F in the order of its parts. */
  lemma FByParts(x0: u32, x1: u32, x2: u32, r1: u32, r2: u32)
    ensures var f := F(x0, x1, x2, r1, r2);
      var w1, w2 := Add(r1, x1), Xor(r2, x2);
      && f.w == (Xor(x0, r1) + r2) % 0x1_0000_0000
      && f.r1 == Substitute(L1(Mix(w1, w2))) && f.r2 == Substitute(L2(Mix(w2, w1)))
  {
    hide Substitute, L1, L2, Or, Shl, Shr, Xor;
  }

  /** For fixed X1 and X2, F's update of the two registers is a bijection: FBack undoes it ... */
  lemma FUndone(x0: u32, x1: u32, x2: u32, r1: u32, r2: u32)
    ensures var f := F(x0, x1, x2, r1, r2);
      FBack(x1, x2, f.r1, f.r2) == (r1, r2)
  {
    hide F, Substitute, Unsubstitute, L1, L2, L1Inverse, L2Inverse, Mix, Xor, Add, Sub;
    var w1, w2 := Add(r1, x1), Xor(r2, x2);
    var u, v := Mix(w1, w2), Mix(w2, w1);
    FByParts(x0, x1, x2, r1, r2);
    SubstituteBijective(L1(u));
    SubstituteBijective(L2(v));
    L1Bijective(u);
    L2Bijective(v);
    MixTwice(w1, w2);
    MixTwice(w2, w1);
    AddSub(r1, x1);
    XorCancels(r2, x2);
  }

  /** ... and reaches every register pair. */
  lemma FReached(x0: u32, x1: u32, x2: u32, q1: u32, q2: u32)
    ensures var b := FBack(x1, x2, q1, q2);
      var f := F(x0, x1, x2, b.0, b.1);
      f.r1 == q1 && f.r2 == q2
  {
    hide F, Substitute, Unsubstitute, L1, L2, L1Inverse, L2Inverse, Mix, Xor, Add, Sub;
    var u, v := Unsubstitute(q1), Unsubstitute(q2);
    var a, b := L1Inverse(u), L2Inverse(v);
    SubstituteBijective(q1);
    SubstituteBijective(q2);
    L1Bijective(u);
    L2Bijective(v);
    MixTwice(a, b);
    MixTwice(b, a);
    AddSub(Mix(b, a), x1);
    XorCancels(Mix(a, b), x2);
    FByParts(x0, x1, x2, Sub(Mix(b, a), x1), Xor(Mix(a, b), x2));
  }

  // ----- F without shifts and masks -----

  /** The S-box layer of section 3.4 of the ZUC Specification: S0, S1, S0, S1 on the four base-256 digits. */
  function OnDigits(u: u32): int {
    S0(u / 0x100_0000) as int * 0x100_0000 + S1(u / 0x1_0000 % 0x100) as int * 0x1_0000
    + S0(u / 0x100 % 0x100) as int * 0x100 + S1(u % 0x100) as int
  }

  /** The low half of a followed by the high half of b. */
  function Cross(a: u32, b: u32): u32 {
    a % 0x1_0000 * 0x1_0000 + b / 0x1_0000
  }

  /** The S-box layer on the four base-256 digits. */
  lemma SubstituteIs(u: u32)
    ensures Substitute(u) == OnDigits(u)
    ensures Substitute(u) as int == S0(u / 0x100_0000) as int * 0x100_0000 + S1(u / 0x1_0000 % 0x100) as int * 0x1_0000
                          + S0(u / 0x100 % 0x100) as int * 0x100 + S1(u % 0x100) as int
  {
    hide MakeU32, Byte3, Byte2, Byte1, Byte0, S0, S1;
    BytesAre(u);
    MakeU32IsSum(S0(Byte3(u)), S1(Byte2(u)), S0(Byte1(u)), S1(Byte0(u)));
  }

  /** The half-word exchange in numbers. */
  lemma MixIs(a: u32, b: u32)
    ensures Mix(a, b) == Cross(a, b)
    ensures Mix(a, b) as int == a % 0x1_0000 * 0x1_0000 + b / 0x1_0000
  {
    hide Mix;
    MixParts(a, a / 0x1_0000, a % 0x1_0000, b, b / 0x1_0000, b % 0x1_0000);
  }

  /** F as section 3.4 of the ZUC Specification has it, on numbers. */
  lemma FMeaning(x0: u32, x1: u32, x2: u32, r1: u32, r2: u32)
    ensures var f := F(x0, x1, x2, r1, r2);
      var w1: u32, w2 := (r1 + x1) % TWO32, Xor(r2, x2);
      && f.w == (Xor(x0, r1) + r2) % TWO32
      && f.r1 == OnDigits(L1(Cross(w1, w2)))
      && f.r2 == OnDigits(L2(Cross(w2, w1)))
  {
    hide Substitute, OnDigits, Cross, Mix, L1, L2, Xor;
    var w1, w2 := Add(r1, x1), Xor(r2, x2);
    FByParts(x0, x1, x2, r1, r2);
    MixIs(w1, w2);
    MixIs(w2, w1);
    SubstituteIs(L1(Mix(w1, w2)));
    SubstituteIs(L2(Mix(w2, w1)));
    FWord(x0, x1, x2, r1, r2);
  }

  lemma FWord(x0: u32, x1: u32, x2: u32, r1: u32, r2: u32)
    ensures F(x0, x1, x2, r1, r2).w == Add(Xor(x0, r1), r2)
  {
    hide Substitute, L1, L2, Xor;
  }
}
