/** The load balancer's string hash, over 32-bit signed arithmetic that wraps around. */
module Sdbm {
  import opened Words

  /** A char on a platform where it is signed. */
  type i8 = x: int | -0x80 <= x < 0x80

  const BASE: int := 65599

  /** The 32-bit signed word that a wrapping operation with exact result x leaves. */
  function Wrap(x: int): i32 {
    Signed(x % TWO32)
  }

  function Power(b: int, n: nat): int {
    if n == 0 then 1 else b * Power(b, n - 1)
  }

  /** The polynomial in BASE whose coefficients are the characters, the first one leading. */
  function Polynomial(word: seq<i8>): int {
    if word == [] then 0 else word[0] * Power(BASE, |word| - 1) + Polynomial(word[1..])
  }

  /** The hash of a word: its polynomial, wrapped once at the end. */
  function Hash(word: seq<i8>): i32 {
    Wrap(Polynomial(word))
  }

  // ----- wrapping -----

  lemma WrapDrops(x: int) returns (k: int)
    ensures Wrap(x) == x + k * TWO32
  {
    var q := x / TWO32;
    k := if x % TWO32 < TWO31 then -q else -q - 1;
  }

  lemma WrapSame(x: int, k: int)
    ensures Wrap(x + k * TWO32) == Wrap(x)
  {
    ModShift(x, -k);
  }

  /** One pass of the loop: every intermediate result wraps, the outcome is the exact one wrapped once. */
  lemma PassIs(c: i8, h: int)
    ensures Wrap(Wrap(Wrap(c + Wrap(Wrap(h) * 64)) + Wrap(Wrap(h) * 65536)) - Wrap(h)) == Wrap(c + BASE * h)
  {
    hide Wrap;
    var k0 := WrapDrops(h);
    var w: int := Wrap(h);
    var k1 := WrapDrops(w * 64);
    var k2 := WrapDrops(c + Wrap(w * 64));
    var k3 := WrapDrops(w * 65536);
    var t: int := Wrap(c + Wrap(w * 64)) + Wrap(w * 65536);
    var k4 := WrapDrops(t);
    var k := BASE * k0 + k1 + k2 + k3 + k4;
    assert Wrap(t) - w == c + BASE * h + k * TWO32;
    WrapSame(c + BASE * h, k);
  }

  // ----- the loop -----

  lemma {:induction false} PolynomialNext(word: seq<i8>, c: i8)
    ensures Polynomial(word + [c]) == BASE * Polynomial(word) + c
  {
    if word == [] {
      assert (word + [c])[1..] == [];
      assert Power(BASE, 0) == 1;
    } else {
      assert (word + [c])[1..] == word[1..] + [c];
      PolynomialNext(word[1..], c);
      Shuffle(word[0], BASE, Power(BASE, |word| - 1), Polynomial(word[1..]), c);
    }
  }

  lemma Shuffle(a: int, b: int, p: int, q: int, c: int)
    ensures a * (b * p) + (b * q + c) == b * (a * p + q) + c
  {
  }

  method Sdbm(word: array<i8>, len: i32) returns (hashAddress: i32)
    requires len <= word.Length
    ensures hashAddress == Hash(word[..if len < 0 then 0 else len])
  {
    hide Wrap, Polynomial;
    hashAddress := 0;
    var counter := 0;
    Empty();
    while counter < len
      invariant 0 <= counter && (counter <= len || counter == 0)
      invariant hashAddress == Hash(word[..counter])
    {
      PassIs(word[counter], Polynomial(word[..counter]));
      PolynomialNext(word[..counter], word[counter]);
      assert word[..counter + 1] == word[..counter] + [word[counter]];
      hashAddress :=
        Wrap(Wrap(Wrap(word[counter] + Wrap(hashAddress * 64)) + Wrap(hashAddress * 65536)) - hashAddress);
      counter := counter + 1;
    }
  }

  lemma Empty()
    ensures Hash([]) == 0
  {
  }

  /** A one-character word hashes to its character. */
  lemma HashOne(c: i8)
    ensures Hash([c]) == c
  {
    assert Power(BASE, 0) == 1;
    assert [c][1..] == [];
    assert Polynomial([c]) == c;
  }

  /** One more character: the hash so far times 65599, plus the character. */
  lemma HashNext(word: seq<i8>, c: i8)
    ensures Hash(word + [c]) == Wrap(65599 * Hash(word) + c)
  {
    hide Wrap, Polynomial;
    PolynomialNext(word, c);
    var k := WrapDrops(Polynomial(word));
    WrapSame(BASE * Polynomial(word) + c, BASE * k);
  }

  // ----- concatenation -----

  lemma {:induction false} PolynomialConcat(a: seq<i8>, b: seq<i8>)
    ensures Polynomial(a + b) == Polynomial(a) * Power(BASE, |b|) + Polynomial(b)
  {
    if b == [] {
      assert a + b == a;
      assert Power(BASE, 0) == 1;
    } else {
      var front, c := b[..|b| - 1], b[|b| - 1];
      assert a + b == (a + front) + [c] && b == front + [c];
      PolynomialConcat(a, front);
      PolynomialNext(a + front, c);
      PolynomialNext(front, c);
      Shuffle2(Polynomial(a), Power(BASE, |front|), Polynomial(front), c);
    }
  }

  lemma Shuffle2(a: int, p: int, q: int, c: int)
    ensures BASE * (a * p + q) + c == a * (BASE * p) + (BASE * q + c)
  {
  }

  /** The hash of a concatenation follows from the hashes of its parts and the length of the second. */
  lemma HashConcat(a: seq<i8>, b: seq<i8>)
    ensures Hash(a + b) == Wrap(Hash(a) * Power(BASE, |b|) + Hash(b))
  {
    hide Wrap, Polynomial, Power;
    PolynomialConcat(a, b);
    WrapProductSum(Polynomial(a), Power(BASE, |b|), Polynomial(b));
  }

  lemma WrapProductSum(x: int, p: int, y: int)
    ensures Wrap(Wrap(x) * p + Wrap(y)) == Wrap(x * p + y)
  {
    hide Wrap;
    var k := WrapDrops(x);
    var j := WrapDrops(y);
    Distribute(x, k, p);
    WrapSame(x * p + y, k * p + j);
  }

  lemma Distribute(x: int, k: int, p: int)
    ensures (x + k * TWO32) * p == x * p + (k * p) * TWO32
  {
  }
}
