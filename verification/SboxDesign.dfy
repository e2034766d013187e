/**
 * Which permutations the two S-boxes are, on binary digits: S0 mixes its two nibbles in three rounds, S1 inverts
 * in a field of 256 elements and then applies an affine map. A digit is a truth value, so that exclusive-or is
 * inequality. Every value in these lemmas is fixed by the equations on it.
 */
module SboxDesign {
  import opened Words
  import opened Sboxes

  function Weigh(b: bool, w: nat): nat {
    if b then w else 0
  }

  /** The number with these four binary digits. */
  function Nibble(n3: bool, n2: bool, n1: bool, n0: bool): nat {
    Weigh(n3, 8) + Weigh(n2, 4) + Weigh(n1, 2) + Weigh(n0, 1)
  }

  function Byte(n7: bool, n6: bool, n5: bool, n4: bool, n3: bool, n2: bool, n1: bool, n0: bool): nat {
    Weigh(n7, 128) + Weigh(n6, 64) + Weigh(n5, 32) + Weigh(n4, 16)
    + Weigh(n3, 8) + Weigh(n2, 4) + Weigh(n1, 2) + Weigh(n0, 1)
  }

  // ----- S0 -----

  // the three nibble tables

  function P1(n: nat): nat {
    match n
    case 0 => 9 case 1 => 15 case 2 => 0 case 3 => 14 case 4 => 15 case 5 => 15 case 6 => 2 case 7 => 10
    case 8 => 0 case 9 => 4 case 10 => 0 case 11 => 12 case 12 => 7 case 13 => 5 case 14 => 3 case _ => 9
  }

  function P2(n: nat): nat {
    match n
    case 0 => 8 case 1 => 13 case 2 => 6 case 3 => 5 case 4 => 7 case 5 => 0 case 6 => 12 case 7 => 4
    case 8 => 11 case 9 => 1 case 10 => 14 case 11 => 10 case 12 => 15 case 13 => 3 case 14 => 9 case _ => 2
  }

  function P3(n: nat): nat {
    match n
    case 0 => 2 case 1 => 6 case 2 => 10 case 3 => 6 case 4 => 0 case 5 => 13 case 6 => 10 case 7 => 15
    case 8 => 3 case 9 => 3 case 10 => 13 case 11 => 5 case 12 => 0 case 13 => 9 case 14 => 12 case _ => 13
  }

  // the same tables, digit by digit

  predicate P1Digit3(n3: bool, n2: bool, n1: bool, n0: bool) {
    if n3 then (if n1 then n0 else false) else (if n1 then n0 else true)
  }

  predicate P1Digit2(n3: bool, n2: bool, n1: bool, n0: bool) {
    if n2 then !n1 else n0
  }

  predicate P1Digit1(n3: bool, n2: bool, n1: bool, n0: bool) {
    if n3 then (if n2 then !n0 else false) else (if n2 then true else n0)
  }

  predicate P1Digit0(n3: bool, n2: bool, n1: bool, n0: bool) {
    if n3 then n2 else !n1
  }

  predicate P2Digit3(n3: bool, n2: bool, n1: bool, n0: bool) {
    if n3 then (if n2 then !n0 else (if n1 then true else !n0))
    else (if n2 then (if n1 then !n0 else false) else !n1)
  }

  predicate P2Digit2(n3: bool, n2: bool, n1: bool, n0: bool) {
    if n3 then (if n2 then (if n1 then false else !n0) else (if n1 then !n0 else false))
    else (if n2 then (if n1 then true else !n0) else (if n1 then true else n0))
  }

  predicate P2Digit1(n3: bool, n2: bool, n1: bool, n0: bool) {
    if n3 then (if n2 then (if n1 then n0 else true) else (if n1 then true else !n0))
    else (if n2 then (if n1 then false else !n0) else (if n1 then !n0 else false))
  }

  predicate P2Digit0(n3: bool, n2: bool, n1: bool, n0: bool) {
    if n3 then (if n2 then (if n1 then !n0 else true) else !n1)
    else (if n2 then (if n1 then false else !n0) else n0)
  }

  predicate P3Digit3(n3: bool, n2: bool, n1: bool, n0: bool) {
    if n2 then (if n1 then true else n0) else (if n1 then !n0 else false)
  }

  predicate P3Digit2(n3: bool, n2: bool, n1: bool, n0: bool) {
    if n3 then n1 else n0
  }

  predicate P3Digit1(n3: bool, n2: bool, n1: bool, n0: bool) {
    if n3 then (if n2 then false else !n1) else (if n2 then n1 else true)
  }

  predicate P3Digit0(n3: bool, n2: bool, n1: bool, n0: bool) {
    if n3 then (if n2 then n0 else true) else (if n2 then n0 else false)
  }

  lemma P1Digits(n3: bool, n2: bool, n1: bool, n0: bool)
    ensures P1(Nibble(n3, n2, n1, n0))
         == Nibble(P1Digit3(n3, n2, n1, n0), P1Digit2(n3, n2, n1, n0),
                   P1Digit1(n3, n2, n1, n0), P1Digit0(n3, n2, n1, n0))
  {
  }

  lemma P2Digits(n3: bool, n2: bool, n1: bool, n0: bool)
    ensures P2(Nibble(n3, n2, n1, n0))
         == Nibble(P2Digit3(n3, n2, n1, n0), P2Digit2(n3, n2, n1, n0),
                   P2Digit1(n3, n2, n1, n0), P2Digit0(n3, n2, n1, n0))
  {
  }

  lemma P3Digits(n3: bool, n2: bool, n1: bool, n0: bool)
    ensures P3(Nibble(n3, n2, n1, n0))
         == Nibble(P3Digit3(n3, n2, n1, n0), P3Digit2(n3, n2, n1, n0),
                   P3Digit1(n3, n2, n1, n0), P3Digit0(n3, n2, n1, n0))
  {
  }

  /**
   * S0 on every byte, with high nibble h and low nibble l: the first round makes b of h, the second a of l, the
   * third c of b, each by exclusive-or with a table entry. The byte with nibbles c and a is then rotated left by
   * five places.
   */
  lemma S0IsThreeRounds(x: u8, h3: bool, h2: bool, h1: bool, h0: bool,
        l3: bool, l2: bool, l1: bool, l0: bool, b3: bool, b2: bool, b1: bool, b0: bool,
        a3: bool, a2: bool, a1: bool, a0: bool, c3: bool, c2: bool, c1: bool, c0: bool)
    requires x / 16 == Nibble(h3, h2, h1, h0) && x % 16 == Nibble(l3, l2, l1, l0)
    requires b3 == (h3 != P1Digit3(l3, l2, l1, l0)) && b2 == (h2 != P1Digit2(l3, l2, l1, l0))
    requires b1 == (h1 != P1Digit1(l3, l2, l1, l0)) && b0 == (h0 != P1Digit0(l3, l2, l1, l0))
    requires a3 == (l3 != P2Digit3(b3, b2, b1, b0)) && a2 == (l2 != P2Digit2(b3, b2, b1, b0))
    requires a1 == (l1 != P2Digit1(b3, b2, b1, b0)) && a0 == (l0 != P2Digit0(b3, b2, b1, b0))
    requires c3 == (b3 != P3Digit3(a3, a2, a1, a0)) && c2 == (b2 != P3Digit2(a3, a2, a1, a0))
    requires c1 == (b1 != P3Digit1(a3, a2, a1, a0)) && c0 == (b0 != P3Digit0(a3, a2, a1, a0))
    ensures S0(x) == Byte(a2, a1, a0, c3, c2, c1, c0, a3)
  {
  }

  // ----- S1 -----

  /** The affine map: z is 0x55 plus one column for each digit of y, and y is got back from z. */
  lemma AffineBack(z7: bool, z6: bool, z5: bool, z4: bool, z3: bool, z2: bool, z1: bool, z0: bool,
        y7: bool, y6: bool, y5: bool, y4: bool, y3: bool, y2: bool, y1: bool, y0: bool)
    requires y7 == ((((z0 != z3) != z5) != z6) != z7)
    requires y6 == !((((z2 != z3) != z4) != z5) != z6)
    requires y5 == ((((z1 != z2) != z4) != z5) != z7)
    requires y4 == !((((z0 != z1) != z4) != z6) != z7)
    requires y3 == (((((z0 != z1) != z2) != z4) != z5) != z6)
    requires y2 == (((((z0 != z1) != z3) != z4) != z5) != z7)
    requires y1 == (((((z0 != z2) != z3) != z4) != z6) != z7)
    requires y0 == (((((z1 != z2) != z3) != z5) != z6) != z7)
    ensures z7 == ((((y0 != y3) != y4) != y5) != y6)
    ensures z6 == !((((y2 != y3) != y4) != y5) != y7)
    ensures z5 == ((((y1 != y2) != y4) != y6) != y7)
    ensures z4 == !((((y0 != y1) != y5) != y6) != y7)
    ensures z3 == (((((y1 != y2) != y3) != y4) != y5) != y6)
    ensures z2 == !(((((y0 != y1) != y2) != y4) != y5) != y7)
    ensures z1 == (((((y0 != y1) != y3) != y4) != y6) != y7)
    ensures z0 == !(((((y0 != y2) != y3) != y5) != y6) != y7)
  {
  }

  /**
   * S1 on every byte below 128: where y goes to S1(x) under the affine map, x times y is 1 unless x is 0. The
   * product is taken by Horner's scheme on the digits of x, modulo X^8 + X^7 + X^3 + X + 1: a is x7 times y, and
   * each of b to h is X times the one before it plus one more digit of x times y.
   */
  lemma S1InvertsLow(v: u8, x7: bool, x6: bool, x5: bool, x4: bool, x3: bool, x2: bool, x1: bool, x0: bool,
        y7: bool, y6: bool, y5: bool, y4: bool, y3: bool, y2: bool, y1: bool, y0: bool,
        z7: bool, z6: bool, z5: bool, z4: bool, z3: bool, z2: bool, z1: bool, z0: bool,
        a7: bool, a6: bool, a5: bool, a4: bool, a3: bool, a2: bool, a1: bool, a0: bool,
        b7: bool, b6: bool, b5: bool, b4: bool, b3: bool, b2: bool, b1: bool, b0: bool,
        c7: bool, c6: bool, c5: bool, c4: bool, c3: bool, c2: bool, c1: bool, c0: bool,
        d7: bool, d6: bool, d5: bool, d4: bool, d3: bool, d2: bool, d1: bool, d0: bool,
        e7: bool, e6: bool, e5: bool, e4: bool, e3: bool, e2: bool, e1: bool, e0: bool,
        f7: bool, f6: bool, f5: bool, f4: bool, f3: bool, f2: bool, f1: bool, f0: bool,
        g7: bool, g6: bool, g5: bool, g4: bool, g3: bool, g2: bool, g1: bool, g0: bool,
        h7: bool, h6: bool, h5: bool, h4: bool, h3: bool, h2: bool, h1: bool, h0: bool)
    requires !x7 && v / 16 == Nibble(x7, x6, x5, x4) && v % 16 == Nibble(x3, x2, x1, x0)
    requires S1(v) == Byte(z7, z6, z5, z4, z3, z2, z1, z0)
    requires y7 == ((((z0 != z3) != z5) != z6) != z7)
    requires y6 == !((((z2 != z3) != z4) != z5) != z6)
    requires y5 == ((((z1 != z2) != z4) != z5) != z7)
    requires y4 == !((((z0 != z1) != z4) != z6) != z7)
    requires y3 == (((((z0 != z1) != z2) != z4) != z5) != z6)
    requires y2 == (((((z0 != z1) != z3) != z4) != z5) != z7)
    requires y1 == (((((z0 != z2) != z3) != z4) != z6) != z7)
    requires y0 == (((((z1 != z2) != z3) != z5) != z6) != z7)
    requires a7 == (x7 && y7) && a6 == (x7 && y6) && a5 == (x7 && y5) && a4 == (x7 && y4)
    requires a3 == (x7 && y3) && a2 == (x7 && y2) && a1 == (x7 && y1) && a0 == (x7 && y0)
    requires b7 == ((a6 != a7) != (x6 && y7)) && b6 == (a5 != (x6 && y6))
    requires b5 == (a4 != (x6 && y5)) && b4 == (a3 != (x6 && y4))
    requires b3 == ((a2 != a7) != (x6 && y3)) && b2 == (a1 != (x6 && y2))
    requires b1 == ((a0 != a7) != (x6 && y1)) && b0 == (a7 != (x6 && y0))
    requires c7 == ((b6 != b7) != (x5 && y7)) && c6 == (b5 != (x5 && y6))
    requires c5 == (b4 != (x5 && y5)) && c4 == (b3 != (x5 && y4))
    requires c3 == ((b2 != b7) != (x5 && y3)) && c2 == (b1 != (x5 && y2))
    requires c1 == ((b0 != b7) != (x5 && y1)) && c0 == (b7 != (x5 && y0))
    requires d7 == ((c6 != c7) != (x4 && y7)) && d6 == (c5 != (x4 && y6))
    requires d5 == (c4 != (x4 && y5)) && d4 == (c3 != (x4 && y4))
    requires d3 == ((c2 != c7) != (x4 && y3)) && d2 == (c1 != (x4 && y2))
    requires d1 == ((c0 != c7) != (x4 && y1)) && d0 == (c7 != (x4 && y0))
    requires e7 == ((d6 != d7) != (x3 && y7)) && e6 == (d5 != (x3 && y6))
    requires e5 == (d4 != (x3 && y5)) && e4 == (d3 != (x3 && y4))
    requires e3 == ((d2 != d7) != (x3 && y3)) && e2 == (d1 != (x3 && y2))
    requires e1 == ((d0 != d7) != (x3 && y1)) && e0 == (d7 != (x3 && y0))
    requires f7 == ((e6 != e7) != (x2 && y7)) && f6 == (e5 != (x2 && y6))
    requires f5 == (e4 != (x2 && y5)) && f4 == (e3 != (x2 && y4))
    requires f3 == ((e2 != e7) != (x2 && y3)) && f2 == (e1 != (x2 && y2))
    requires f1 == ((e0 != e7) != (x2 && y1)) && f0 == (e7 != (x2 && y0))
    requires g7 == ((f6 != f7) != (x1 && y7)) && g6 == (f5 != (x1 && y6))
    requires g5 == (f4 != (x1 && y5)) && g4 == (f3 != (x1 && y4))
    requires g3 == ((f2 != f7) != (x1 && y3)) && g2 == (f1 != (x1 && y2))
    requires g1 == ((f0 != f7) != (x1 && y1)) && g0 == (f7 != (x1 && y0))
    requires h7 == ((g6 != g7) != (x0 && y7)) && h6 == (g5 != (x0 && y6))
    requires h5 == (g4 != (x0 && y5)) && h4 == (g3 != (x0 && y4))
    requires h3 == ((g2 != g7) != (x0 && y3)) && h2 == (g1 != (x0 && y2))
    requires h1 == ((g0 != g7) != (x0 && y1)) && h0 == (g7 != (x0 && y0))
    ensures x7 || x6 || x5 || x4 || x3 || x2 || x1 || x0 ==>
      !h7 && !h6 && !h5 && !h4 && !h3 && !h2 && !h1 && h0
  {
  }

  /** The same from 128 on. */
  lemma S1InvertsHigh(v: u8, x7: bool, x6: bool, x5: bool, x4: bool, x3: bool, x2: bool, x1: bool, x0: bool,
        y7: bool, y6: bool, y5: bool, y4: bool, y3: bool, y2: bool, y1: bool, y0: bool,
        z7: bool, z6: bool, z5: bool, z4: bool, z3: bool, z2: bool, z1: bool, z0: bool,
        a7: bool, a6: bool, a5: bool, a4: bool, a3: bool, a2: bool, a1: bool, a0: bool,
        b7: bool, b6: bool, b5: bool, b4: bool, b3: bool, b2: bool, b1: bool, b0: bool,
        c7: bool, c6: bool, c5: bool, c4: bool, c3: bool, c2: bool, c1: bool, c0: bool,
        d7: bool, d6: bool, d5: bool, d4: bool, d3: bool, d2: bool, d1: bool, d0: bool,
        e7: bool, e6: bool, e5: bool, e4: bool, e3: bool, e2: bool, e1: bool, e0: bool,
        f7: bool, f6: bool, f5: bool, f4: bool, f3: bool, f2: bool, f1: bool, f0: bool,
        g7: bool, g6: bool, g5: bool, g4: bool, g3: bool, g2: bool, g1: bool, g0: bool,
        h7: bool, h6: bool, h5: bool, h4: bool, h3: bool, h2: bool, h1: bool, h0: bool)
    requires x7 && v / 16 == Nibble(x7, x6, x5, x4) && v % 16 == Nibble(x3, x2, x1, x0)
    requires S1(v) == Byte(z7, z6, z5, z4, z3, z2, z1, z0)
    requires y7 == ((((z0 != z3) != z5) != z6) != z7)
    requires y6 == !((((z2 != z3) != z4) != z5) != z6)
    requires y5 == ((((z1 != z2) != z4) != z5) != z7)
    requires y4 == !((((z0 != z1) != z4) != z6) != z7)
    requires y3 == (((((z0 != z1) != z2) != z4) != z5) != z6)
    requires y2 == (((((z0 != z1) != z3) != z4) != z5) != z7)
    requires y1 == (((((z0 != z2) != z3) != z4) != z6) != z7)
    requires y0 == (((((z1 != z2) != z3) != z5) != z6) != z7)
    requires a7 == (x7 && y7) && a6 == (x7 && y6) && a5 == (x7 && y5) && a4 == (x7 && y4)
    requires a3 == (x7 && y3) && a2 == (x7 && y2) && a1 == (x7 && y1) && a0 == (x7 && y0)
    requires b7 == ((a6 != a7) != (x6 && y7)) && b6 == (a5 != (x6 && y6))
    requires b5 == (a4 != (x6 && y5)) && b4 == (a3 != (x6 && y4))
    requires b3 == ((a2 != a7) != (x6 && y3)) && b2 == (a1 != (x6 && y2))
    requires b1 == ((a0 != a7) != (x6 && y1)) && b0 == (a7 != (x6 && y0))
    requires c7 == ((b6 != b7) != (x5 && y7)) && c6 == (b5 != (x5 && y6))
    requires c5 == (b4 != (x5 && y5)) && c4 == (b3 != (x5 && y4))
    requires c3 == ((b2 != b7) != (x5 && y3)) && c2 == (b1 != (x5 && y2))
    requires c1 == ((b0 != b7) != (x5 && y1)) && c0 == (b7 != (x5 && y0))
    requires d7 == ((c6 != c7) != (x4 && y7)) && d6 == (c5 != (x4 && y6))
    requires d5 == (c4 != (x4 && y5)) && d4 == (c3 != (x4 && y4))
    requires d3 == ((c2 != c7) != (x4 && y3)) && d2 == (c1 != (x4 && y2))
    requires d1 == ((c0 != c7) != (x4 && y1)) && d0 == (c7 != (x4 && y0))
    requires e7 == ((d6 != d7) != (x3 && y7)) && e6 == (d5 != (x3 && y6))
    requires e5 == (d4 != (x3 && y5)) && e4 == (d3 != (x3 && y4))
    requires e3 == ((d2 != d7) != (x3 && y3)) && e2 == (d1 != (x3 && y2))
    requires e1 == ((d0 != d7) != (x3 && y1)) && e0 == (d7 != (x3 && y0))
    requires f7 == ((e6 != e7) != (x2 && y7)) && f6 == (e5 != (x2 && y6))
    requires f5 == (e4 != (x2 && y5)) && f4 == (e3 != (x2 && y4))
    requires f3 == ((e2 != e7) != (x2 && y3)) && f2 == (e1 != (x2 && y2))
    requires f1 == ((e0 != e7) != (x2 && y1)) && f0 == (e7 != (x2 && y0))
    requires g7 == ((f6 != f7) != (x1 && y7)) && g6 == (f5 != (x1 && y6))
    requires g5 == (f4 != (x1 && y5)) && g4 == (f3 != (x1 && y4))
    requires g3 == ((f2 != f7) != (x1 && y3)) && g2 == (f1 != (x1 && y2))
    requires g1 == ((f0 != f7) != (x1 && y1)) && g0 == (f7 != (x1 && y0))
    requires h7 == ((g6 != g7) != (x0 && y7)) && h6 == (g5 != (x0 && y6))
    requires h5 == (g4 != (x0 && y5)) && h4 == (g3 != (x0 && y4))
    requires h3 == ((g2 != g7) != (x0 && y3)) && h2 == (g1 != (x0 && y2))
    requires h1 == ((g0 != g7) != (x0 && y1)) && h0 == (g7 != (x0 && y0))
    ensures x7 || x6 || x5 || x4 || x3 || x2 || x1 || x0 ==>
      !h7 && !h6 && !h5 && !h4 && !h3 && !h2 && !h1 && h0
  {
  }

  /** And 0 goes to the affine image of 0. */
  lemma S1OfZero()
    ensures S1(0) == 0x55
  {
  }
}
