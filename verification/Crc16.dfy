/**
  The checksum of the inverter protocol, CRC-16/XMODEM: polynomials over GF(2)
  are natural numbers, bit i being the coefficient of x^i.
 */
module Crc16 {
  import opened Bytes

  /** x^16 + x^12 + x^5 + 1 */
  const GENERATOR: nat := 0x11021

  const ROW_0: seq<nat> := [
    0x0000, 0x1021, 0x2042, 0x3063, 0x4084, 0x50A5, 0x60C6, 0x70E7,
    0x8108, 0x9129, 0xA14A, 0xB16B, 0xC18C, 0xD1AD, 0xE1CE, 0xF1EF
  ]
  const ROW_1: seq<nat> := [
    0x1231, 0x0210, 0x3273, 0x2252, 0x52B5, 0x4294, 0x72F7, 0x62D6,
    0x9339, 0x8318, 0xB37B, 0xA35A, 0xD3BD, 0xC39C, 0xF3FF, 0xE3DE
  ]
  const ROW_2: seq<nat> := [
    0x2462, 0x3443, 0x0420, 0x1401, 0x64E6, 0x74C7, 0x44A4, 0x5485,
    0xA56A, 0xB54B, 0x8528, 0x9509, 0xE5EE, 0xF5CF, 0xC5AC, 0xD58D
  ]
  const ROW_3: seq<nat> := [
    0x3653, 0x2672, 0x1611, 0x0630, 0x76D7, 0x66F6, 0x5695, 0x46B4,
    0xB75B, 0xA77A, 0x9719, 0x8738, 0xF7DF, 0xE7FE, 0xD79D, 0xC7BC
  ]
  const ROW_4: seq<nat> := [
    0x48C4, 0x58E5, 0x6886, 0x78A7, 0x0840, 0x1861, 0x2802, 0x3823,
    0xC9CC, 0xD9ED, 0xE98E, 0xF9AF, 0x8948, 0x9969, 0xA90A, 0xB92B
  ]
  const ROW_5: seq<nat> := [
    0x5AF5, 0x4AD4, 0x7AB7, 0x6A96, 0x1A71, 0x0A50, 0x3A33, 0x2A12,
    0xDBFD, 0xCBDC, 0xFBBF, 0xEB9E, 0x9B79, 0x8B58, 0xBB3B, 0xAB1A
  ]
  const ROW_6: seq<nat> := [
    0x6CA6, 0x7C87, 0x4CE4, 0x5CC5, 0x2C22, 0x3C03, 0x0C60, 0x1C41,
    0xEDAE, 0xFD8F, 0xCDEC, 0xDDCD, 0xAD2A, 0xBD0B, 0x8D68, 0x9D49
  ]
  const ROW_7: seq<nat> := [
    0x7E97, 0x6EB6, 0x5ED5, 0x4EF4, 0x3E13, 0x2E32, 0x1E51, 0x0E70,
    0xFF9F, 0xEFBE, 0xDFDD, 0xCFFC, 0xBF1B, 0xAF3A, 0x9F59, 0x8F78
  ]
  const ROW_8: seq<nat> := [
    0x9188, 0x81A9, 0xB1CA, 0xA1EB, 0xD10C, 0xC12D, 0xF14E, 0xE16F,
    0x1080, 0x00A1, 0x30C2, 0x20E3, 0x5004, 0x4025, 0x7046, 0x6067
  ]
  const ROW_9: seq<nat> := [
    0x83B9, 0x9398, 0xA3FB, 0xB3DA, 0xC33D, 0xD31C, 0xE37F, 0xF35E,
    0x02B1, 0x1290, 0x22F3, 0x32D2, 0x4235, 0x5214, 0x6277, 0x7256
  ]
  const ROW_A: seq<nat> := [
    0xB5EA, 0xA5CB, 0x95A8, 0x8589, 0xF56E, 0xE54F, 0xD52C, 0xC50D,
    0x34E2, 0x24C3, 0x14A0, 0x0481, 0x7466, 0x6447, 0x5424, 0x4405
  ]
  const ROW_B: seq<nat> := [
    0xA7DB, 0xB7FA, 0x8799, 0x97B8, 0xE75F, 0xF77E, 0xC71D, 0xD73C,
    0x26D3, 0x36F2, 0x0691, 0x16B0, 0x6657, 0x7676, 0x4615, 0x5634
  ]
  const ROW_C: seq<nat> := [
    0xD94C, 0xC96D, 0xF90E, 0xE92F, 0x99C8, 0x89E9, 0xB98A, 0xA9AB,
    0x5844, 0x4865, 0x7806, 0x6827, 0x18C0, 0x08E1, 0x3882, 0x28A3
  ]
  const ROW_D: seq<nat> := [
    0xCB7D, 0xDB5C, 0xEB3F, 0xFB1E, 0x8BF9, 0x9BD8, 0xABBB, 0xBB9A,
    0x4A75, 0x5A54, 0x6A37, 0x7A16, 0x0AF1, 0x1AD0, 0x2AB3, 0x3A92
  ]
  const ROW_E: seq<nat> := [
    0xFD2E, 0xED0F, 0xDD6C, 0xCD4D, 0xBDAA, 0xAD8B, 0x9DE8, 0x8DC9,
    0x7C26, 0x6C07, 0x5C64, 0x4C45, 0x3CA2, 0x2C83, 0x1CE0, 0x0CC1
  ]
  const ROW_F: seq<nat> := [
    0xEF1F, 0xFF3E, 0xCF5D, 0xDF7C, 0xAF9B, 0xBFBA, 0x8FD9, 0x9FF8,
    0x6E17, 0x7E36, 0x4E55, 0x5E74, 0x2E93, 0x3EB2, 0x0ED1, 0x1EF0
  ]

  /** crc16tab, sixteen entries to a row. */
  const TABLE: seq<seq<nat>> := [
    ROW_0, ROW_1, ROW_2, ROW_3, ROW_4, ROW_5, ROW_6, ROW_7,
    ROW_8, ROW_9, ROW_A, ROW_B, ROW_C, ROW_D, ROW_E, ROW_F
  ]

  // ---- Polynomials ----------------------------------------------------------

  /** Addition. */
  function Xor(a: nat, b: nat): nat
    decreases a + b
  {
    if a == 0 && b == 0 then 0
    else 2 * Xor(a / 2, b / 2) + (if a % 2 == b % 2 then 0 else 1)
  }

  lemma XorStep(a: nat, b: nat, x: nat, y: nat)
    requires x < 2 && y < 2
    ensures Xor(2 * a + x, 2 * b + y) == 2 * Xor(a, b) + (if x == y then 0 else 1)
  {
    assert (2 * a + x) / 2 == a && (2 * b + y) / 2 == b;
  }

  lemma {:induction false} XorCommutes(a: nat, b: nat)
    ensures Xor(a, b) == Xor(b, a)
    decreases a + b
  {
    if a != 0 || b != 0 {
      XorCommutes(a / 2, b / 2);
    }
  }

  lemma {:induction false} XorAssociates(a: nat, b: nat, c: nat)
    ensures Xor(Xor(a, b), c) == Xor(a, Xor(b, c))
    decreases a + b + c
  {
    if a != 0 || b != 0 || c != 0 {
      XorAssociates(a / 2, b / 2, c / 2);
      XorParts(a, b);
      XorParts(b, c);
      XorParts(Xor(a, b), c);
      XorParts(a, Xor(b, c));
    }
  }

  lemma XorParts(a: nat, b: nat)
    ensures Xor(a, b) / 2 == Xor(a / 2, b / 2)
    ensures Xor(a, b) % 2 == if a % 2 == b % 2 then 0 else 1
  {
  }

  lemma {:induction false} XorSelf(a: nat, b: nat)
    ensures Xor(a, b) == 0 <==> a == b
    decreases a + b
  {
    if a != 0 || b != 0 {
      XorSelf(a / 2, b / 2);
    }
  }

  lemma {:induction false} XorZero(a: nat)
    ensures Xor(a, 0) == a && Xor(0, a) == a
  {
    if a != 0 {
      XorZero(a / 2);
    }
  }

  /** Multiplication by x^k. */
  function Shift(n: nat, k: nat): nat {
    if k == 0 then n else 2 * Shift(n, k - 1)
  }

  lemma {:induction false} XorShifted(l: nat, r: nat, a: nat, b: nat, x: nat, y: nat, k: nat)
    requires x < Shift(1, k) && y < Shift(1, k)
    requires l == Shift(a, k) + x && r == Shift(b, k) + y
    ensures Xor(l, r) == Shift(Xor(a, b), k) + Xor(x, y)
    ensures Xor(x, y) < Shift(1, k)
  {
    if k > 0 {
      XorShifted(l / 2, r / 2, a, b, x / 2, y / 2, k - 1);
      XorParts(l, r);
      XorParts(x, y);
    }
  }

  lemma XorShift(a: nat, b: nat, x: nat, y: nat, k: nat)
    requires x < Shift(1, k) && y < Shift(1, k)
    ensures Xor(Shift(a, k) + x, Shift(b, k) + y) == Shift(Xor(a, b), k) + Xor(x, y)
    ensures Xor(x, y) < Shift(1, k)
  {
    XorShifted(Shift(a, k) + x, Shift(b, k) + y, a, b, x, y, k);
  }

  /** One step of long division: a polynomial of degree at most 16 loses its top term. */
  function Reduce(t: nat): nat {
    if t >= 0x10000 then Xor(t, GENERATOR) else t
  }

  /** Division bit by bit, most significant first: what is left over. */
  function Rem(n: nat): nat {
    if n == 0 then 0 else Reduce(2 * Rem(n / 2) + n % 2)
  }

  /** Multiplication by the generator. */
  function TimesGenerator(q: nat): nat {
    if q == 0 then 0 else Xor(2 * TimesGenerator(q / 2), if q % 2 == 1 then GENERATOR else 0)
  }

  function Quotient(n: nat): nat {
    if n == 0 then 0 else 2 * Quotient(n / 2) + (if 2 * Rem(n / 2) + n % 2 >= 0x10000 then 1 else 0)
  }

  lemma Shift16(n: nat)
    ensures Shift(n, 8) == 0x100 * n && Shift(n, 16) == 0x1_0000 * n
  {
    Shift4(n);
    Shift4(Shift(n, 4));
    ShiftAdd(n, 4, 4);
    Shift4(Shift(n, 8));
    ShiftAdd(n, 8, 4);
    Shift4(Shift(n, 12));
    ShiftAdd(n, 12, 4);
  }

  lemma Shift4(n: nat)
    ensures Shift(n, 4) == 16 * n
  {
    assert Shift(n, 2) == 2 * Shift(n, 1);
  }

  lemma {:induction false} ShiftAdd(n: nat, j: nat, k: nat)
    ensures Shift(Shift(n, j), k) == Shift(n, j + k)
  {
    if k > 0 {
      ShiftAdd(n, j, k - 1);
    }
  }

  lemma ReduceBound(t: nat)
    requires t < 0x20000
    ensures Reduce(t) < 0x10000
  {
    if t >= 0x10000 {
      Shift16(1);
      Shift16(Xor(1, 1));
      var l := t - 0x10000;
      XorShift(1, 1, l, 0x1021, 16);
      XorSelf(1, 1);
    }
  }

  lemma {:induction false} RemBound(n: nat)
    ensures Rem(n) < 0x10000
  {
    if n != 0 {
      RemBound(n / 2);
      ReduceBound(2 * Rem(n / 2) + n % 2);
    }
  }

  lemma {:induction false} RemSmall(n: nat)
    requires n < 0x10000
    ensures Rem(n) == n
  {
    if n != 0 {
      RemSmall(n / 2);
    }
  }

  lemma TopTerm(s: nat, t: nat)
    requires s < 0x20000 && t < 0x20000
    ensures Xor(s, t) < 0x20000
    ensures Xor(s, t) >= 0x10000 <==> (s >= 0x10000) != (t >= 0x10000)
  {
    var h, j := s / 0x10000, t / 0x10000;
    Shift16(1);
    Shift16(h);
    Shift16(j);
    Shift16(Xor(h, j));
    XorShift(h, j, s % 0x10000, t % 0x10000, 16);
    XorSelf(h, j);
    XorZero(h);
    XorZero(j);
  }

  /** Adding g to both sides, or twice, changes nothing. */
  lemma XorCancels(s: nat, t: nat, g: nat)
    ensures Xor(Xor(s, g), t) == Xor(Xor(s, t), g) == Xor(s, Xor(t, g))
    ensures Xor(Xor(s, g), Xor(t, g)) == Xor(s, t)
  {
    XorAssociates(s, t, g);
    XorAssociates(s, g, t);
    XorCommutes(t, g);
    XorAssociates(s, g, Xor(t, g));
    XorAssociates(g, g, t);
    XorSelf(g, g);
    XorZero(t);
  }

  lemma ReduceLinear(s: nat, t: nat)
    requires s < 0x20000 && t < 0x20000
    ensures Reduce(Xor(s, t)) == Xor(Reduce(s), Reduce(t))
  {
    TopTerm(s, t);
    XorCancels(s, t, GENERATOR);
  }

  /** Remainders add up. */
  lemma {:induction false} RemLinear(a: nat, b: nat)
    ensures Rem(Xor(a, b)) == Xor(Rem(a), Rem(b))
    decreases a + b
  {
    if a != 0 || b != 0 {
      RemLinear(a / 2, b / 2);
      var x, y, c, d := Rem(a / 2), Rem(b / 2), a % 2, b % 2;
      RemStep(a);
      RemStep(b);
      assert Rem(Xor(a, b)) == Reduce(2 * Xor(x, y) + if c == d then 0 else 1) by {
        XorParts(a, b);
        RemStep(Xor(a, b));
      }
      assert Reduce(2 * Xor(x, y) + if c == d then 0 else 1) == Xor(Reduce(2 * x + c), Reduce(2 * y + d)) by {
        RemBound(a / 2);
        RemBound(b / 2);
        ReduceBits(x, y, c, d);
      }
    }
  }

  lemma ReduceBits(x: nat, y: nat, c: nat, d: nat)
    requires x < 0x10000 && y < 0x10000 && c < 2 && d < 2
    ensures Reduce(2 * Xor(x, y) + if c == d then 0 else 1) == Xor(Reduce(2 * x + c), Reduce(2 * y + d))
  {
    XorStep(x, y, c, d);
    ReduceLinear(2 * x + c, 2 * y + d);
  }

  lemma RemStep(n: nat)
    ensures Rem(n) == Reduce(2 * Rem(n / 2) + n % 2)
  {
  }

  lemma Half(m: nat, n: nat, c: nat)
    requires c < 2 && m == 2 * n + c
    ensures m / 2 == n && m % 2 == c
  {
  }

  lemma RemStepTo(m: nat, n: nat, c: nat, t: nat)
    requires n == m / 2 && c == m % 2 && t == 2 * Rem(n) + c
    ensures Rem(m) == Reduce(t)
  {
    RemStep(m);
  }

  lemma NextRemainder(m: nat, n: nat, c: nat, t: nat)
    requires c < 2 && m == 2 * n + c && t == 2 * Rem(n) + c
    ensures Rem(m) == Reduce(t)
  {
    Half(m, n, c);
    RemStepTo(m, n, c, t);
  }

  lemma RemNextBit(m: nat, n: nat, c: nat)
    requires c < 2 && m == 2 * n + c
    ensures Rem(m) == Reduce(2 * Rem(n) + c)
  {
    NextRemainder(m, n, c, 2 * Rem(n) + c);
  }

  lemma {:induction false} RemContinuesTo(l: nat, r: nat, n: nat, y: nat, k: nat)
    requires y < Shift(1, k) && l == Shift(n, k) + y && r == Shift(Rem(n), k) + y
    ensures Rem(l) == Rem(r)
  {
    if k == 0 {
      RemBound(n);
      RemSmall(Rem(n));
    } else {
      var c := y % 2;
      RemContinuesTo(l / 2, r / 2, n, y / 2, k - 1);
      var t := 2 * Rem(l / 2) + c;
      NextRemainder(l, l / 2, c, t);
      NextRemainder(r, r / 2, c, t);
    }
  }

  /** More bits after n: only the remainder of n matters. */
  lemma RemContinues(n: nat, y: nat, k: nat)
    requires y < Shift(1, k)
    ensures Rem(Shift(n, k) + y) == Rem(Shift(Rem(n), k) + y)
  {
    RemContinuesTo(Shift(n, k) + y, Shift(Rem(n), k) + y, n, y, k);
  }

  lemma OddIsNotZero(t: nat, g: nat)
    requires t % 2 == 0 && g % 2 == 1
    ensures Xor(t, g) != 0
  {
    XorParts(t, g);
  }

  lemma DoubleZero(r: nat, t: nat)
    requires t == 2 * r
    ensures Reduce(t) == 0 <==> r == 0
  {
    if t >= 0x10000 {
      OddIsNotZero(t, GENERATOR);
    }
  }

  lemma RemDoubleZero(m: nat, n: nat)
    requires n == 2 * m
    ensures Rem(n) == 0 <==> Rem(m) == 0
  {
    var t := 2 * Rem(m);
    NextRemainder(n, m, 0, t);
    DoubleZero(Rem(m), t);
  }

  lemma {:induction false} RemShiftZero(d: nat, k: nat)
    ensures Rem(Shift(d, k)) == 0 <==> Rem(d) == 0
  {
    if k > 0 {
      RemShiftZero(d, k - 1);
      RemDoubleZero(Shift(d, k - 1), Shift(d, k));
    }
  }

  lemma {:induction false} DivisionHasRemainder(n: nat)
    ensures Xor(TimesGenerator(Quotient(n)), Rem(n)) == n
  {
    if n != 0 {
      var h, c := n / 2, n % 2;
      DivisionHasRemainder(h);
      var q, t := Quotient(h), 2 * Rem(h) + c;
      RemStepTo(n, h, c, t);
      DivisionStep(n, h, c, q, Rem(h), t, Quotient(n));
    }
  }

  /** One more bit of the dividend. */
  lemma DivisionStep(n: nat, h: nat, c: nat, q: nat, r: nat, t: nat, q': nat)
    requires c < 2 && n == 2 * h + c && t == 2 * r + c && Xor(TimesGenerator(q), r) == h
    requires q' == 2 * q + if t >= 0x10000 then 1 else 0
    ensures Xor(TimesGenerator(q'), Reduce(t)) == n
  {
    var p := TimesGenerator(q);
    XorStep(p, r, 0, c);
    NextQuotientBit(q, t, q');
    assert 2 * p + 0 == 2 * p;
  }

  lemma DoubleTimes(q: nat, q': nat, b: nat)
    requires b < 2 && q' == 2 * q + b
    ensures TimesGenerator(q') == Xor(2 * TimesGenerator(q), if b == 1 then GENERATOR else 0)
  {
    Half(q', q, b);
    if q' == 0 {
      XorZero(0);
    }
  }

  lemma NextQuotientBit(q: nat, t: nat, q': nat)
    requires q' == 2 * q + if t >= 0x10000 then 1 else 0
    ensures Xor(TimesGenerator(q'), Reduce(t)) == Xor(2 * TimesGenerator(q), t)
  {
    var p := 2 * TimesGenerator(q);
    DoubleTimes(q, q', if t >= 0x10000 then 1 else 0);
    if t >= 0x10000 {
      XorCancels(p, t, GENERATOR);
    } else {
      XorZero(p);
    }
  }

  lemma {:induction false} MultiplesHaveNoRemainder(q: nat)
    ensures Rem(TimesGenerator(q)) == 0
  {
    if q != 0 {
      MultiplesHaveNoRemainder(q / 2);
      var p := 2 * TimesGenerator(q / 2);
      var c := if q % 2 == 1 then GENERATOR else 0;
      RemShiftZero(TimesGenerator(q / 2), 1);
      assert Shift(TimesGenerator(q / 2), 1) == p;
      RemLinear(p, c);
      GeneratorHasNoRemainder();
      XorZero(0);
    }
  }

  lemma GeneratorHasNoRemainder()
    ensures Rem(GENERATOR) == 0
  {
    NoRemainder(GENERATOR, 0x8810);
  }

  lemma NoRemainder(g: nat, h: nat)
    requires g == GENERATOR && g == 2 * h + 1
    ensures Rem(g) == 0
  {
    RemNextBit(g, h, 1);
    RemSmall(h);
    XorSelf(g, g);
  }

  /** Rem is the remainder of division by the generator: the only polynomial of lower degree in its class. */
  lemma RemIsRemainder(n: nat, r: nat)
    requires r < 0x10000
    ensures r == Rem(n) <==> exists q: nat :: Xor(TimesGenerator(q), r) == n
  {
    DivisionHasRemainder(n);
    forall q: nat | Xor(TimesGenerator(q), r) == n
      ensures r == Rem(n)
    {
      RemLinear(TimesGenerator(q), r);
      MultiplesHaveNoRemainder(q);
      RemSmall(r);
      XorZero(r);
    }
  }

  // ---- Messages -------------------------------------------------------------

  /** The polynomial of a message, first byte first. */
  function Poly(m: seq<uint8>): nat {
    if m == [] then 0 else 0x100 * Poly(m[..|m| - 1]) + m[|m| - 1] as nat
  }

  /** CRC-16/XMODEM: the remainder of the message followed by sixteen zero bits. */
  function Crc(m: seq<uint8>): (r: nat)
    ensures r < U16
  {
    RemBound(Shift(Poly(m), 16));
    Rem(Shift(Poly(m), 16))
  }

  // ---- The table ------------------------------------------------------------

  /** Adding x^12 + x^5 + 1, term by term. */
  function Flip(x: int): int {
    x + (if x % 2 == 0 then 1 else -1) + (if x / 32 % 2 == 0 then 32 else -32)
      + (if x / 4096 % 2 == 0 then 4096 else -4096)
  }

  /** x with its lowest term added, or taken away. */
  function Toggled(x: nat): nat {
    if x % 2 == 0 then x + 1 else x - 1
  }

  lemma FlipLow(r: nat, m: nat, s: nat)
    requires s < 32 && r == 32 * m + s
    ensures Xor(r, 0x21) == 32 * Toggled(m) + Toggled(s)
  {
    Shift5(1);
    Shift5(m);
    Shift5(Toggled(m));
    FlipOne(m);
    FlipOne(s);
    XorShifted(r, 0x21, m, 1, s, 1, 5);
  }

  lemma FlipHigh(x: nat, h: nat, r: nat)
    requires r < 4096 && x == 4096 * h + r
    ensures Xor(x, 0x1021) == 4096 * Toggled(h) + Xor(r, 0x21)
  {
    Shift12(1);
    Shift12(h);
    Shift12(Toggled(h));
    FlipOne(h);
    XorShifted(x, 0x1021, h, 1, r, 0x21, 12);
  }

  lemma FlipIsXor(x: nat)
    requires x < 0x10000
    ensures Xor(x, 0x1021) == Flip(x)
  {
    var h, r := x / 4096, x % 4096;
    var m, s := r / 32, r % 32;
    FlipHigh(x, h, r);
    FlipLow(r, m, s);
    FlipParts(x, h, m, s);
  }

  lemma FlipParts(x: nat, h: nat, m: nat, s: nat)
    requires s < 32 && m < 128 && x == 4096 * h + 32 * m + s
    ensures Flip(x) == 4096 * Toggled(h) + 32 * Toggled(m) + Toggled(s)
  {
    Parity(x, 2048 * h + 16 * m, s);
    Parity(128 * h + m, 64 * h, m);
    assert x / 32 == 128 * h + m && x / 4096 == h;
  }

  lemma Parity(n: nat, a: nat, b: nat)
    requires n == 2 * a + b
    ensures n % 2 == b % 2
  {
  }

  lemma FlipOne(x: nat)
    ensures Xor(x, 1) == Toggled(x)
  {
    XorStep(x / 2, 0, x % 2, 1);
    XorZero(x / 2);
  }

  lemma Shift5(n: nat)
    ensures Shift(n, 5) == 32 * n
  {
    Shift4(n);
  }

  lemma Shift12(n: nat)
    ensures Shift(n, 12) == 4096 * n
  {
    Shift16(n);
    ShiftAdd(n, 8, 4);
    Shift4(Shift(n, 8));
  }

  /** The two entries that continue an entry by one more bit. */
  predicate Follow(e: nat, e0: nat, e1: nat) {
    e0 == (if e < 0x8000 then 2 * e else Flip(2 * e - 0x10000)) && e1 == Flip(e0)
  }

  /** Whether a row continues the eight entries of another that start at j. */
  predicate Continues(a: seq<nat>, j: nat, t: seq<nat>)
    requires j + 8 <= |a| && |t| == 16
  {
    && Follow(a[j], t[0], t[1]) && Follow(a[j + 1], t[2], t[3])
    && Follow(a[j + 2], t[4], t[5]) && Follow(a[j + 3], t[6], t[7])
    && Follow(a[j + 4], t[8], t[9]) && Follow(a[j + 5], t[10], t[11])
    && Follow(a[j + 6], t[12], t[13]) && Follow(a[j + 7], t[14], t[15])
  }

  lemma Row0()
    ensures Continues(ROW_0, 0, ROW_0)
  {
  }

  lemma Row1()
    ensures Continues(ROW_0, 8, ROW_1)
  {
  }

  lemma Row2()
    ensures Continues(ROW_1, 0, ROW_2)
  {
  }

  lemma Row3()
    ensures Continues(ROW_1, 8, ROW_3)
  {
  }

  lemma Row4()
    ensures Continues(ROW_2, 0, ROW_4)
  {
  }

  lemma Row5()
    ensures Continues(ROW_2, 8, ROW_5)
  {
  }

  lemma Row6()
    ensures Continues(ROW_3, 0, ROW_6)
  {
  }

  lemma Row7()
    ensures Continues(ROW_3, 8, ROW_7)
  {
  }

  lemma Row8()
    ensures Continues(ROW_4, 0, ROW_8)
  {
  }

  lemma Row9()
    ensures Continues(ROW_4, 8, ROW_9)
  {
  }

  lemma RowA()
    ensures Continues(ROW_5, 0, ROW_A)
  {
  }

  lemma RowB()
    ensures Continues(ROW_5, 8, ROW_B)
  {
  }

  lemma RowC()
    ensures Continues(ROW_6, 0, ROW_C)
  {
  }

  lemma RowD()
    ensures Continues(ROW_6, 8, ROW_D)
  {
  }

  lemma RowE()
    ensures Continues(ROW_7, 0, ROW_E)
  {
  }

  lemma RowF()
    ensures Continues(ROW_7, 8, ROW_F)
  {
  }

  predicate IsTable(t: seq<seq<nat>>) {
    && |t| == 16 && (forall r | 0 <= r < 16 :: |t[r]| == 16)
    && forall r | 0 <= r < 16 :: Continues(t[r / 2], 8 * (r % 2), t[r])
  }

  lemma LowRowOfTable(r: nat)
    requires r < 8
    ensures |TABLE[r]| == 16 && Continues(TABLE[r / 2], 8 * (r % 2), TABLE[r])
  {
    match r
    case 0 => Row0();
    case 1 => Row1();
    case 2 => Row2();
    case 3 => Row3();
    case 4 => Row4();
    case 5 => Row5();
    case 6 => Row6();
    case _ => Row7();
  }

  lemma HighRowOfTable(r: nat)
    requires 8 <= r < 16
    ensures |TABLE[r]| == 16 && Continues(TABLE[r / 2], 8 * (r % 2), TABLE[r])
  {
    match r
    case 8 => Row8();
    case 9 => Row9();
    case 10 => RowA();
    case 11 => RowB();
    case 12 => RowC();
    case 13 => RowD();
    case 14 => RowE();
    case _ => RowF();
  }

  lemma TableIsTable()
    ensures IsTable(TABLE)
  {
    forall r | 0 <= r < 16
      ensures |TABLE[r]| == 16 && Continues(TABLE[r / 2], 8 * (r % 2), TABLE[r])
    {
      if r < 8 {
        LowRowOfTable(r);
      } else {
        HighRowOfTable(r);
      }
    }
  }

  function At(t: seq<seq<nat>>, i: nat): nat
    requires IsTable(t) && i < 256
  {
    t[i / 16][i % 16]
  }

  lemma Pick(a: seq<nat>, j: nat, t: seq<nat>, k: nat)
    requires j + 8 <= |a| && |t| == 16 && Continues(a, j, t) && k < 8
    ensures Follow(a[j + k], t[2 * k], t[2 * k + 1])
  {
  }

  lemma EntryStep(t: seq<seq<nat>>, i: nat)
    requires IsTable(t) && i < 128
    ensures Follow(At(t, i), At(t, 2 * i), At(t, 2 * i + 1))
  {
    var r, k := i / 8, i % 8;
    Indices(i, r, k);
    Pick(t[r / 2], 8 * (r % 2), t[r], k);
  }

  lemma Indices(i: nat, r: nat, k: nat)
    requires i < 128 && r == i / 8 && k == i % 8
    ensures i / 16 == r / 2 && i % 16 == 8 * (r % 2) + k
    ensures 2 * i / 16 == r && 2 * i % 16 == 2 * k
    ensures (2 * i + 1) / 16 == r && (2 * i + 1) % 16 == 2 * k + 1
  {
  }

  lemma ReduceDoubled(e: nat)
    requires e < 0x10000
    ensures Reduce(2 * e) == if e < 0x8000 then 2 * e else Flip(2 * e - 0x10000)
  {
    if e >= 0x8000 {
      var l := 2 * e - 0x10000;
      Shift16(1);
      Shift16(0);
      XorSelf(1, 1);
      XorShift(1, 1, l, 0x1021, 16);
      FlipIsXor(l);
    }
  }

  lemma {:induction false} ShiftSum(a: nat, b: nat, k: nat)
    ensures Shift(a + b, k) == Shift(a, k) + Shift(b, k)
  {
    if k > 0 {
      ShiftSum(a, b, k - 1);
    }
  }

  /** The next bit after a byte prefix i, with sixteen zero bits behind it. */
  lemma RemOfEntry(i: nat)
    ensures Rem(Shift(2 * i, 16)) == Reduce(2 * Rem(Shift(i, 16)))
    ensures Rem(Shift(2 * i + 1, 16)) == Xor(Rem(Shift(2 * i, 16)), 0x1021)
  {
    assert Rem(Shift(2 * i, 16)) == Reduce(2 * Rem(Shift(i, 16))) by {
      ShiftSum(i, i, 16);
      RemNextBit(Shift(2 * i, 16), Shift(i, 16), 0);
    }
    assert Xor(2 * i, 1) == 2 * i + 1 by {
      FlipOne(2 * i);
    }
    assert Rem(Shift(Xor(2 * i, 1), 16)) == Xor(Rem(Shift(2 * i, 16)), 0x1021) by {
      RemOfX16();
      RemOfSum(2 * i, 1);
    }
  }

  lemma RemOfX16()
    ensures Rem(Shift(1, 16)) == 0x1021
  {
    Shift16(1);
    RemNextBit(0x10000, 0x8000, 0);
    RemSmall(0x8000);
    ReduceDoubled(0x8000);
  }

  /** A table that starts with zero and continues bit by bit holds the remainders of all bytes. */
  lemma {:induction false} EntryIsRem(t: seq<seq<nat>>, i: nat)
    requires IsTable(t) && At(t, 0) == 0 && i < 256
    ensures At(t, i) == Rem(Shift(i, 16))
  {
    if i == 0 {
      ShiftZero(16);
    } else {
      var h := i / 2;
      EntryIsRem(t, h);
      EntryStep(t, h);
      NextEntries(h, At(t, h), At(t, 2 * h), At(t, 2 * h + 1));
      assert i == 2 * h || i == 2 * h + 1;
    }
  }

  lemma NextEntries(h: nat, e: nat, e0: nat, e1: nat)
    requires e == Rem(Shift(h, 16)) && Follow(e, e0, e1)
    ensures e0 == Rem(Shift(2 * h, 16)) && e1 == Rem(Shift(2 * h + 1, 16))
  {
    RemBound(Shift(h, 16));
    ReduceDoubled(e);
    RemOfEntry(h);
    RemBound(Shift(2 * h, 16));
    FlipIsXor(e0);
  }

  /** The table holds the remainders of all bytes. */
  method Lookup(i: nat) returns (e: nat)
    requires i < 256
    ensures e == Rem(Shift(i, 16))
  {
    TableIsTable();
    FirstEntry();
    EntryIsRem(TABLE, i);
    e := TABLE[i / 16][i % 16];
  }

  lemma FirstEntry()
    ensures TABLE[0][0] == 0
  {
  }

  // ---- The loop -------------------------------------------------------------

  /** crc16_xmodem for one more byte. */
  function NextCrc(crc: nat, b: uint8): nat
    requires crc < U16
  {
    Xor(crc % 0x100 * 0x100, Rem(Shift(Xor(crc / 0x100, b as nat), 16)))
  }

  lemma XorBytes(x: nat, y: nat)
    requires x < 0x100 && y < 0x100
    ensures Xor(x, y) < 0x100
  {
    Shift16(1);
    XorShift(0, 0, x, y, 8);
  }

  /** Two polynomials without a common term. */
  lemma XorDisjoint(a: nat, y: nat, k: nat)
    requires y < Shift(1, k)
    ensures Xor(Shift(a, k), y) == Shift(a, k) + y
  {
    ShiftZero(k);
    XorShift(a, 0, 0, y, k);
    XorZero(a);
    XorZero(y);
  }

  lemma {:induction false} ShiftBound(y: nat, j: nat, k: nat)
    requires y < Shift(1, j)
    ensures Shift(y, k) < Shift(1, j + k)
  {
    if k > 0 {
      ShiftBound(y, j, k - 1);
    }
  }

  lemma SplitMessage(v: nat, y: nat)
    requires y < Shift(1, 8)
    ensures Rem(Shift(Shift(v, 8) + y, 16)) == Xor(Rem(Shift(Rem(Shift(v, 16)), 8)), Rem(Shift(y, 16)))
  {
    var m, b := Shift(Shift(v, 8) + y, 16), Shift(y, 16);
    assert m == Shift(v, 24) + b by {
      ShiftSum(Shift(v, 8), y, 16);
      ShiftAdd(v, 8, 16);
    }
    assert b < Shift(1, 24) by {
      ShiftBound(y, 8, 16);
    }
    SumOfDisjoint(m, v, b, 24);
    RemOfPrefix(v);
  }

  lemma RemOfPrefix(v: nat)
    ensures Rem(Shift(v, 24)) == Rem(Shift(Rem(Shift(v, 16)), 8))
  {
    ShiftAdd(v, 16, 8);
    RemContinues(Shift(v, 16), 0, 8);
  }

  lemma SplitRegister(crc: nat)
    requires crc < U16
    ensures Rem(Shift(crc, 8)) == Xor(Rem(Shift(crc / 0x100, 16)), crc % 0x100 * 0x100)
  {
    var h, l := crc / 0x100, crc % 0x100;
    assert Shift(crc, 8) == Shift(h, 16) + Shift(l, 8) by {
      Shift16(h);
      ShiftSum(Shift(h, 8), l, 8);
      ShiftAdd(h, 8, 8);
    }
    assert Shift(l, 8) == l * 0x100 < 0x10000 == Shift(1, 16) by {
      Shift16(l);
      Shift16(1);
    }
    SumOfDisjoint(Shift(crc, 8), h, Shift(l, 8), 16);
    RemSmall(Shift(l, 8));
  }

  lemma SumOfDisjoint(n: nat, a: nat, y: nat, k: nat)
    requires y < Shift(1, k) && n == Shift(a, k) + y
    ensures Rem(n) == Xor(Rem(Shift(a, k)), Rem(y))
  {
    XorDisjoint(a, y, k);
    RemLinear(Shift(a, k), y);
  }

  lemma RemOfSum(h: nat, y: nat)
    ensures Rem(Shift(Xor(h, y), 16)) == Xor(Rem(Shift(h, 16)), Rem(Shift(y, 16)))
  {
    var a, b := Shift(h, 16), Shift(y, 16);
    assert Xor(a, b) == Shift(Xor(h, y), 16) by {
      Shift16(1);
      XorShifted(a, b, h, y, 0, 0, 16);
      XorZero(0);
    }
    RemLinear(a, b);
  }

  lemma PolyOfOneMore(m: seq<uint8>, b: uint8)
    ensures Poly(m + [b]) == Shift(Poly(m), 8) + b as nat
  {
    assert (m + [b])[..|m|] == m;
    Shift16(Poly(m));
  }

  lemma DivideOneMore(m: seq<uint8>, b: uint8)
    ensures Crc(m + [b]) == Xor(Rem(Shift(Crc(m), 8)), Rem(Shift(b as nat, 16)))
  {
    PolyOfOneMore(m, b);
    Shift16(1);
    SplitMessage(Poly(m), b as nat);
  }

  lemma NextRegister(crc: nat, b: uint8)
    requires crc < U16
    ensures Xor(Rem(Shift(crc, 8)), Rem(Shift(b as nat, 16))) == NextCrc(crc, b)
  {
    var h, g := crc / 0x100, crc % 0x100 * 0x100;
    SplitRegister(crc);
    RemOfSum(h, b as nat);
    SwapLast(Rem(Shift(h, 16)), Rem(Shift(b as nat, 16)), g);
  }

  /** Feeding a byte into the register is the same as dividing the longer message. */
  lemma CrcStep(m: seq<uint8>, b: uint8)
    ensures Crc(m + [b]) == NextCrc(Crc(m), b)
  {
    DivideOneMore(m, b);
    NextRegister(Crc(m), b);
  }

  lemma SwapLast(s: nat, t: nat, g: nat)
    ensures Xor(Xor(s, g), t) == Xor(g, Xor(s, t))
  {
    XorCancels(s, t, g);
    XorCommutes(Xor(s, t), g);
  }

  /** crc16_xmodem: the table-driven loop computes the remainder of the division. */
  method Crc16Xmodem(buf: seq<uint8>) returns (crc: nat)
    ensures crc == Crc(buf)
  {
    crc := 0;
    ShiftZero(16);
    for counter := 0 to |buf|
      invariant crc == Crc(buf[..counter])
    {
      crc := CrcOfOneMore(buf[..counter], crc, buf[counter]);
      assert buf[..counter + 1] == buf[..counter] + [buf[counter]];
    }
    assert buf[..|buf|] == buf;
  }

  /** The loop body: the sixteen-bit register after one more byte. */
  method CrcOfOneMore(ghost m: seq<uint8>, crc: nat, b: uint8) returns (next: nat)
    requires crc == Crc(m)
    ensures next == Crc(m + [b])
  {
    var i := Xor(crc / 0x100, b as nat);
    XorBytes(crc / 0x100, b as nat);
    assert i % 0x100 == i;
    var e := Lookup(i % 0x100);
    next := Xor(crc * 0x100 % U16, e);
    RegisterStep(crc, b, i, e, next);
    CrcStep(m, b);
  }

  lemma RegisterStep(crc: nat, b: uint8, i: nat, e: nat, next: nat)
    requires crc < U16 && i == Xor(crc / 0x100, b as nat)
    requires e == Rem(Shift(i, 16)) && next == Xor(crc * 0x100 % U16, e)
    ensures next == NextCrc(crc, b)
  {
    Truncate(crc);
  }

  lemma Truncate(crc: nat)
    requires crc < U16
    ensures crc * 0x100 % U16 == crc % 0x100 * 0x100
  {
    var h, l := crc / 0x100, crc % 0x100;
    assert crc * 0x100 == U16 * h + l * 0x100;
  }

  // ---- What the checksum is for ---------------------------------------------

  /** The checksum as it is sent, most significant byte first. */
  function CrcBytes(m: seq<uint8>): seq<uint8> {
    [(Crc(m) / 0x100) as uint8, (Crc(m) % 0x100) as uint8]
  }

  lemma OwnByteCancels(c: nat, b: uint8)
    requires c < U16 && b as nat == c / 0x100
    ensures NextCrc(c, b) == c % 0x100 * 0x100
  {
    XorSelf(c / 0x100, b as nat);
    ShiftZero(16);
    XorZero(c % 0x100 * 0x100);
  }

  /** A message with its own checksum behind it has checksum zero. */
  lemma ResidueIsZero(m: seq<uint8>)
    ensures Crc(m + CrcBytes(m)) == 0
  {
    var c := Crc(m);
    var hi, lo := CrcBytes(m)[0], CrcBytes(m)[1];
    CrcStep(m, hi);
    OwnByteCancels(c, hi);
    CrcStep(m + [hi], lo);
    OwnByteCancels(c % 0x100 * 0x100, lo);
    assert m + [hi] + [lo] == m + CrcBytes(m);
  }

  lemma {:induction false} PolyConcat(a: seq<uint8>, c: seq<uint8>)
    ensures Poly(a + c) == Shift(Poly(a), 8 * |c|) + Poly(c)
    ensures Poly(c) < Shift(1, 8 * |c|)
  {
    if c == [] {
      assert a + c == a;
    } else {
      var front := c[..|c| - 1];
      PolyConcat(a, front);
      assert (a + c)[..|a + c| - 1] == a + front;
      ShiftAdd(Poly(a), 8 * |front|, 8);
      Shift16(Shift(Poly(a), 8 * |front|));
      ShiftAdd(1, 8 * |front|, 8);
      Shift16(Shift(1, 8 * |front|));
    }
  }

  lemma ShortPolyDiffers(u: seq<uint8>, w: seq<uint8>)
    requires |u| == |w| <= 2 && u != w
    ensures Poly(u) != Poly(w) && Poly(u) < U16 && Poly(w) < U16
  {
    if |u| == 2 {
      assert u == [u[0], u[1]] && w == [w[0], w[1]];
      assert Poly(u) == 0x100 * Poly(u[..1]) + u[1] as nat && Poly(w) == 0x100 * Poly(w[..1]) + w[1] as nat;
    }
    if |u| >= 1 {
      assert u[..1][..0] == [] && w[..1][..0] == [];
      assert |u| == 1 ==> u == [u[0]] && w == [w[0]] && u[..1] == u && w[..1] == w;
    }
  }

  lemma SameEnds(l: nat, r: nat, p: nat, q: nat, y: nat, k: nat)
    requires l == Shift(p, k) + y && r == Shift(q, k) + y && y < Shift(1, k)
    ensures Xor(l, r) == Shift(Xor(p, q), k)
  {
    XorShifted(l, r, p, q, y, y, k);
    XorSelf(y, y);
  }

  lemma SameStart(l: nat, r: nat, p: nat, x: nat, y: nat, k: nat)
    requires l == Shift(p, k) + x && r == Shift(p, k) + y && x < Shift(1, k) && y < Shift(1, k)
    ensures Xor(l, r) == Xor(x, y)
  {
    XorShifted(l, r, p, p, x, y, k);
    XorSelf(p, p);
    ShiftZero(k);
  }

  /** The difference of two messages that agree except in the middle. */
  lemma Difference(a: seq<uint8>, u: seq<uint8>, w: seq<uint8>, c: seq<uint8>)
    requires |u| == |w|
    ensures Xor(Poly(a + u + c), Poly(a + w + c)) == Shift(Xor(Poly(u), Poly(w)), 8 * |c|)
  {
    var pu, pw := Poly(a + u), Poly(a + w);
    assert Xor(pu, pw) == Xor(Poly(u), Poly(w)) by {
      PolyConcat(a, u);
      PolyConcat(a, w);
      SameStart(pu, pw, Poly(a), Poly(u), Poly(w), 8 * |u|);
    }
    assert Xor(Poly(a + u + c), Poly(a + w + c)) == Shift(Xor(pu, pw), 8 * |c|) by {
      PolyConcat(a + u, c);
      PolyConcat(a + w, c);
      SameEnds(Poly(a + u + c), Poly(a + w + c), pu, pw, Poly(c), 8 * |c|);
    }
  }

  lemma {:induction false} ShiftZero(k: nat)
    ensures Shift(0, k) == 0
  {
    if k > 0 {
      ShiftZero(k - 1);
    }
  }

  /** Any change that is confined to two neighbouring bytes changes the checksum. */
  lemma ShortBurstsAreDetected(a: seq<uint8>, u: seq<uint8>, w: seq<uint8>, c: seq<uint8>)
    requires |u| == |w| <= 2 && u != w
    ensures Crc(a + u + c) != Crc(a + w + c)
  {
    var d := Xor(Poly(u), Poly(w));
    ShortPolyDiffers(u, w);
    Shift16(1);
    ShiftZero(16);
    XorShift(0, 0, Poly(u), Poly(w), 16);
    XorSelf(Poly(u), Poly(w));
    RemSmall(d);
    Difference(a, u, w, c);
    RemShiftZero(d, 8 * |c| + 16);
    ShiftAdd(d, 8 * |c|, 16);
    RemOfSum(Poly(a + u + c), Poly(a + w + c));
    XorSelf(Crc(a + u + c), Crc(a + w + c));
  }
}
