/**
 What the armor checksum is (section 6.1 of RFC 4880), apart from how armor.c shifts it along: the
 remainder of a polynomial over the field of two elements. A polynomial is a number whose bits are its
 coefficients; adding is exclusive or, and multiplying is shifting and adding without carries.
 */
module Crc24 {
  import opened Packets
  import opened Armor

  // ------------------------------------------------------------------ polynomials

  function Plus(a: nat, b: nat): (r: nat)
    decreases a + b
  {
    if a == 0 then b else if b == 0 then a else 2 * Plus(a / 2, b / 2) + (a + b) % 2
  }

  function Times(q: nat, g: nat): (r: nat)
    decreases q
  {
    if q == 0 then 0 else Plus(IfOdd(q, g), 2 * Times(q / 2, g))
  }

  function IfOdd(q: nat, g: nat): (r: nat) { if q % 2 == 1 then g else 0 }

  /** Multiplied by x^k: moved up by `k` places. */
  function Up(a: nat, k: nat): (r: nat) { if k == 0 then a else 2 * Up(a, k - 1) }

  /** x^24 + x^23 + x^18 + x^17 + x^14 + x^11 + x^10 + x^7 + x^6 + x^5 + x^4 + x^3 + x + 1 */
  const GENERATOR: nat := 0x1864CFB

  /** Two polynomials differ by a multiple of the generator. */
  ghost predicate Congruent(a: nat, b: nat) {
    exists q: nat :: Plus(a, b) == Times(q, GENERATOR)
  }

  /** The octets as one polynomial, the first octet highest. */
  function Message(data: seq<byte>): (m: nat) {
    if data == [] then 0 else Message(data[..|data| - 1]) * 256 + data[|data| - 1]
  }

  // ---------------------------------------------------------------------- adding

  lemma {:induction false} PlusStep(a: nat, b: nat)
    ensures Plus(a, b) == 2 * Plus(a / 2, b / 2) + (a + b) % 2
  {
    if a == 0 {
      assert Plus(0, b / 2) == b / 2;
    } else if b == 0 {
      assert Plus(a / 2, 0) == a / 2;
    }
  }

  lemma {:induction false} PlusParts(a: nat, b: nat)
    ensures Plus(a, b) / 2 == Plus(a / 2, b / 2) && Plus(a, b) % 2 == (a + b) % 2
  {
    PlusStep(a, b);
  }

  lemma {:induction false} PlusComm(a: nat, b: nat)
    ensures Plus(a, b) == Plus(b, a)
    decreases a + b
  {
    if a != 0 && b != 0 {
      PlusComm(a / 2, b / 2);
    }
  }

  lemma {:induction false} PlusAssoc(a: nat, b: nat, c: nat)
    ensures Plus(Plus(a, b), c) == Plus(a, Plus(b, c))
    decreases a + b + c
  {
    if a != 0 && b != 0 && c != 0 {
      PlusAssoc(a / 2, b / 2, c / 2);
      PlusParts(a, b);
      PlusParts(b, c);
      AssocStep(a, b, c, Plus(a, b), Plus(b, c));
    }
  }

  lemma {:induction false} AssocStep(a: nat, b: nat, c: nat, ab: nat, bc: nat)
    requires ab % 2 == (a + b) % 2 && bc % 2 == (b + c) % 2 && Plus(ab / 2, c / 2) == Plus(a / 2, bc / 2)
    ensures Plus(ab, c) == Plus(a, bc)
  {
    PlusStep(ab, c);
    PlusStep(a, bc);
    Parity(a, b, c, ab, bc);
  }

  lemma {:induction false} Parity(a: nat, b: nat, c: nat, ab: nat, bc: nat)
    requires ab % 2 == (a + b) % 2 && bc % 2 == (b + c) % 2
    ensures (ab + c) % 2 == (a + bc) % 2
  {
  }

  lemma {:induction false} PlusSelf(a: nat)
    ensures Plus(a, a) == 0
  {
    if a != 0 {
      PlusSelf(a / 2);
    }
  }

  lemma {:induction false} PlusDouble(a: nat, b: nat)
    ensures Plus(2 * a, 2 * b) == 2 * Plus(a, b)
  {
    PlusStep(2 * a, 2 * b);
  }

  /** (a + b) + (c + d) == (a + c) + (b + d) */
  lemma {:induction false} PlusSwap(a: nat, b: nat, c: nat, d: nat)
    ensures Plus(Plus(a, b), Plus(c, d)) == Plus(Plus(a, c), Plus(b, d))
  {
    PlusAssoc(a, b, Plus(c, d));
    PlusAssoc(b, c, d);
    PlusComm(b, c);
    PlusAssoc(c, b, d);
    PlusAssoc(a, c, Plus(b, d));
  }

  /** What is added twice is gone. */
  lemma {:induction false} PlusCancel(a: nat, b: nat, c: nat)
    ensures Plus(Plus(a, b), Plus(b, c)) == Plus(a, c)
  {
    PlusComm(a, b);
    PlusSwap(b, a, b, c);
    PlusSelf(b);
  }

  // ----------------------------------------------------------------- multiplying

  lemma {:induction false} TimesStep(q: nat, g: nat)
    ensures Times(q, g) == Plus(IfOdd(q, g), 2 * Times(q / 2, g))
  {
  }

  lemma {:induction false} TimesPlus(p: nat, q: nat, g: nat)
    ensures Times(Plus(p, q), g) == Plus(Times(p, g), Times(q, g))
    decreases p + q
  {
    if p != 0 && q != 0 {
      PlusParts(p, q);
      TimesPlus(p / 2, q / 2, g);
      TimesJoin(p, q, Plus(p, q), g, Times(p / 2, g), Times(q / 2, g));
    }
  }

  lemma {:induction false} TimesJoin(p: nat, q: nat, r: nat, g: nat, x: nat, y: nat)
    requires r % 2 == (p + q) % 2 && x == Times(p / 2, g) && y == Times(q / 2, g) && Times(r / 2, g) == Plus(x, y)
    ensures Times(r, g) == Plus(Times(p, g), Times(q, g))
  {
    TimesStep(p, g);
    TimesStep(q, g);
    TimesStep(r, g);
    OddPlus(p, q, r, g);
    PlusDouble(x, y);
    PlusSwap(IfOdd(p, g), 2 * x, IfOdd(q, g), 2 * y);
  }

  lemma {:induction false} OddPlus(p: nat, q: nat, r: nat, g: nat)
    requires r % 2 == (p + q) % 2
    ensures Plus(IfOdd(p, g), IfOdd(q, g)) == IfOdd(r, g)
  {
    PlusSelf(g);
  }

  lemma {:induction false} TimesDouble(q: nat, g: nat)
    ensures Times(2 * q, g) == 2 * Times(q, g)
  {
    if q != 0 {
      TimesStep(2 * q, g);
    }
  }

  lemma {:induction false} TimesOne(g: nat)
    ensures Times(1, g) == g
  {
    TimesStep(1, g);
  }

  // ------------------------------------------------------------------- congruence

  lemma {:induction false} SameIsCongruent(a: nat)
    ensures Congruent(a, a)
  {
    PlusSelf(a);
    assert Plus(a, a) == Times(0, GENERATOR);
  }

  lemma {:induction false} CongruentPlus(a: nat, b: nat, c: nat, d: nat)
    requires Congruent(a, b) && Congruent(c, d)
    ensures Congruent(Plus(a, c), Plus(b, d))
  {
    var p: nat :| Plus(a, b) == Times(p, GENERATOR);
    var q: nat :| Plus(c, d) == Times(q, GENERATOR);
    PlusSwap(a, c, b, d);
    TimesPlus(p, q, GENERATOR);
    assert Plus(Plus(a, c), Plus(b, d)) == Times(Plus(p, q), GENERATOR);
  }

  lemma {:induction false} CongruentTrans(a: nat, b: nat, c: nat)
    requires Congruent(a, b) && Congruent(b, c)
    ensures Congruent(a, c)
  {
    var p: nat :| Plus(a, b) == Times(p, GENERATOR);
    var q: nat :| Plus(b, c) == Times(q, GENERATOR);
    PlusCancel(a, b, c);
    TimesPlus(p, q, GENERATOR);
    assert Plus(a, c) == Times(Plus(p, q), GENERATOR);
  }

  lemma {:induction false} CongruentDouble(a: nat, b: nat)
    requires Congruent(a, b)
    ensures Congruent(2 * a, 2 * b)
  {
    var q: nat :| Plus(a, b) == Times(q, GENERATOR);
    PlusDouble(a, b);
    TimesDouble(q, GENERATOR);
    assert Plus(2 * a, 2 * b) == Times(2 * q, GENERATOR);
  }

  lemma {:induction false} CongruentUp(a: nat, b: nat, k: nat)
    requires Congruent(a, b)
    ensures Congruent(Up(a, k), Up(b, k))
  {
    if k > 0 {
      CongruentUp(a, b, k - 1);
      CongruentDouble(Up(a, k - 1), Up(b, k - 1));
    }
  }

  // ------------------------------------------------------------------ a step of armor.c

  /** The exclusive or of so many bits is the sum. */
  lemma {:induction false} XorIsPlus(a: nat, b: nat, k: nat)
    requires a < Pow2(k) && b < Pow2(k)
    ensures Xor(a, b, k) == Plus(a, b)
  {
    if k > 0 {
      XorIsPlus(a / 2, b / 2, k - 1);
      PlusStep(a, b);
    }
  }

  lemma {:induction false} ShiftIsDouble(crc: nat)
    requires crc < 0x100_0000
    ensures Congruent(2 * crc, CrcShift(crc))
  {
    var y := 2 * crc;
    PowersUsed();
    if y >= 0x100_0000 {
      XorIsPlus(y, GENERATOR, 25);
      PlusAssoc(y, y, GENERATOR);
      PlusSelf(y);
      TimesOne(GENERATOR);
      assert Plus(y, CrcShift(crc)) == Times(1, GENERATOR);
    } else {
      SameIsCongruent(y);
    }
  }

  lemma {:induction false} ShiftsAreUp(crc: nat, n: nat)
    requires crc < 0x100_0000
    ensures Congruent(Up(crc, n), CrcShifts(crc, n))
  {
    if n == 0 {
      SameIsCongruent(crc);
    } else {
      ShiftsAreUp(crc, n - 1);
      CongruentDouble(Up(crc, n - 1), CrcShifts(crc, n - 1));
      ShiftIsDouble(CrcShifts(crc, n - 1));
      CongruentTrans(Up(crc, n), 2 * CrcShifts(crc, n - 1), CrcShifts(crc, n));
    }
  }

  lemma {:induction false} PlusUp(a: nat, b: nat, k: nat)
    ensures Plus(Up(a, k), Up(b, k)) == Up(Plus(a, b), k)
  {
    if k > 0 {
      PlusUp(a, b, k - 1);
      PlusDouble(Up(a, k - 1), Up(b, k - 1));
    }
  }

  lemma {:induction false} UpUp(a: nat, j: nat, k: nat)
    ensures Up(Up(a, j), k) == Up(a, j + k)
  {
    if k > 0 {
      UpUp(a, j, k - 1);
    }
  }

  lemma {:induction false} UpEight(a: nat)
    ensures Up(a, 8) == 0x100 * a
  {
    assert Up(a, 1) == 2 * a;
    assert Up(a, 2) == 4 * a;
    assert Up(a, 3) == 8 * a;
    assert Up(a, 4) == 0x10 * a;
    assert Up(a, 5) == 0x20 * a;
    assert Up(a, 6) == 0x40 * a;
    assert Up(a, 7) == 0x80 * a;
  }

  lemma {:induction false} UpMany(a: nat)
    ensures Up(a, 8) == 0x100 * a && Up(a, 16) == 0x1_0000 * a && Up(a, 24) == 0x100_0000 * a
  {
    UpEight(a);
    UpEight(Up(a, 8));
    UpUp(a, 8, 8);
    UpEight(Up(a, 16));
    UpUp(a, 16, 8);
  }

  /** An octet moves the running value up by eight and comes in above it. */
  lemma {:induction false} OctetStep(crc: nat, c: byte)
    requires crc < 0x100_0000
    ensures Congruent(Plus(Up(crc, 8), Up(c, 24)), CrcOctet(crc, c))
  {
    PowersUsed();
    UpMany(c);
    UpUp(c, 16, 8);
    XorIsPlus(crc, Up(c, 16), 24);
    PlusUp(crc, Up(c, 16), 8);
    ShiftsAreUp(Xor(crc, Up(c, 16), 24), 8);
  }

  // --------------------------------------------------------------------- the theorem

  lemma {:induction false} CrcSnoc(crc: nat, data: seq<byte>, c: byte)
    requires crc < 0x100_0000
    ensures Crc(crc, data + [c]) == CrcOctet(Crc(crc, data), c)
    decreases |data|
  {
    if data == [] {
      assert [] + [c] == [c] && [c][1..] == [];
      assert Crc(crc, [c]) == Crc(CrcOctet(crc, c), []);
    } else {
      assert (data + [c])[1..] == data[1..] + [c] && (data + [c])[0] == data[0];
      CrcSnoc(CrcOctet(crc, data[0]), data[1..], c);
    }
  }

  /** Numbers with no bits in common: adding is adding. */
  lemma {:induction false} PlusApart(a: nat, b: nat, k: nat)
    requires b < Pow2(k)
    ensures Plus(Up(a, k), b) == Up(a, k) + b
  {
    if k > 0 {
      PlusApart(a, b / 2, k - 1);
      ApartStep(Up(a, k - 1), b);
    }
  }

  lemma {:induction false} ApartStep(x: nat, b: nat)
    requires Plus(x, b / 2) == x + b / 2
    ensures Plus(2 * x, b) == 2 * x + b
  {
    PlusStep(2 * x, b);
  }

  /** The octets behind the start value, moved up by the 24 places of the checksum. */
  function Dividend(start: nat, data: seq<byte>): (m: nat) {
    Plus(Up(start, 8 * |data|), Up(Message(data), 24))
  }

  lemma {:induction false} PowerEight()
    ensures Pow2(8) == 0x100
  {
    var a, b := Pow2(2), Pow2(4);
    assert a == 4;
    assert b == 2 * (2 * a);
    assert Pow2(6) == 2 * (2 * b);
  }

  lemma {:induction false} MessageSnoc(data: seq<byte>, c: byte)
    ensures Message(data + [c]) == Plus(Up(Message(data), 8), c)
  {
    assert (data + [c])[..|data|] == data;
    UpEight(Message(data));
    PowerEight();
    PlusApart(Message(data), c, 8);
  }

  lemma {:induction false} DividendSnoc(start: nat, data: seq<byte>, c: byte)
    ensures Dividend(start, data + [c]) == Plus(Up(Dividend(start, data), 8), Up(c, 24))
  {
    MessageSnoc(data, c);
    UpUp(start, 8 * |data|, 8);
    DividendUp(Up(start, 8 * |data|), Message(data), c);
  }

  lemma {:induction false} DividendUp(s: nat, m: nat, c: nat)
    ensures Plus(Up(s, 8), Up(Plus(Up(m, 8), c), 24)) == Plus(Up(Plus(s, Up(m, 24)), 8), Up(c, 24))
  {
    PlusUp(Up(m, 8), c, 24);
    UpUp(m, 8, 24);
    UpUp(m, 24, 8);
    PlusUp(s, Up(m, 24), 8);
    PlusAssoc(Up(s, 8), Up(m, 32), Up(c, 24));
  }

  /** From any start value the running value is congruent to the dividend. */
  lemma {:induction false} CrcCongruent(start: nat, data: seq<byte>)
    requires start < 0x100_0000
    ensures Congruent(Dividend(start, data), Crc(start, data))
  {
    if data == [] {
      ZeroUp(24);
      PlusComm(start, 0);
      SameIsCongruent(start);
    } else {
      var init, c := data[..|data| - 1], data[|data| - 1];
      assert data == init + [c];
      CrcCongruent(start, init);
      CrcSnoc(start, init, c);
      DividendSnoc(start, init, c);
      CongruentNext(Dividend(start, init), Crc(start, init), c);
    }
  }

  lemma {:induction false} ZeroUp(k: nat)
    ensures Up(0, k) == 0
  {
    if k > 0 {
      ZeroUp(k - 1);
    }
  }

  lemma {:induction false} CongruentNext(m: nat, v: nat, c: byte)
    requires v < 0x100_0000 && Congruent(m, v)
    ensures Congruent(Plus(Up(m, 8), Up(c, 24)), CrcOctet(v, c))
  {
    CongruentUp(m, v, 8);
    SameIsCongruent(Up(c, 24));
    CongruentPlus(Up(m, 8), Up(v, 8), Up(c, 24), Up(c, 24));
    OctetStep(v, c);
    CongruentTrans(Plus(Up(m, 8), Up(c, 24)), Plus(Up(v, 8), Up(c, 24)), CrcOctet(v, c));
  }

  /** A multiple of the generator other than zero has 25 bits or more. */
  lemma {:induction false} MultipleLarge(q: nat)
    ensures q > 0 ==> Times(q, GENERATOR) >= 0x100_0000
  {
    if q == 1 {
      TimesOne(GENERATOR);
    } else if q > 1 {
      MultipleLarge(q / 2);
      TimesStep(q, GENERATOR);
      PowersUsed();
      if q % 2 == 1 {
        var t := 2 * Times(q / 2, GENERATOR);
        PlusAboveTop(GENERATOR, t, 25);
      }
    }
  }

  /** Adding what has bits from place `k` on to what has none leaves some. */
  lemma {:induction false} PlusAboveTop(a: nat, b: nat, k: nat)
    requires a < Pow2(k) <= b
    ensures Plus(a, b) >= Pow2(k)
  {
    if k > 0 {
      PlusAboveTop(a / 2, b / 2, k - 1);
      PlusStep(a, b);
    }
  }

  /** A number below 2^24 is determined by what it is congruent to. */
  lemma {:induction false} RemainderUnique(m: nat, r: nat, s: nat)
    requires r < 0x100_0000 && s < 0x100_0000 && Congruent(m, r) && Congruent(m, s)
    ensures r == s
  {
    PlusComm(m, r);
    assert Congruent(r, m) by {
      var q: nat :| Plus(m, r) == Times(q, GENERATOR);
      assert Plus(r, m) == Times(q, GENERATOR);
    }
    CongruentTrans(r, m, s);
    var q: nat :| Plus(r, s) == Times(q, GENERATOR);
    PowersUsed();
    XorIsPlus(r, s, 24);
    MultipleLarge(q);
    assert Plus(r, s) == 0;
    PlusCancel(r, s, 0);
    PlusComm(r, s);
    PlusZero(r, s);
  }

  lemma {:induction false} PlusZero(a: nat, b: nat)
    requires Plus(a, b) == 0
    ensures a == b
    decreases a + b
  {
    if a != 0 && b != 0 {
      PlusZero(a / 2, b / 2);
    }
  }

  /**
   The checksum of the armor is the remainder: the one number below 2^24 that differs by a multiple of
   the generator from the octets, with the start value in front, followed by 24 zeros.
   */
  lemma {:induction false} CrcIsRemainder(data: seq<byte>, r: nat)
    ensures r == Crc(0xB704CE, data) <==>
            r < 0x100_0000 && Congruent(Plus(Up(0xB704CE, 8 * |data|), Up(Message(data), 24)), r)
  {
    CrcCongruent(0xB704CE, data);
    if r < 0x100_0000 && Congruent(Dividend(0xB704CE, data), r) {
      RemainderUnique(Dividend(0xB704CE, data), r, Crc(0xB704CE, data));
    }
  }

  lemma {:induction false} CrcConcat(crc: nat, a: seq<byte>, b: seq<byte>)
    requires crc < 0x100_0000
    ensures Crc(crc, a + b) == Crc(Crc(crc, a), b)
    decreases |a|
  {
    if a == [] {
      assert a + b == b;
    } else {
      assert (a + b)[1..] == a[1..] + b && (a + b)[0] == a[0];
      CrcConcat(CrcOctet(crc, a[0]), a[1..], b);
    }
  }

  lemma {:induction false} ThreeOctets(v: nat)
    requires v < 0x100_0000
    ensures Message([v / 0x1_0000, v / 0x100 % 0x100, v % 0x100]) == v
  {
    var d: seq<byte> := [v / 0x1_0000, v / 0x100 % 0x100, v % 0x100];
    assert d[..2] == [d[0], d[1]] && d[..2][..1] == [d[0]] && d[..2][..1][..0] == [];
    assert Message([d[0]]) == d[0] as int;
  }

  /** Octets followed by their checksum have the checksum zero. */
  lemma {:induction false} CrcLeavesZero(data: seq<byte>)
    ensures var v := Crc(0xB704CE, data);
            Crc(0xB704CE, data + [v / 0x1_0000, v / 0x100 % 0x100, v % 0x100]) == 0
  {
    var v := Crc(0xB704CE, data);
    var d: seq<byte> := [v / 0x1_0000, v / 0x100 % 0x100, v % 0x100];
    CrcConcat(0xB704CE, data, d);
    ThreeOctets(v);
    PlusSelf(Up(v, 24));
    CrcCongruent(v, d);
    SameIsCongruent(0);
    RemainderUnique(0, Crc(v, d), 0);
  }
}
