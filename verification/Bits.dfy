/** The bitwise operators of C on natural numbers. Shifts by constants and masks with 2^k - 1 are
    written as multiplications, divisions and remainders where they are used. */
module Bits {

  type Byte = x: int | 0 <= x < 256

  type Word = x: int | 0 <= x < 0x1_0000_0000

  function Pow2(n: nat): (p: nat)
    ensures p > 0
  {
    if n == 0 then 1 else 2 * Pow2(n - 1)
  }

  function And(x: nat, y: nat): nat {
    if x == 0 || y == 0 then 0 else 2 * And(x / 2, y / 2) + (if x % 2 == 1 && y % 2 == 1 then 1 else 0)
  }

  function Or(x: nat, y: nat): nat {
    if x == 0 then y else if y == 0 then x else 2 * Or(x / 2, y / 2) + (if x % 2 == 1 || y % 2 == 1 then 1 else 0)
  }

  function Xor(x: nat, y: nat): nat {
    if x == 0 then y else if y == 0 then x else 2 * Xor(x / 2, y / 2) + (if x % 2 != y % 2 then 1 else 0)
  }

  /** The operators act on each binary digit separately. */
  lemma AndDigits(x: nat, y: nat)
    ensures And(x, y) / 2 == And(x / 2, y / 2) && And(x, y) % 2 == if x % 2 == 1 && y % 2 == 1 then 1 else 0
  {
  }

  lemma OrDigits(x: nat, y: nat)
    ensures Or(x, y) / 2 == Or(x / 2, y / 2) && Or(x, y) % 2 == if x % 2 == 1 || y % 2 == 1 then 1 else 0
  {
  }

  lemma XorDigits(x: nat, y: nat)
    ensures Xor(x, y) / 2 == Xor(x / 2, y / 2) && Xor(x, y) % 2 == if x % 2 != y % 2 then 1 else 0
  {
  }

  lemma {:induction false} Bounded(x: nat, y: nat, n: nat)
    requires x < Pow2(n) && y < Pow2(n)
    ensures And(x, y) < Pow2(n) && Or(x, y) < Pow2(n) && Xor(x, y) < Pow2(n)
  {
    if n > 0 {
      Bounded(x / 2, y / 2, n - 1);
      AndDigits(x, y);
      OrDigits(x, y);
      XorDigits(x, y);
    }
  }

  lemma DoubleMultiple(x: nat, n: nat)
    requires n > 0
    ensures Pow2(n) == 2 * Pow2(n - 1) && x * Pow2(n) == 2 * (x * Pow2(n - 1))
  {
    var p := Pow2(n - 1);
    assert x * (2 * p) == 2 * (x * p);
  }

  /** Numbers that do not share a digit position are joined by addition. */
  lemma {:induction false} OrIsPlus(x: nat, y: nat, n: nat)
    requires y < Pow2(n)
    ensures Or(x * Pow2(n), y) == x * Pow2(n) + y
  {
    hide Or, Pow2;
    if n > 0 {
      DoubleMultiple(x, n);
      OrIsPlus(x, y / 2, n - 1);
      JoinLast(x * Pow2(n), x * Pow2(n - 1), y);
    } else {
      OrOfOne(x, y);
    }
  }

  lemma OrOfOne(x: nat, y: nat)
    requires y < Pow2(0)
    ensures x * Pow2(0) == x && Or(x, y) == x + y
  {
    assert Pow2(0) == 1;
  }

  lemma JoinLast(double: nat, half: nat, y: nat)
    requires double == 2 * half && Or(half, y / 2) == half + y / 2
    ensures Or(double, y) == double + y
  {
    OrDigits(double, y);
  }

  /** Masking twice with the same number changes nothing. */
  lemma {:induction false} XorTwice(x: nat, y: nat)
    ensures Xor(Xor(x, y), y) == x
    decreases x + y
  {
    XorDigits(x, y);
    if x + y > 0 {
      XorTwice(x / 2, y / 2);
      XorDigits(Xor(x, y), y);
    }
  }

  lemma {:induction false} XorCommutes(x: nat, y: nat)
    ensures Xor(x, y) == Xor(y, x)
    decreases x + y
  {
    if x + y > 0 {
      XorCommutes(x / 2, y / 2);
      XorDigits(x, y);
      XorDigits(y, x);
    }
  }

  lemma Pow2Constants()
    ensures Pow2(2) == 4 && Pow2(4) == 16 && Pow2(6) == 64 && Pow2(8) == 256
    ensures Pow2(16) == 0x1_0000 && Pow2(24) == 0x100_0000 && Pow2(32) == 0x1_0000_0000
  {
    assert Pow2(6) == 64;
    assert Pow2(8) == 256;
    assert Pow2(12) == 4096;
    assert Pow2(16) == 0x1_0000;
    assert Pow2(20) == 0x10_0000;
    assert Pow2(24) == 0x100_0000;
    assert Pow2(28) == 0x1000_0000;
  }

  lemma OrByte(x: nat, y: nat)
    requires y < 256
    ensures Or(x * 256, y) == x * 256 + y
  {
    Pow2Constants();
    OrIsPlus(x, y, 8);
  }

  /** Four bytes shifted into place and joined are their sum. */
  lemma OrFour(b0: Byte, b1: Byte, b2: Byte, b3: Byte)
    ensures Or(Or(Or(b0 * 0x100_0000, b1 * 0x1_0000), b2 * 0x100), b3)
              == b0 * 0x100_0000 + b1 * 0x1_0000 + b2 * 0x100 + b3
  {
    Pow2Constants();
    OrIsPlus(b0, b1 * 0x1_0000, 24);
    OrIsPlus(b0 * 256 + b1, b2 * 0x100, 16);
    OrIsPlus(b0 * 0x1_0000 + b1 * 256 + b2, b3, 8);
  }

  lemma {:induction false} MulLess(a: nat, b: nat, d: nat)
    ensures a < b ==> a * d + d <= b * d
  {
    if a < b {
      MulLess(a, b - 1, d);
      assert b * d == (b - 1) * d + d;
    }
  }

  lemma QuotientIs(n: nat, d: nat, q: nat, r: nat)
    requires n == q * d + r && r < d
    ensures n / d == q && n % d == r
  {
    var p, s := n / d, n % d;
    assert n == p * d + s && 0 <= s < d;
    MulLess(p, q, d);
    MulLess(q, p, d);
  }

  function And32(x: Word, y: Word): Word {
    Pow2Constants(); Bounded(x, y, 32); And(x, y)
  }

  function Or32(x: Word, y: Word): Word {
    Pow2Constants(); Bounded(x, y, 32); Or(x, y)
  }

  function Xor32(x: Word, y: Word): Word {
    Pow2Constants(); Bounded(x, y, 32); Xor(x, y)
  }

  function Not32(x: Word): Word {
    0xFFFF_FFFF - x
  }

  /** Choosing by a mask: the two selected parts share no digit, so OR and XOR join them alike. */
  lemma {:induction false} ChoiceForms(x: nat, y: nat, z: nat, n: nat)
    requires x < Pow2(n) && y < Pow2(n) && z < Pow2(n)
    ensures var notX := Pow2(n) - 1 - x;
            Or(And(x, y), And(notX, z)) == Xor(And(x, y), And(notX, z))
  {
    if n > 0 {
      var notX := Pow2(n) - 1 - x;
      assert notX / 2 == Pow2(n - 1) - 1 - x / 2 && notX % 2 == 1 - x % 2;
      ChoiceForms(x / 2, y / 2, z / 2, n - 1);
      AndDigits(x, y);
      AndDigits(notX, z);
      OrDigits(And(x, y), And(notX, z));
      XorDigits(And(x, y), And(notX, z));
    }
  }

  /** Majority, by OR and by XOR. */
  lemma {:induction false} MajorityForms(x: nat, y: nat, z: nat)
    ensures Or(Or(And(x, y), And(x, z)), And(y, z)) == Xor(Xor(And(x, y), And(x, z)), And(y, z))
    decreases x + y + z
  {
    var a, b, c := And(x, y), And(x, z), And(y, z);
    if x + y + z > 0 {
      MajorityForms(x / 2, y / 2, z / 2);
      AndDigits(x, y);
      AndDigits(x, z);
      AndDigits(y, z);
      OrDigits(a, b);
      OrDigits(Or(a, b), c);
      XorDigits(a, b);
      XorDigits(Xor(a, b), c);
    }
  }
}
