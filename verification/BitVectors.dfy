/** Words as bit vectors, on which literals can be computed with. */
module BitVectors {

  /** Ones from some position downwards. */
  predicate IsMask(m: bv32) {
    m & (m + 1) == 0
  }

  function Half(b: bv32): bv32 {
    b >> 1
  }

  function Digit(b: bv32): (d: nat)
    ensures d < 2
  {
    if b & 1 == 1 then 1 else 0
  }

  function Exor(x: bv32, y: bv32): bv32 {
    x ^ y
  }

  function Both(x: bv32, y: bv32): bv32 {
    x & y
  }

  lemma HalfMask(m: bv32)
    requires IsMask(m) && m != 0
    ensures IsMask(Half(m)) && Half(m) < m && Digit(m) == 1
  {
  }

  lemma DigitOfExor(x: bv32, y: bv32)
    ensures Half(Exor(x, y)) == Exor(Half(x), Half(y))
    ensures Digit(Exor(x, y)) == if Digit(x) != Digit(y) then 1 else 0
  {
  }

  lemma DigitOfBoth(x: bv32, y: bv32)
    ensures Half(Both(x, y)) == Both(Half(x), Half(y))
    ensures Digit(Both(x, y)) == if Digit(x) == 1 && Digit(y) == 1 then 1 else 0
  {
  }

  /** Two words agree, or differ, in every digit under a mask. */
  predicate Agree(x: bv32, y: bv32, m: bv32) {
    (x ^ y) & m == 0
  }

  predicate Differ(x: bv32, y: bv32, m: bv32) {
    (x ^ y) & m == m
  }

  lemma HalvesAgree(x: bv32, y: bv32, m: bv32)
    requires IsMask(m) && m != 0
    ensures Agree(x, y, m) ==> Agree(Half(x), Half(y), Half(m)) && Digit(x) == Digit(y)
    ensures Differ(x, y, m) ==> Differ(Half(x), Half(y), Half(m)) && Digit(x) + Digit(y) == 1
  {
  }

  /** `c` holds the carries of a sum: each is the majority of what stands one place below. */
  predicate Carries(x: bv32, y: bv32, c: bv32, m: bv32) {
    CarriesAt(x, y, c, m >> 1)
  }

  predicate CarriesAt(x: bv32, y: bv32, c: bv32, places: bv32) {
    ((c >> 1) ^ (x & y) ^ (x & c) ^ (y & c)) & places == 0
  }

  /** Place by place: all at once are beyond the solver. */
  lemma CarriesOfSum(x: bv32, y: bv32, c: bv32)
    requires c == (x + y) ^ x ^ y
    ensures Carries(x, y, c, 0xFFFF_FFFF)
  {
    hide CarriesAt, EightPlaces;
    LowPlaces(x, y, c);
    HighPlaces(x, y, c);
    AllPlaces(x, y, c);
  }

  lemma DigitsOfSum(x: bv32, y: bv32, sum: bv32, c: bv32)
    requires c == sum ^ x ^ y
    ensures Exor(Exor(x, y), c) == sum
  {
  }

  lemma LastDigitOfSum(x: bv32, y: bv32, c: bv32)
    requires c == (x + y) ^ x ^ y
    ensures Digit(c) == 0
  {
  }

  predicate EightPlaces(x: bv32, y: bv32, c: bv32, first: bv32) {
    && CarriesAt(x, y, c, first) && CarriesAt(x, y, c, first << 1)
    && CarriesAt(x, y, c, first << 2) && CarriesAt(x, y, c, first << 3)
    && CarriesAt(x, y, c, first << 4) && CarriesAt(x, y, c, first << 5)
    && CarriesAt(x, y, c, first << 6) && CarriesAt(x, y, c, first << 7)
  }

  lemma LowPlaces(x: bv32, y: bv32, c: bv32)
    requires c == (x + y) ^ x ^ y
    ensures EightPlaces(x, y, c, 0x1) && EightPlaces(x, y, c, 0x100)
  {
  }

  lemma HighPlaces(x: bv32, y: bv32, c: bv32)
    requires c == (x + y) ^ x ^ y
    ensures EightPlaces(x, y, c, 0x1_0000) && EightPlaces(x, y, c, 0x80_0000)
  {
  }

  lemma AllPlaces(x: bv32, y: bv32, c: bv32)
    requires EightPlaces(x, y, c, 0x1) && EightPlaces(x, y, c, 0x100)
    requires EightPlaces(x, y, c, 0x1_0000) && EightPlaces(x, y, c, 0x80_0000)
    ensures CarriesAt(x, y, c, 0x7FFF_FFFF)
  {
  }

  lemma HalvesCarry(x: bv32, y: bv32, c: bv32, m: bv32)
    requires IsMask(m) && m != 0 && Carries(x, y, c, m)
    ensures Carries(Half(x), Half(y), Half(c), Half(m))
    ensures Half(m) != 0 ==> Digit(Half(c)) == if Digit(x) + Digit(y) + Digit(c) >= 2 then 1 else 0
  {
  }
}

/** The numbers that bit vectors stand for. */
module BitValues {
  import opened Bits
  import opened BitVectors

  /** The number that the digits under a mask stand for. */
  function Value(b: bv32, m: bv32): (v: nat)
    decreases m
  {
    if m == 0 then 0 else 2 * Value(Half(b), Half(m)) + Digit(b)
  }

  lemma ValueIs(b: bv32, m: bv32)
    requires m != 0
    ensures Value(b, m) == 2 * Value(Half(b), Half(m)) + Digit(b)
  {
  }

  lemma ValueOfNothing(b: bv32)
    ensures Value(b, 0) == 0
  {
  }

  lemma {:induction false} ValuesAgree(x: bv32, y: bv32, m: bv32)
    requires IsMask(m) && Agree(x, y, m)
    ensures Value(x, m) == Value(y, m)
    decreases m
  {
    hide Half, Digit, IsMask, Agree;
    if m != 0 {
      HalfMask(m);
      HalvesAgree(x, y, m);
      ValuesAgree(Half(x), Half(y), Half(m));
    }
  }

  lemma {:induction false} ValuesDiffer(x: bv32, y: bv32, m: bv32)
    requires IsMask(m) && Differ(x, y, m)
    ensures Value(x, m) + Value(y, m) == Value(m, m)
    decreases m
  {
    hide Half, Digit, IsMask, Differ;
    if m != 0 {
      HalfMask(m);
      HalvesAgree(x, y, m);
      ValuesDiffer(Half(x), Half(y), Half(m));
    }
  }

  lemma XorJoined(a: nat, i: nat, b: nat, j: nat)
    requires i < 2 && j < 2
    ensures Xor(2 * a + i, 2 * b + j) == 2 * Xor(a, b) + if i != j then 1 else 0
  {
    hide Xor;
    QuotientIs(2 * a + i, 2, a, i);
    QuotientIs(2 * b + j, 2, b, j);
    XorDigits(2 * a + i, 2 * b + j);
  }

  lemma AndJoined(a: nat, i: nat, b: nat, j: nat)
    requires i < 2 && j < 2
    ensures And(2 * a + i, 2 * b + j) == 2 * And(a, b) + if i == 1 && j == 1 then 1 else 0
  {
    hide And;
    QuotientIs(2 * a + i, 2, a, i);
    QuotientIs(2 * b + j, 2, b, j);
    AndDigits(2 * a + i, 2 * b + j);
  }

  lemma OfNothing()
    ensures Xor(0, 0) == And(0, 0) == 0
  {
  }

  lemma {:induction false} ValueOfExor(x: bv32, y: bv32, m: bv32)
    requires IsMask(m)
    ensures Value(Exor(x, y), m) == Xor(Value(x, m), Value(y, m))
    decreases m
  {
    hide Xor, Half, Digit, Exor, IsMask;
    OfNothing();
    if m != 0 {
      HalfMask(m);
      ValueOfExor(Half(x), Half(y), Half(m));
      DigitOfExor(x, y);
      XorJoined(Value(Half(x), Half(m)), Digit(x), Value(Half(y), Half(m)), Digit(y));
    }
  }

  lemma {:induction false} ValueOfBoth(x: bv32, y: bv32, m: bv32)
    requires IsMask(m)
    ensures Value(Both(x, y), m) == And(Value(x, m), Value(y, m))
    decreases m
  {
    hide And, Half, Digit, Both, IsMask;
    OfNothing();
    if m != 0 {
      HalfMask(m);
      ValueOfBoth(Half(x), Half(y), Half(m));
      DigitOfBoth(x, y);
      AndJoined(Value(Half(x), Half(m)), Digit(x), Value(Half(y), Half(m)), Digit(y));
    }
  }

  /** A sum, and what is left of it when the highest number that fits is `most`. */
  predicate Wraps(sum: int, s: nat, most: nat) {
    sum == s || sum == s + most + 1
  }

  lemma SumJoined(a: nat, i: nat, b: nat, j: nat, c: nat, s: nat, most: nat)
    requires i < 2 && j < 2 && c < 2
    requires Wraps(a + b + if i + j + c >= 2 then 1 else 0, s, most)
    ensures Wraps(2 * a + i + (2 * b + j) + c, 2 * s + if (i != j) != (c == 1) then 1 else 0, 2 * most + 1)
  {
  }

  /** Addition, modulo the first power of two above the mask. */
  lemma {:induction false} ValueOfSum(x: bv32, y: bv32, c: bv32, m: bv32)
    requires IsMask(m) && m != 0 && Carries(x, y, c, m)
    ensures Wraps(Value(x, m) + Value(y, m) + Digit(c), Value(Exor(Exor(x, y), c), m), Value(m, m))
    decreases m
  {
    hide Value, Half, Digit, Exor, IsMask, Carries, Wraps;
    ValueIs(x, m);
    ValueIs(y, m);
    ValueIs(m, m);
    ValueIs(Exor(Exor(x, y), c), m);
    HalfMask(m);
    DigitOfExor(x, y);
    DigitOfExor(Exor(x, y), c);
    HalfSum(x, y, c, m);
    var s := Exor(Exor(Half(x), Half(y)), Half(c));
    SumJoined(Value(Half(x), Half(m)), Digit(x), Value(Half(y), Half(m)), Digit(y), Digit(c),
      Value(s, Half(m)), Value(Half(m), Half(m)));
  }

  lemma {:induction false} HalfSum(x: bv32, y: bv32, c: bv32, m: bv32)
    requires IsMask(m) && m != 0 && Carries(x, y, c, m)
    ensures Wraps(Value(Half(x), Half(m)) + Value(Half(y), Half(m))
                  + (if Digit(x) + Digit(y) + Digit(c) >= 2 then 1 else 0),
                  Value(Exor(Exor(Half(x), Half(y)), Half(c)), Half(m)), Value(Half(m), Half(m)))
    decreases m, 0
  {
    hide Half, Digit, Exor, IsMask, Carries;
    HalfMask(m);
    HalvesCarry(x, y, c, m);
    if Half(m) != 0 {
      hide Value;
      ValueOfSum(Half(x), Half(y), Half(c), Half(m));
    }
  }
}
