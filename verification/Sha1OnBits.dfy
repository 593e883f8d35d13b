/** SHA-1 on bit vectors, where the solver computes with literals: each step there is the step of the
    standard on the numbers that the words stand for. */
module Sha1OnBits {
  import opened Bits
  import opened BitVectors
  import opened BitValues
  import opened Sha1Spec

  const ALL: bv32 := 0xFFFF_FFFF

  function Nibble(b: bv32): (n: nat)
    ensures n < 16
  {
    Digit(b) + 2 * Digit(b >> 1) + 4 * Digit(b >> 2) + 8 * Digit(b >> 3)
  }

  /** The number of a word, by its hexadecimal digits. */
  function Number(b: bv32): Word {
    Octet(b) + 0x100 * (Octet(b >> 8) + 0x100 * (Octet(b >> 16) + 0x100 * Octet(b >> 24)))
  }

  function Octet(b: bv32): Byte {
    Nibble(b) + 16 * Nibble(b >> 4)
  }

  lemma FirstNibble(b: bv32, m: bv32)
    requires m & 0xF == 0xF
    ensures Value(b, m) == 16 * Value(b >> 4, m >> 4) + Nibble(b)
  {
    hide Value, Digit;
    FourHalves(b);
    FourHalves(m);
    ValueIs(b, m);
    ValueIs(b >> 1, m >> 1);
    ValueIs(b >> 2, m >> 2);
    ValueIs(b >> 3, m >> 3);
  }

  lemma FourHalves(b: bv32)
    ensures Half(b) == b >> 1 && Half(b >> 1) == b >> 2 && Half(b >> 2) == b >> 3 && Half(b >> 3) == b >> 4
    ensures b & 0xF == 0xF ==> b != 0 && b >> 1 != 0 && b >> 2 != 0 && b >> 3 != 0
  {
  }

  lemma FirstOctet(b: bv32, m: bv32)
    requires m & 0xFF == 0xFF
    ensures Value(b, m) == 0x100 * Value(b >> 8, m >> 8) + Octet(b)
  {
    hide Value, Nibble;
    FirstNibble(b, m);
    FirstNibble(b >> 4, m >> 4);
    Shifts(b);
    Shifts(m);
  }

  lemma Shifts(b: bv32)
    ensures b >> 4 >> 4 == b >> 8 && b >> 8 >> 8 == b >> 16 && b >> 16 >> 8 == b >> 24
    ensures b & 0xFF == 0xFF ==> (b >> 4) & 0xF == 0xF && b & 0xF == 0xF
  {
  }

  lemma NumberIs(b: bv32)
    ensures Value(b, ALL) == Number(b)
  {
    hide Value, Octet;
    LowerOctets(b);
    UpperOctets(b);
  }

  lemma LowerOctets(b: bv32)
    ensures Value(b, ALL) == 0x100 * (0x100 * Value(b >> 16, 0xFFFF) + Octet(b >> 8)) + Octet(b)
  {
    hide Value, Octet;
    FirstOctet(b, 0xFFFF_FFFF);
    FirstOctet(b >> 8, 0xFF_FFFF);
    Shifts(b);
  }

  lemma UpperOctets(b: bv32)
    ensures Value(b >> 16, 0xFFFF) == 0x100 * Octet(b >> 24) + Octet(b >> 16)
  {
    hide Value, Octet;
    FirstOctet(b >> 16, 0xFFFF);
    FirstOctet(b >> 24, 0xFF);
    Shifts(b);
    ValueOfNothing(b >> 24 >> 8);
  }

  /** A word given by its four bytes. */
  predicate Spelt(b: bv32, o3: Byte, o2: Byte, o1: Byte, o0: Byte) {
    Octet(b >> 24) == o3 && Octet(b >> 16) == o2 && Octet(b >> 8) == o1 && Octet(b) == o0
  }

  lemma NumberSpelt(b: bv32, o3: Byte, o2: Byte, o1: Byte, o0: Byte)
    requires Spelt(b, o3, o2, o1, o0)
    ensures Number(b) == BigEndian(o3, o2, o1, o0)
  {
    hide Octet;
  }

  lemma MostIs()
    ensures Number(ALL) == 0xFFFF_FFFF
  {
  }

  lemma NumberOfExor(x: bv32, y: bv32)
    ensures Number(Exor(x, y)) == Xor32(Number(x), Number(y))
  {
    hide Number, Xor, Value, Exor;
    NumberIs(x);
    NumberIs(y);
    NumberIs(Exor(x, y));
    ValueOfExor(x, y, ALL);
  }

  lemma NumberOfBoth(x: bv32, y: bv32)
    ensures Number(Both(x, y)) == And32(Number(x), Number(y))
  {
    hide Number, And, Value, Both;
    NumberIs(x);
    NumberIs(y);
    NumberIs(Both(x, y));
    ValueOfBoth(x, y, ALL);
  }

  function Opposite(x: bv32): bv32 {
    !x
  }

  lemma NumberOfNot(x: bv32)
    ensures Number(Opposite(x)) == Not32(Number(x))
  {
    hide Number, Value;
    NumberIs(x);
    NumberIs(!x);
    NumberIs(ALL);
    MostIs();
    ValuesDiffer(x, !x, ALL);
  }

  function Sum(x: bv32, y: bv32): bv32 {
    x + y
  }

  function CarryWord(x: bv32, y: bv32): bv32 {
    (x + y) ^ x ^ y
  }

  lemma NumberOfSum(x: bv32, y: bv32)
    ensures Number(Sum(x, y)) == Plus(Number(x), Number(y))
  {
    hide Number, Carries, Exor, Digit, Sum, CarryWord;
    SumCarries(x, y);
    SumStarts(x, y);
    SumDigits(x, y);
    NumberOfCarried(x, y, Sum(x, y), CarryWord(x, y));
  }

  lemma SumCarries(x: bv32, y: bv32)
    ensures Carries(x, y, CarryWord(x, y), ALL)
  {
    hide Carries;
    CarriesOfSum(x, y, CarryWord(x, y));
  }

  lemma SumStarts(x: bv32, y: bv32)
    ensures Digit(CarryWord(x, y)) == 0
  {
    hide Digit;
    LastDigitOfSum(x, y, CarryWord(x, y));
  }

  lemma SumDigits(x: bv32, y: bv32)
    ensures Exor(Exor(x, y), CarryWord(x, y)) == Sum(x, y)
  {
    hide Exor;
    DigitsOfSum(x, y, Sum(x, y), CarryWord(x, y));
  }

  lemma NumberOfCarried(x: bv32, y: bv32, sum: bv32, c: bv32)
    requires Carries(x, y, c, ALL) && Digit(c) == 0 && Exor(Exor(x, y), c) == sum
    ensures Number(sum) == Plus(Number(x), Number(y))
  {
    hide Number, Value, Carries, Exor, Digit;
    NumberIs(x);
    NumberIs(y);
    NumberIs(sum);
    NumberIs(ALL);
    MostIs();
    ValueOfSum(x, y, c, ALL);
  }

  // ---------- rotation ----------

  function Turned(b: bv32): bv32 {
    (b << 1) | (b >> 31)
  }

  /** Is the first digit under a mask a one? */
  predicate Starts(b: bv32, m: bv32) {
    b & (m ^ (m >> 1)) != 0
  }

  /** The first digit under a mask, and the others. */
  function Top(b: bv32, m: bv32): nat {
    if Starts(b, m) then Value(Half(m), Half(m)) + 1 else 0
  }

  lemma {:induction false} FirstDigit(b: bv32, m: bv32)
    requires IsMask(m) && m != 0
    ensures Value(b, m) == Value(b, Half(m)) + Top(b, m)
    decreases m
  {
    hide Value, Half, Digit, IsMask, Top;
    HalfMask(m);
    ValueIs(b, m);
    if Half(m) == 0 {
      LastTop(b, m);
    } else {
      ValueIs(b, Half(m));
      HalfMask(Half(m));
      FirstDigit(Half(b), Half(m));
      HalvesTop(b, m);
    }
  }

  lemma LastTop(b: bv32, m: bv32)
    requires m != 0 && Half(m) == 0
    ensures Value(Half(b), Half(m)) == Value(b, Half(m)) == 0 && Top(b, m) == Digit(b)
  {
    hide Value, Half, Digit, Starts;
    ValueOfNothing(Half(b));
    ValueOfNothing(b);
    ValueOfNothing(Half(m));
    OneDigit(b, m);
  }

  lemma HalvesTop(b: bv32, m: bv32)
    requires IsMask(m) && m != 0 && Half(m) != 0
    ensures Top(b, m) == 2 * Top(Half(b), Half(m))
  {
    hide Value, Half, Digit, Starts, IsMask;
    HalfMask(m);
    HalfMask(Half(m));
    ValueIs(Half(m), Half(m));
    HalvesStart(b, m);
  }

  lemma OneDigit(b: bv32, m: bv32)
    requires m != 0 && Half(m) == 0
    ensures Starts(b, m) <==> Digit(b) == 1
  {
  }

  lemma HalvesStart(b: bv32, m: bv32)
    requires IsMask(m) && Half(m) != 0
    ensures Starts(b, m) <==> Starts(Half(b), Half(m))
  {
  }

  lemma TurnedDigits(b: bv32)
    ensures Agree(Half(Turned(b)), b, 0x7FFF_FFFF)
    ensures Starts(b, ALL) <==> Digit(Turned(b)) == 1
  {
  }

  lemma LowMask()
    ensures Half(ALL) == 0x7FFF_FFFF && IsMask(ALL) && IsMask(0x7FFF_FFFF)
    ensures Value(0x7FFF_FFFF, 0x7FFF_FFFF) == 0x7FFF_FFFF
  {
    hide Value;
    NumberIs(ALL);
    MostIs();
    ValueIs(ALL, ALL);
    ValuesAgree(ALL, 0x7FFF_FFFF, 0x7FFF_FFFF);
    AllHalves();
  }

  lemma AllHalves()
    ensures Half(ALL) == 0x7FFF_FFFF && Digit(ALL) == 1 && Agree(ALL, 0x7FFF_FFFF, 0x7FFF_FFFF)
    ensures IsMask(ALL) && IsMask(0x7FFF_FFFF)
  {
  }

  lemma NumberOfTurned(b: bv32)
    ensures Number(Turned(b)) == Rotl(1, Number(b))
  {
    hide Number, Value, Half, Digit, Turned, Agree, Starts;
    LowMask();
    NumberIs(b);
    NumberIs(Turned(b));
    TurnedDigits(b);
    FirstDigit(b, ALL);
    ValueIs(Turned(b), ALL);
    ValuesAgree(Half(Turned(b)), b, 0x7FFF_FFFF);
    ValueBounded(b, 0x7FFF_FFFF);
  }

  lemma {:induction false} ValueBounded(b: bv32, m: bv32)
    requires IsMask(m)
    ensures Value(b, m) <= Value(m, m)
    decreases m
  {
    hide Half, Digit, IsMask;
    if m != 0 {
      HalfMask(m);
      ValueBounded(Half(b), Half(m));
    }
  }

  /** Turning moves the first digit to the end. */
  lemma RotlOf(first: nat, rest: nat)
    requires first < 2 && rest < 0x8000_0000
    ensures Rotl(1, first * 0x8000_0000 + rest) == 2 * rest + first
  {
    QuotientIs(first * 0x8000_0000 + rest, 0x8000_0000, first, rest);
  }

  lemma FiveTurns(v: Word)
    ensures Rotl(1, Rotl(1, Rotl(1, Rotl(1, Rotl(1, v))))) == Rotl(5, v)
  {
    hide Rotl;
    var d1, r1 := v / 0x8000_0000, v % 0x8000_0000;
    var d2, r2 := r1 / 0x4000_0000, r1 % 0x4000_0000;
    var d3, r3 := r2 / 0x2000_0000, r2 % 0x2000_0000;
    var d4, r4 := r3 / 0x1000_0000, r3 % 0x1000_0000;
    var d5, r5 := r4 / 0x800_0000, r4 % 0x800_0000;
    FiveDigits(d1, d2, d3, d4, d5, r5);
  }

  lemma FiveDigits(d1: nat, d2: nat, d3: nat, d4: nat, d5: nat, rest: nat)
    requires d1 < 2 && d2 < 2 && d3 < 2 && d4 < 2 && d5 < 2 && rest < 0x800_0000
    ensures var v := (16 * d1 + 8 * d2 + 4 * d3 + 2 * d4 + d5) * 0x800_0000 + rest;
            Rotl(1, Rotl(1, Rotl(1, Rotl(1, Rotl(1, v))))) == Rotl(5, v)
  {
    hide Rotl;
    var r4 := d5 * 0x800_0000 + rest;
    var r3 := d4 * 0x1000_0000 + r4;
    var r2 := d3 * 0x2000_0000 + r3;
    RotlOf(d1, d2 * 0x4000_0000 + r2);
    RotlOf(d2, 2 * r2 + d1);
    RotlOf(d3, 4 * r3 + 2 * d1 + d2);
    RotlOf(d4, 8 * r4 + 4 * d1 + 2 * d2 + d3);
    RotlOf(d5, 16 * rest + 8 * d1 + 4 * d2 + 2 * d3 + d4);
    RotlFive(16 * d1 + 8 * d2 + 4 * d3 + 2 * d4 + d5, rest);
  }

  lemma RotlFive(first: nat, rest: nat)
    requires first < 32 && rest < 0x800_0000
    ensures Rotl(5, first * 0x800_0000 + rest) == 32 * rest + first
  {
    QuotientIs(first * 0x800_0000 + rest, 0x800_0000, first, rest);
  }

  /** Two more turns undo turning by thirty. */
  lemma TwoMoreTurns(v: Word, u: Word)
    requires Rotl(1, Rotl(1, u)) == v
    ensures u == Rotl(30, v)
  {
    hide Rotl;
    var d1, r1 := u / 0x8000_0000, u % 0x8000_0000;
    var d2, r2 := r1 / 0x4000_0000, r1 % 0x4000_0000;
    RotlOf(d1, r1);
    RotlOf(d2, 2 * r2 + d1);
    RotlThirty(r2, 2 * d1 + d2);
  }

  lemma RotlThirty(first: nat, rest: nat)
    requires first < 0x4000_0000 && rest < 4
    ensures Rotl(30, first * 4 + rest) == 0x4000_0000 * rest + first
  {
    QuotientIs(first * 4 + rest, 4, first, rest);
  }

  function TurnedFive(b: bv32): bv32 {
    (b << 5) | (b >> 27)
  }

  function TurnedThirty(b: bv32): bv32 {
    (b << 30) | (b >> 2)
  }

  lemma NumberOfRotated(b: bv32)
    ensures Number(TurnedFive(b)) == Rotl(5, Number(b)) && Number(TurnedThirty(b)) == Rotl(30, Number(b))
  {
    hide Number, Turned, Rotl, TurnedFive, TurnedThirty;
    TurnsOf(b);
    NumberOfTurned(b);
    NumberOfTurned(Turned(b));
    NumberOfTurned(Turned(Turned(b)));
    NumberOfTurned(Turned(Turned(Turned(b))));
    NumberOfTurned(Turned(Turned(Turned(Turned(b)))));
    FiveTurns(Number(b));
    NumberOfTurned(TurnedThirty(b));
    NumberOfTurned(Turned(TurnedThirty(b)));
    TwoMoreTurns(Number(b), Number(TurnedThirty(b)));
  }

  lemma TurnsOf(b: bv32)
    ensures Turned(Turned(Turned(Turned(Turned(b))))) == TurnedFive(b)
    ensures Turned(Turned(TurnedThirty(b))) == b
  {
  }

  // ---------- the steps ----------

  datatype Registers = Registers(a: bv32, b: bv32, c: bv32, d: bv32, e: bv32)

  function Numbers(r: Registers): Words {
    Words(Number(r.a), Number(r.b), Number(r.c), Number(r.d), Number(r.e))
  }

  function Mix(t: nat, x: bv32, y: bv32, z: bv32): bv32 {
    if t < 20 then Exor(Both(x, y), Both(Opposite(x), z))
    else if 40 <= t < 60 then Exor(Exor(Both(x, y), Both(x, z)), Both(y, z))
    else Exor(Exor(x, y), z)
  }

  lemma NumberOfMix(t: nat, x: bv32, y: bv32, z: bv32)
    ensures Number(Mix(t, x, y, z)) == F(t, Number(x), Number(y), Number(z))
  {
    hide Number, And32, Xor32, Not32, Exor, Both, Opposite;
    if t < 20 {
      NumberOfNot(x);
      NumberOfBoth(x, y);
      NumberOfBoth(Opposite(x), z);
      NumberOfExor(Both(x, y), Both(Opposite(x), z));
    } else if 40 <= t < 60 {
      NumberOfBoth(x, y);
      NumberOfBoth(x, z);
      NumberOfBoth(y, z);
      NumberOfExor(Both(x, y), Both(x, z));
      NumberOfExor(Exor(Both(x, y), Both(x, z)), Both(y, z));
    } else {
      NumberOfExor(x, y);
      NumberOfExor(Exor(x, y), z);
    }
  }

  function Constant(t: nat): bv32 {
    if t < 20 then 0x5A827999 else if t < 40 then 0x6ED9EBA1 else if t < 60 then 0x8F1BBCDC else 0xCA62C1D6
  }

  lemma NumberOfConstant(t: nat)
    ensures Number(Constant(t)) == K(t)
  {
    hide Spelt, Number;
    ConstantsSpelt();
    NumberSpelt(0x5A827999, 0x5A, 0x82, 0x79, 0x99);
    NumberSpelt(0x6ED9EBA1, 0x6E, 0xD9, 0xEB, 0xA1);
    NumberSpelt(0x8F1BBCDC, 0x8F, 0x1B, 0xBC, 0xDC);
    NumberSpelt(0xCA62C1D6, 0xCA, 0x62, 0xC1, 0xD6);
  }

  lemma ConstantsSpelt()
    ensures Spelt(0x5A827999, 0x5A, 0x82, 0x79, 0x99) && Spelt(0x6ED9EBA1, 0x6E, 0xD9, 0xEB, 0xA1)
    ensures Spelt(0x8F1BBCDC, 0x8F, 0x1B, 0xBC, 0xDC) && Spelt(0xCA62C1D6, 0xCA, 0x62, 0xC1, 0xD6)
  {
  }

  function StepOnBits(r: Registers, t: nat, w: bv32): Registers {
    Registers(Sum(Sum(Sum(Sum(TurnedFive(r.a), Mix(t, r.b, r.c, r.d)), r.e), Constant(t)), w),
              r.a, TurnedThirty(r.b), r.c, r.d)
  }

  lemma StepIs(r: Registers, t: nat, w: bv32)
    ensures Numbers(StepOnBits(r, t, w)) == Step(Numbers(r), t, Number(w))
  {
    hide Number, F, K, Plus, Rotl, Mix, Constant, Sum, TurnedFive, TurnedThirty;
    var v, f := TurnedFive(r.a), Mix(t, r.b, r.c, r.d);
    NumberOfRotated(r.a);
    NumberOfRotated(r.b);
    NumberOfMix(t, r.b, r.c, r.d);
    NumberOfConstant(t);
    NumberOfSum(v, f);
    NumberOfSum(Sum(v, f), r.e);
    NumberOfSum(Sum(Sum(v, f), r.e), Constant(t));
    NumberOfSum(Sum(Sum(Sum(v, f), r.e), Constant(t)), w);
  }

  // ---------- the schedule ----------

  /** Sixteen consecutive words of the message schedule. */
  datatype Window = Window(w0: bv32, w1: bv32, w2: bv32, w3: bv32, w4: bv32, w5: bv32, w6: bv32, w7: bv32,
                           w8: bv32, w9: bv32, w10: bv32, w11: bv32, w12: bv32, w13: bv32, w14: bv32, w15: bv32)

  ghost predicate Shows(block: Block, t: nat, w: Window) {
    && Number(w.w0) == Schedule(block, t) && Number(w.w1) == Schedule(block, t + 1)
    && Number(w.w2) == Schedule(block, t + 2) && Number(w.w3) == Schedule(block, t + 3)
    && Number(w.w4) == Schedule(block, t + 4) && Number(w.w5) == Schedule(block, t + 5)
    && Number(w.w6) == Schedule(block, t + 6) && Number(w.w7) == Schedule(block, t + 7)
    && Number(w.w8) == Schedule(block, t + 8) && Number(w.w9) == Schedule(block, t + 9)
    && Number(w.w10) == Schedule(block, t + 10) && Number(w.w11) == Schedule(block, t + 11)
    && Number(w.w12) == Schedule(block, t + 12) && Number(w.w13) == Schedule(block, t + 13)
    && Number(w.w14) == Schedule(block, t + 14) && Number(w.w15) == Schedule(block, t + 15)
  }

  function Slid(w: Window): Window {
    Window(w.w1, w.w2, w.w3, w.w4, w.w5, w.w6, w.w7, w.w8, w.w9, w.w10, w.w11, w.w12, w.w13, w.w14, w.w15,
           Turned(Exor(Exor(Exor(w.w13, w.w8), w.w2), w.w0)))
  }

  lemma ScheduleNext(block: Block, t: nat)
    ensures Schedule(block, t + 16)
         == Rotl(1, Xor32(Xor32(Xor32(Schedule(block, t + 13), Schedule(block, t + 8)), Schedule(block, t + 2)),
                          Schedule(block, t)))
  {
    hide Rotl, Xor32;
  }

  lemma SlidShows(block: Block, t: nat, w: Window)
    requires Shows(block, t, w)
    ensures Shows(block, t + 1, Slid(w))
  {
    hide Number, Schedule, Xor32, Exor, Turned, Rotl;
    ScheduleNext(block, t);
    NumberOfExor(w.w13, w.w8);
    NumberOfExor(Exor(w.w13, w.w8), w.w2);
    NumberOfExor(Exor(Exor(w.w13, w.w8), w.w2), w.w0);
    NumberOfTurned(Exor(Exor(Exor(w.w13, w.w8), w.w2), w.w0));
  }

  // ---------- ten turns at a time ----------

  datatype Progress = Progress(r: Registers, w: Window)

  function Turn(p: Progress, t: nat): Progress {
    Progress(StepOnBits(p.r, t, p.w.w0), Slid(p.w))
  }

  function FiveMore(p: Progress, t: nat): Progress {
    Turn(Turn(Turn(Turn(Turn(p, t), t + 1), t + 2), t + 3), t + 4)
  }

  function TenMore(p: Progress, t: nat): Progress {
    FiveMore(FiveMore(p, t), t + 5)
  }

  /** The registers and the window after `t` turns. */
  ghost predicate Reached(block: Block, h: Words, t: nat, p: Progress) {
    Numbers(p.r) == Steps(block, h, t) && Shows(block, t, p.w)
  }

  lemma TurnReaches(block: Block, h: Words, t: nat, p: Progress)
    requires Reached(block, h, t, p)
    ensures Reached(block, h, t + 1, Turn(p, t))
  {
    hide Numbers, Step, Schedule, Slid, StepOnBits;
    StepIs(p.r, t, p.w.w0);
    SlidShows(block, t, p.w);
    StepsNext(block, h, t);
  }

  lemma TenReach(block: Block, h: Words, t: nat, p: Progress)
    requires Reached(block, h, t, p)
    ensures Reached(block, h, t + 10, TenMore(p, t))
  {
    hide Reached, Turn;
    FiveReach(block, h, t, p);
    FiveReach(block, h, t + 5, FiveMore(p, t));
  }

  lemma FiveReach(block: Block, h: Words, t: nat, p: Progress)
    requires Reached(block, h, t, p)
    ensures Reached(block, h, t + 5, FiveMore(p, t))
  {
    hide Reached, Turn;
    var p1 := Turn(p, t);
    var p2 := Turn(p1, t + 1);
    var p3 := Turn(p2, t + 2);
    var p4 := Turn(p3, t + 3);
    TurnReaches(block, h, t, p);
    TurnReaches(block, h, t + 1, p1);
    TurnReaches(block, h, t + 2, p2);
    TurnReaches(block, h, t + 3, p3);
    TurnReaches(block, h, t + 4, p4);
  }

  // ---------- a block ----------

  const START: Registers := Registers(0x67452301, 0xEFCDAB89, 0x98BADCFE, 0x10325476, 0xC3D2E1F0)

  lemma StartSpelt()
    ensures Spelt(START.a, 0x67, 0x45, 0x23, 0x01) && Spelt(START.b, 0xEF, 0xCD, 0xAB, 0x89)
    ensures Spelt(START.c, 0x98, 0xBA, 0xDC, 0xFE)
  {
  }

  lemma StartEndSpelt()
    ensures Spelt(START.d, 0x10, 0x32, 0x54, 0x76) && Spelt(START.e, 0xC3, 0xD2, 0xE1, 0xF0)
  {
  }

  lemma StartIs()
    ensures Numbers(START) == INITIAL
  {
    hide Spelt, Number;
    StartSpelt();
    StartEndSpelt();
    NumberSpelt(START.a, 0x67, 0x45, 0x23, 0x01);
    NumberSpelt(START.b, 0xEF, 0xCD, 0xAB, 0x89);
    NumberSpelt(START.c, 0x98, 0xBA, 0xDC, 0xFE);
    NumberSpelt(START.d, 0x10, 0x32, 0x54, 0x76);
    NumberSpelt(START.e, 0xC3, 0xD2, 0xE1, 0xF0);
  }

  function Added(h: Registers, r: Registers): Registers {
    Registers(Sum(h.a, r.a), Sum(h.b, r.b), Sum(h.c, r.c), Sum(h.d, r.d), Sum(h.e, r.e))
  }

  lemma AddedIs(block: Block, h: Registers, p: Progress)
    requires Reached(block, Numbers(h), 80, p)
    ensures Numbers(Added(h, p.r)) == Compress(Numbers(h), block)
  {
    hide Number, Plus, Sum, Steps, Shows;
    NumberOfSum(h.a, p.r.a);
    NumberOfSum(h.b, p.r.b);
    NumberOfSum(h.c, p.r.c);
    NumberOfSum(h.d, p.r.d);
    NumberOfSum(h.e, p.r.e);
  }

  /** The sixteen words of a block. */
  ghost predicate Spells(w: Window, b: Block) {
    && Spelt(w.w0, b[0], b[1], b[2], b[3]) && Spelt(w.w1, b[4], b[5], b[6], b[7])
    && Spelt(w.w2, b[8], b[9], b[10], b[11]) && Spelt(w.w3, b[12], b[13], b[14], b[15])
    && Spelt(w.w4, b[16], b[17], b[18], b[19]) && Spelt(w.w5, b[20], b[21], b[22], b[23])
    && Spelt(w.w6, b[24], b[25], b[26], b[27]) && Spelt(w.w7, b[28], b[29], b[30], b[31])
    && Spelt(w.w8, b[32], b[33], b[34], b[35]) && Spelt(w.w9, b[36], b[37], b[38], b[39])
    && Spelt(w.w10, b[40], b[41], b[42], b[43]) && Spelt(w.w11, b[44], b[45], b[46], b[47])
    && Spelt(w.w12, b[48], b[49], b[50], b[51]) && Spelt(w.w13, b[52], b[53], b[54], b[55])
    && Spelt(w.w14, b[56], b[57], b[58], b[59]) && Spelt(w.w15, b[60], b[61], b[62], b[63])
  }

  /** Four words of it, from a quarter of the bytes. */
  predicate Quarter(w0: bv32, w1: bv32, w2: bv32, w3: bv32, p: seq<Byte>) {
    && |p| == 16
    && Spelt(w0, p[0], p[1], p[2], p[3]) && Spelt(w1, p[4], p[5], p[6], p[7])
    && Spelt(w2, p[8], p[9], p[10], p[11]) && Spelt(w3, p[12], p[13], p[14], p[15])
  }

  lemma SpeltByQuarters(w: Window, p0: seq<Byte>, p1: seq<Byte>, p2: seq<Byte>, p3: seq<Byte>)
    requires Quarter(w.w0, w.w1, w.w2, w.w3, p0) && Quarter(w.w4, w.w5, w.w6, w.w7, p1)
    requires Quarter(w.w8, w.w9, w.w10, w.w11, p2) && Quarter(w.w12, w.w13, w.w14, w.w15, p3)
    ensures |p0 + p1 + p2 + p3| == 64 && Spells(w, p0 + p1 + p2 + p3)
  {
    hide Spelt;
  }

  lemma BlockShows(b: Block, w: Window)
    requires Spells(w, b)
    ensures Shows(b, 0, w)
  {
    hide Spelt, Number;
    NumberSpelt(w.w0, b[0], b[1], b[2], b[3]);
    NumberSpelt(w.w1, b[4], b[5], b[6], b[7]);
    NumberSpelt(w.w2, b[8], b[9], b[10], b[11]);
    NumberSpelt(w.w3, b[12], b[13], b[14], b[15]);
    NumberSpelt(w.w4, b[16], b[17], b[18], b[19]);
    NumberSpelt(w.w5, b[20], b[21], b[22], b[23]);
    NumberSpelt(w.w6, b[24], b[25], b[26], b[27]);
    NumberSpelt(w.w7, b[28], b[29], b[30], b[31]);
    NumberSpelt(w.w8, b[32], b[33], b[34], b[35]);
    NumberSpelt(w.w9, b[36], b[37], b[38], b[39]);
    NumberSpelt(w.w10, b[40], b[41], b[42], b[43]);
    NumberSpelt(w.w11, b[44], b[45], b[46], b[47]);
    NumberSpelt(w.w12, b[48], b[49], b[50], b[51]);
    NumberSpelt(w.w13, b[52], b[53], b[54], b[55]);
    NumberSpelt(w.w14, b[56], b[57], b[58], b[59]);
    NumberSpelt(w.w15, b[60], b[61], b[62], b[63]);
  }

  /** The eighty turns of a block, ten at a time. */
  lemma BlockIs(b: Block, h: Registers, p: seq<Progress>, last: Registers)
    requires |p| == 8 && p[0].r == h && Spells(p[0].w, b)
    requires forall k :: 0 <= k < 7 ==> TenMore(p[k], 10 * k) == p[k + 1]
    requires TenMore(p[7], 70).r == last
    ensures Numbers(Added(h, last)) == Compress(Numbers(h), b)
  {
    hide Spells, Shows, Numbers, TenMore, Added, Steps, Compress;
    BlockShows(b, p[0].w);
    StepsNone(b, Numbers(h));
    var k := 0;
    while k < 7
      invariant 0 <= k <= 7 && Reached(b, Numbers(h), 10 * k, p[k])
    {
      TenReach(b, Numbers(h), 10 * k, p[k]);
      k := k + 1;
    }
    TenReach(b, Numbers(h), 70, p[7]);
    AddedIs(b, h, TenMore(p[7], 70));
  }
}
