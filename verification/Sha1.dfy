/** SHA-1 as FIPS 180-4 defines it, on byte strings. */
module Sha1Spec {
  import opened Bits

  /** The five working variables, or the five words of a hash value. */
  datatype Words = Words(a: Word, b: Word, c: Word, d: Word, e: Word)

  const INITIAL: Words := Words(0x67452301, 0xEFCDAB89, 0x98BADCFE, 0x10325476, 0xC3D2E1F0)

  /** Addition of words, modulo 2^32. */
  function Plus(x: Word, y: Word): (sum: Word)
    ensures sum == (x + y) % 0x1_0000_0000
  {
    if x + y < 0x1_0000_0000 then x + y else x + y - 0x1_0000_0000
  }

  /** The circular left shift of section 3.2: the upper `n` digits move to the lower end. */
  function Rotl(n: nat, x: Word): Word
    requires n in {1, 5, 30}
  {
    if n == 1 then x % 0x8000_0000 * 2 + x / 0x8000_0000
    else if n == 5 then x % 0x800_0000 * 32 + x / 0x800_0000
    else x % 4 * 0x4000_0000 + x / 4
  }

  /** The functions of section 4.1.1. */
  function Ch(x: Word, y: Word, z: Word): Word { Xor32(And32(x, y), And32(Not32(x), z)) }

  function Parity(x: Word, y: Word, z: Word): Word { Xor32(Xor32(x, y), z) }

  function Maj(x: Word, y: Word, z: Word): Word { Xor32(Xor32(And32(x, y), And32(x, z)), And32(y, z)) }

  function F(t: nat, x: Word, y: Word, z: Word): Word {
    if t < 20 then Ch(x, y, z) else if t < 40 then Parity(x, y, z) else if t < 60 then Maj(x, y, z) else Parity(x, y, z)
  }

  /** The constants of section 4.2.1. */
  function K(t: nat): Word {
    if t < 20 then 0x5A827999 else if t < 40 then 0x6ED9EBA1 else if t < 60 then 0x8F1BBCDC else 0xCA62C1D6
  }

  type Block = s: seq<Byte> | |s| == 64 witness seq(64, i => 0)

  function BigEndian(b0: Byte, b1: Byte, b2: Byte, b3: Byte): Word {
    b0 * 0x100_0000 + b1 * 0x1_0000 + b2 * 0x100 + b3
  }

  /** The message schedule of section 6.1.2, step 1. */
  function Schedule(block: Block, t: nat): Word {
    if t < 16 then
      BigEndian(block[4 * t], block[4 * t + 1], block[4 * t + 2], block[4 * t + 3])
    else
      Rotl(1, Xor32(Xor32(Xor32(Schedule(block, t - 3), Schedule(block, t - 8)), Schedule(block, t - 14)),
        Schedule(block, t - 16)))
  }

  /** One turn of step 3. */
  function Step(v: Words, t: nat, w: Word): Words {
    var temp := Plus(Plus(Plus(Plus(Rotl(5, v.a), F(t, v.b, v.c, v.d)), v.e), K(t)), w);
    Words(temp, v.a, Rotl(30, v.b), v.c, v.d)
  }

  /** The working variables after the first `t` turns. */
  function Steps(block: Block, h: Words, t: nat): Words {
    if t == 0 then h else Step(Steps(block, h, t - 1), t - 1, Schedule(block, t - 1))
  }

  function Compress(h: Words, block: Block): Words {
    var v := Steps(block, h, 80);
    Words(Plus(h.a, v.a), Plus(h.b, v.b), Plus(h.c, v.c), Plus(h.d, v.d), Plus(h.e, v.e))
  }

  function HashBlocks(h: Words, m: seq<Byte>): Words
    requires |m| % 64 == 0
    decreases |m|
  {
    if m == [] then h
    else
      OneBlockLess(|m|);
      HashBlocks(Compress(h, m[..64]), m[64..])
  }

  lemma OneBlockLess(n: nat)
    requires n % 64 == 0 && n > 0
    ensures n >= 64 && (n - 64) % 64 == 0
  {
  }

  /** The 64-bit big-endian form of a length in bits. */
  function LengthBytes(bits: nat): (r: seq<Byte>)
    requires bits < 0x1_0000_0000_0000_0000
    ensures |r| == 8
  {
    [bits / 0x100_0000_0000_0000 % 256, bits / 0x1_0000_0000_0000 % 256, bits / 0x100_0000_0000 % 256,
     bits / 0x1_0000_0000 % 256, bits / 0x100_0000 % 256, bits / 0x1_0000 % 256, bits / 0x100 % 256, bits % 256]
  }

  /** The messages SHA-1 is defined on: fewer than 2^64 bits. */
  predicate Hashable(m: seq<Byte>) {
    8 * |m| < 0x1_0000_0000_0000_0000
  }

  function ZeroBytes(n: nat): (r: seq<Byte>)
    ensures |r| == n
  {
    seq(n, i => 0)
  }

  /** Padding, section 5.1.1: a one bit, the fewest zeros that leave room, and the length. */
  function Padding(n: nat): (r: seq<Byte>)
    requires 8 * n < 0x1_0000_0000_0000_0000
    ensures (n + |r|) % 64 == 0
  {
    var k := (119 - n % 64) % 64;
    PaddedLength(n, k);
    [0x80] + ZeroBytes(k) + LengthBytes(8 * n)
  }

  lemma PaddedLength(n: nat, k: nat)
    requires k == (119 - n % 64) % 64
    ensures (n + (1 + k + 8)) % 64 == 0
  {
    var q, r := n / 64, n % 64;
    assert k == if r <= 55 then 55 - r else 119 - r;
    assert n + (1 + k + 8) == if r <= 55 then 64 * (q + 1) else 64 * (q + 2);
  }

  function Digest(m: seq<Byte>): Words
    requires Hashable(m)
  {
    HashBlocks(INITIAL, m + Padding(|m|))
  }

  lemma {:induction false} HashBlocksConcat(h: Words, m: seq<Byte>, n: seq<Byte>)
    requires |m| % 64 == 0 && |n| % 64 == 0
    ensures HashBlocks(h, m + n) == HashBlocks(HashBlocks(h, m), n)
    decreases |m|
  {
    if m == [] {
      assert m + n == n;
    } else {
      hide Compress;
      OneBlockLess(|m|);
      OneBlockLess(|m + n|);
      assert (m + n)[..64] == m[..64] && (m + n)[64..] == m[64..] + n;
      HashBlocksConcat(Compress(h, m[..64]), m[64..], n);
    }
  }

  lemma HashOneBlock(h: Words, block: Block)
    ensures HashBlocks(h, block) == Compress(h, block)
  {
    hide Compress;
    assert block[..64] == block && block[64..] == [];
  }

  /** Appending a whole block to what has been hashed compresses it once. */
  lemma HashAppend(m: seq<Byte>, block: Block)
    requires |m| % 64 == 0
    ensures HashBlocks(INITIAL, m + block) == Compress(HashBlocks(INITIAL, m), block)
  {
    hide HashBlocks, Compress;
    HashBlocksConcat(INITIAL, m, block);
    HashOneBlock(HashBlocks(INITIAL, m), block);
  }

  /** `h` is the hash value of the whole blocks `m`. */
  ghost predicate HashedTo(m: seq<Byte>, h: Words) {
    |m| % 64 == 0 && HashBlocks(INITIAL, m) == h
  }

  lemma HashedMore(m: seq<Byte>, block: Block, h: Words)
    requires HashedTo(m, h)
    ensures HashedTo(m + block, Compress(h, block))
  {
    hide HashBlocks, Compress;
    HashAppend(m, block);
  }

  lemma HashedWhole(m: seq<Byte>, h: Words)
    requires HashedTo(m, h)
    ensures |m| % 64 == 0
  {
  }

  lemma HashedPadded(m: seq<Byte>, h: Words)
    requires Hashable(m) && HashedTo(m + Padding(|m|), h)
    ensures h == Digest(m)
  {
  }

  /** A last part of at most 55 bytes is padded within its own block. */
  lemma PaddingInOne(m: seq<Byte>, front: seq<Byte>, part: seq<Byte>)
    requires Hashable(m) && m == front + part && |front| % 64 == 0 && |part| <= 55
    ensures m + Padding(|m|) == front + (part + [0x80] + ZeroBytes(55 - |part|) + LengthBytes(8 * |m|))
  {
    hide LengthBytes;
    assert |m| % 64 == |part|;
    assert (119 - |part|) % 64 == 55 - |part|;
  }

  /** A longer one needs a second block. */
  lemma PaddingInTwo(m: seq<Byte>, front: seq<Byte>, part: seq<Byte>)
    requires Hashable(m) && m == front + part && |front| % 64 == 0 && 55 < |part| < 64
    ensures m + Padding(|m|)
              == front + (part + [0x80] + ZeroBytes(63 - |part|)) + (ZeroBytes(56) + LengthBytes(8 * |m|))
  {
    hide LengthBytes;
    assert |m| % 64 == |part|;
    assert (119 - |part|) % 64 == 119 - |part|;
    assert ZeroBytes(119 - |part|) == ZeroBytes(63 - |part|) + ZeroBytes(56);
  }

  lemma LengthOfWords(high: Word, low: Word)
    ensures LengthBytes(high * 0x1_0000_0000 + low)
         == [high / 0x100_0000 % 256, high / 0x1_0000 % 256, high / 0x100 % 256, high % 256,
             low / 0x100_0000 % 256, low / 0x1_0000 % 256, low / 0x100 % 256, low % 256]
  {
    Quotients(high * 0x1_0000_0000 + low, high, low);
    LowByte(high, low / 0x100_0000);
    LowByte(high * 0x100, low / 0x1_0000);
    LowByte(high * 0x1_0000, low / 0x100);
    LowByte(high * 0x100_0000, low);
  }

  lemma LowByte(a: nat, b: nat)
    ensures (a * 0x100 + b) % 256 == b % 256
  {
  }

  lemma Quotients(n: nat, high: Word, low: Word)
    requires n == high * 0x1_0000_0000 + low
    ensures n / 0x100_0000_0000_0000 == high / 0x100_0000 && n / 0x1_0000_0000_0000 == high / 0x1_0000
    ensures n / 0x100_0000_0000 == high / 0x100 && n / 0x1_0000_0000 == high
    ensures n / 0x100_0000 == high * 0x100 + low / 0x100_0000
    ensures n / 0x1_0000 == high * 0x1_0000 + low / 0x1_0000
    ensures n / 0x100 == high * 0x100_0000 + low / 0x100
  {
    QuotientIs(n, 0x100_0000_0000_0000, high / 0x100_0000, high % 0x100_0000 * 0x1_0000_0000 + low);
    QuotientIs(n, 0x1_0000_0000_0000, high / 0x1_0000, high % 0x1_0000 * 0x1_0000_0000 + low);
    QuotientIs(n, 0x100_0000_0000, high / 0x100, high % 0x100 * 0x1_0000_0000 + low);
    QuotientIs(n, 0x1_0000_0000, high, low);
    QuotientIs(n, 0x100_0000, high * 0x100 + low / 0x100_0000, low % 0x100_0000);
    QuotientIs(n, 0x1_0000, high * 0x1_0000 + low / 0x1_0000, low % 0x1_0000);
    QuotientIs(n, 0x100, high * 0x100_0000 + low / 0x100, low % 0x100);
  }

  lemma HashedNothing()
    ensures HashedTo([], INITIAL)
  {
  }

  lemma StepsNone(block: Block, h: Words)
    ensures Steps(block, h, 0) == h
  {
  }

  lemma StepsNext(block: Block, h: Words, t: nat)
    ensures Steps(block, h, t + 1) == Step(Steps(block, h, t), t, Schedule(block, t))
  {
  }
}

/** The streaming implementation of module/sockect/websocket/sha1.h. */
module Sha1 {
  import opened Bits
  import opened Sha1Spec

  const WORD: nat := 0x1_0000_0000

  /** The macro SHA1CircularShift is the rotation of the standard. */
  function CircularShift(bits: nat, word: Word): (r: Word)
    requires bits in {1, 5, 30}
    ensures r == Rotl(bits, word)
  {
    Pow2Shifts(word);
    if bits == 1 then Or32(word * 2 % WORD, word / 0x8000_0000)
    else if bits == 5 then Or32(word * 32 % WORD, word / 0x800_0000)
    else Or32(word * 0x4000_0000 % WORD, word / 4)
  }

  lemma Pow2Shifts(x: Word)
    ensures Or(x * 2 % WORD, x / 0x8000_0000) == x % 0x8000_0000 * 2 + x / 0x8000_0000
    ensures Or(x * 32 % WORD, x / 0x800_0000) == x % 0x800_0000 * 32 + x / 0x800_0000
    ensures Or(x * 0x4000_0000 % WORD, x / 4) == x % 4 * 0x4000_0000 + x / 4
  {
    hide Or;
    Pow2Constants();
    assert Pow2(1) == 2 && Pow2(5) == 32;
    assert Pow2(30) == 0x4000_0000 by {
      assert Pow2(26) == 0x400_0000;
    }
    OrIsPlus(x % 0x8000_0000, x / 0x8000_0000, 1);
    OrIsPlus(x % 0x800_0000, x / 0x800_0000, 5);
    OrIsPlus(x % 4, x / 4, 30);
    ShiftedOut(x);
  }

  lemma ShiftedOut(x: Word)
    ensures x * 2 % WORD == x % 0x8000_0000 * 2
    ensures x * 32 % WORD == x % 0x800_0000 * 32
    ensures x * 0x4000_0000 % WORD == x % 4 * 0x4000_0000
  {
    QuotientIs(x * 2, WORD, x / 0x8000_0000, x % 0x8000_0000 * 2);
    QuotientIs(x * 32, WORD, x / 0x800_0000, x % 0x800_0000 * 32);
    QuotientIs(x * 0x4000_0000, WORD, x / 4, x % 4 * 0x4000_0000);
  }

  /** Four bytes shifted into place and joined by OR are the big-endian word. */
  lemma OrBytes(b0: Byte, b1: Byte, b2: Byte, b3: Byte)
    ensures Or32(Or32(Or32(b0 * 0x100_0000, b1 * 0x1_0000), b2 * 0x100), b3) == BigEndian(b0, b1, b2, b3)
  {
    OrFour(b0, b1, b2, b3);
  }

  /** The implementation's forms of the choice and majority functions, and its order of the
      summands, give the standard's step. */
  lemma TurnIsStep(v: Words, t: nat, w: Word, f: Word)
    requires f == if t < 20 then Or32(And32(v.b, v.c), And32(Not32(v.b), v.d))
                  else if 40 <= t < 60 then Or32(Or32(And32(v.b, v.c), And32(v.b, v.d)), And32(v.c, v.d))
                  else Xor32(Xor32(v.b, v.c), v.d)
    ensures Step(v, t, w) == Words(Plus(Plus(Plus(Plus(CircularShift(5, v.a), f), v.e), w), K(t)),
                                   v.a, CircularShift(30, v.b), v.c, v.d)
  {
    hide *;
    FunctionForms(v, t);
    PlusSwap(Plus(Plus(CircularShift(5, v.a), f), v.e), w, K(t));
    StepIs(v, t, w);
  }

  lemma StepIs(v: Words, t: nat, w: Word)
    ensures Step(v, t, w) == Words(Plus(Plus(Plus(Plus(Rotl(5, v.a), F(t, v.b, v.c, v.d)), v.e), K(t)), w),
                                   v.a, Rotl(30, v.b), v.c, v.d)
  {
    hide Plus, Rotl, F, K;
  }

  lemma FunctionForms(v: Words, t: nat)
    ensures F(t, v.b, v.c, v.d) == if t < 20 then Or32(And32(v.b, v.c), And32(Not32(v.b), v.d))
                                   else if 40 <= t < 60 then
                                     Or32(Or32(And32(v.b, v.c), And32(v.b, v.d)), And32(v.c, v.d))
                                   else Xor32(Xor32(v.b, v.c), v.d)
  {
    hide And, Or, Xor, Pow2;
    Pow2Constants();
    ChoiceForms(v.b, v.c, v.d, 32);
    MajorityForms(v.b, v.c, v.d);
  }

  lemma PlusSwap(x: Word, w: Word, k: Word)
    ensures Plus(Plus(x, w), k) == Plus(Plus(x, k), w)
  {
  }

  class Sha1Context {
    const messageDigest: array<Word>
    const messageBlock: array<Byte>
    var lengthLow: Word
    var lengthHigh: Word
    var messageBlockIndex: int
    var computed: bool
    var corrupted: bool
    /** Every byte accepted since the last reset, and the whole blocks among them. */
    ghost var consumed: seq<Byte>
    ghost var hashed: seq<Byte>

    ghost predicate Shape() {
      messageDigest.Length == 5 && messageBlock.Length == 64
    }

    function Digest5(): Words
      requires Shape()
      reads messageDigest
    {
      Words(messageDigest[0], messageDigest[1], messageDigest[2], messageDigest[3], messageDigest[4])
    }

    /** Midway through a message: the digest covers the whole blocks so far, the block buffer holds
        the fewer than 64 bytes after them, and the two length words count the bits. */
    ghost predicate Absorbing()
      reads `lengthLow, `lengthHigh, `messageBlockIndex, `consumed, `hashed, messageDigest, messageBlock
    {
      && Shape()
      && 0 <= messageBlockIndex < 64
      && lengthHigh * WORD + lengthLow == 8 * |consumed|
      && consumed == hashed + messageBlock[..messageBlockIndex]
      && HashedTo(hashed, Digest5())
    }

    ghost predicate Valid()
      reads this, messageDigest, messageBlock
    {
      && Shape()
      && (!corrupted && !computed ==> Absorbing())
      && (!corrupted && computed ==> Hashable(consumed) && Digest5() == Digest(consumed))
    }

    constructor ()
      ensures Shape() && fresh(messageDigest) && fresh(messageBlock)
    {
      messageDigest, messageBlock := new Word[5], new Byte[64];
    }

    method Reset()
      requires Shape()
      modifies this, messageDigest
      ensures Valid() && consumed == [] && !computed && !corrupted
    {
      lengthLow, lengthHigh, messageBlockIndex := 0, 0, 0;
      messageDigest[0] := 0x67452301;
      messageDigest[1] := 0xEFCDAB89;
      messageDigest[2] := 0x98BADCFE;
      messageDigest[3] := 0x10325476;
      messageDigest[4] := 0xC3D2E1F0;
      computed, corrupted := false, false;
      consumed, hashed := [], [];
      hide HashedTo, Digest;
      HashedNothing();
      assert Digest5() == INITIAL;
    }

    /** Fills the 80-word schedule, as section 6.1.2, step 1 prescribes. */
    method FillSchedule() returns (w: array<Word>)
      requires Shape()
      ensures fresh(w) && w.Length == 80
      ensures forall t :: 0 <= t < 80 ==> w[t] == Schedule(messageBlock[..], t)
    {
      hide Rotl, Or32, Xor32, BigEndian, CircularShift;
      ghost var block: Block := messageBlock[..];
      w := new Word[80];
      var t := 0;
      while t < 16
        invariant 0 <= t <= 16
        invariant forall s :: 0 <= s < t ==> w[s] == Schedule(block, s)
      {
        var b0: int, b1: int, b2: int := messageBlock[t * 4], messageBlock[t * 4 + 1], messageBlock[t * 4 + 2];
        w[t] := b0 * 0x100_0000;
        w[t] := Or32(w[t], b1 * 0x1_0000);
        w[t] := Or32(w[t], b2 * 0x100);
        w[t] := Or32(w[t], messageBlock[t * 4 + 3]);
        OrBytes(b0, b1, b2, messageBlock[t * 4 + 3]);
        t := t + 1;
      }
      while t < 80
        invariant 16 <= t <= 80
        invariant forall s :: 0 <= s < t ==> w[s] == Schedule(block, s)
      {
        w[t] := CircularShift(1, Xor32(Xor32(Xor32(w[t - 3], w[t - 8]), w[t - 14]), w[t - 16]));
        t := t + 1;
      }
    }

    /** Turns 0 to 39. */
    method FirstForty(w: array<Word>, k: seq<Word>, ghost block: Block, ghost h: Words, v: Words) returns (r: Words)
      requires w.Length == 80 && k == [0x5A827999, 0x6ED9EBA1, 0x8F1BBCDC, 0xCA62C1D6]
      requires (forall s :: 0 <= s < 80 ==> w[s] == Schedule(block, s)) && v == Steps(block, h, 0)
      ensures r == Steps(block, h, 40)
    {
      hide Schedule, CircularShift, Step, Steps, And32, Or32, Xor32, Plus;
      var a, b, c, d, e := v.a, v.b, v.c, v.d, v.e;
      var t := 0;
      while t < 20
        invariant 0 <= t <= 20 && Sha1Spec.Words(a, b, c, d, e) == Steps(block, h, t)
      {
        var f := Or32(And32(b, c), And32(Not32(b), d));
        StepsNext(block, h, t);
        TurnIsStep(Sha1Spec.Words(a, b, c, d, e), t, w[t], f);
        var temp := Plus(Plus(Plus(Plus(CircularShift(5, a), f), e), w[t]), k[0]);
        a, b, c, d, e := temp, a, CircularShift(30, b), c, d;
        t := t + 1;
      }
      while t < 40
        invariant 20 <= t <= 40 && Sha1Spec.Words(a, b, c, d, e) == Steps(block, h, t)
      {
        var f := Xor32(Xor32(b, c), d);
        StepsNext(block, h, t);
        TurnIsStep(Sha1Spec.Words(a, b, c, d, e), t, w[t], f);
        var temp := Plus(Plus(Plus(Plus(CircularShift(5, a), f), e), w[t]), k[1]);
        a, b, c, d, e := temp, a, CircularShift(30, b), c, d;
        t := t + 1;
      }
      return Sha1Spec.Words(a, b, c, d, e);
    }

    /** Turns 40 to 79. */
    method LastForty(w: array<Word>, k: seq<Word>, ghost block: Block, ghost h: Words, v: Words) returns (r: Words)
      requires w.Length == 80 && k == [0x5A827999, 0x6ED9EBA1, 0x8F1BBCDC, 0xCA62C1D6]
      requires (forall s :: 0 <= s < 80 ==> w[s] == Schedule(block, s)) && v == Steps(block, h, 40)
      ensures r == Steps(block, h, 80)
    {
      hide Schedule, CircularShift, Step, Steps, And32, Or32, Xor32, Plus;
      var a, b, c, d, e := v.a, v.b, v.c, v.d, v.e;
      var t := 40;
      while t < 60
        invariant 40 <= t <= 60 && Sha1Spec.Words(a, b, c, d, e) == Steps(block, h, t)
      {
        var f := Or32(Or32(And32(b, c), And32(b, d)), And32(c, d));
        StepsNext(block, h, t);
        TurnIsStep(Sha1Spec.Words(a, b, c, d, e), t, w[t], f);
        var temp := Plus(Plus(Plus(Plus(CircularShift(5, a), f), e), w[t]), k[2]);
        a, b, c, d, e := temp, a, CircularShift(30, b), c, d;
        t := t + 1;
      }
      while t < 80
        invariant 60 <= t <= 80 && Sha1Spec.Words(a, b, c, d, e) == Steps(block, h, t)
      {
        var f := Xor32(Xor32(b, c), d);
        StepsNext(block, h, t);
        TurnIsStep(Sha1Spec.Words(a, b, c, d, e), t, w[t], f);
        var temp := Plus(Plus(Plus(Plus(CircularShift(5, a), f), e), w[t]), k[3]);
        a, b, c, d, e := temp, a, CircularShift(30, b), c, d;
        t := t + 1;
      }
      return Sha1Spec.Words(a, b, c, d, e);
    }

    method ProcessMessageBlock()
      requires Shape()
      modifies messageDigest, `messageBlockIndex
      ensures Digest5() == Compress(old(Digest5()), messageBlock[..])
      ensures messageBlockIndex == 0
    {
      hide Schedule, Steps, Plus;
      var k: seq<Word> := [0x5A827999, 0x6ED9EBA1, 0x8F1BBCDC, 0xCA62C1D6];
      var w := FillSchedule();
      ghost var block: Block := messageBlock[..];
      StepsNone(block, Digest5());
      var v := FirstForty(w, k, block, Digest5(), Digest5());
      v := LastForty(w, k, block, Digest5(), v);
      messageDigest[0] := Plus(messageDigest[0], v.a);
      messageDigest[1] := Plus(messageDigest[1], v.b);
      messageDigest[2] := Plus(messageDigest[2], v.c);
      messageDigest[3] := Plus(messageDigest[3], v.d);
      messageDigest[4] := Plus(messageDigest[4], v.e);
      messageBlockIndex := 0;
    }

    /** Counts one more byte in the two length words; the wrap of both marks the context corrupted. */
    method CountByte()
      requires !corrupted && lengthHigh * WORD + lengthLow == 8 * |consumed|
      modifies `lengthLow, `lengthHigh, `corrupted
      ensures corrupted <==> 8 * (|consumed| + 1) >= WORD * WORD
      ensures !corrupted ==> lengthHigh * WORD + lengthLow == 8 * (|consumed| + 1)
    {
      lengthLow := (lengthLow + 8) % WORD;
      if lengthLow == 0 {
        lengthHigh := (lengthHigh + 1) % WORD;
        if lengthHigh == 0 {
          corrupted := true;
        }
      }
    }

    /** One turn of the loop of SHA1Input. */
    method AbsorbByte(byte: Byte)
      requires Valid() && !corrupted && !computed
      modifies `lengthLow, `lengthHigh, `corrupted, `messageBlockIndex, `consumed, `hashed, messageDigest, messageBlock
      ensures Valid() && consumed == old(consumed) + [byte]
      ensures corrupted <==> !Hashable(consumed)
    {
      hide HashedTo, Compress, Digest;
      ghost var part := messageBlock[..messageBlockIndex];
      messageBlock[messageBlockIndex] := byte;
      messageBlockIndex := messageBlockIndex + 1;
      CountByte();
      consumed := consumed + [byte];
      assert messageBlock[..messageBlockIndex] == part + [byte];
      if messageBlockIndex == 64 {
        ghost var block: Block := messageBlock[..];
        HashedMore(hashed, block, Digest5());
        ProcessMessageBlock();
        hashed := hashed + block;
      }
    }

    /** SHA1Input. A context that has been finished, or whose length has reached 2^64 bits, is marked
        corrupted by any further byte; otherwise the bytes are added to what has been consumed. */
    method Input(messageArray: seq<Byte>)
      requires Valid()
      modifies `lengthLow, `lengthHigh, `corrupted, `messageBlockIndex, `consumed, `hashed, messageDigest, messageBlock
      ensures Valid()
      ensures messageArray == [] || old(computed || corrupted) ==>
                consumed == old(consumed) && Digest5() == old(Digest5())
      ensures corrupted <==>
                old(corrupted) || (messageArray != [] && (computed || !Hashable(old(consumed) + messageArray)))
      ensures !corrupted ==> consumed == old(consumed) + messageArray
    {
      if messageArray == [] {
        return;
      }
      if computed || corrupted {
        corrupted := true;
        return;
      }
      AbsorbAll(messageArray);
    }

    /** The loop of SHA1Input, which stops when the length wraps. */
    method AbsorbAll(messageArray: seq<Byte>)
      requires Valid() && !corrupted && !computed && messageArray != []
      modifies `lengthLow, `lengthHigh, `corrupted, `messageBlockIndex, `consumed, `hashed, messageDigest, messageBlock
      ensures Valid() && (corrupted <==> !Hashable(old(consumed) + messageArray))
      ensures !corrupted ==> consumed == old(consumed) + messageArray
    {
      hide Valid;
      var i := 0;
      while i < |messageArray| && !corrupted
        invariant 0 <= i <= |messageArray|
        invariant Valid() && consumed == old(consumed) + messageArray[..i]
        invariant corrupted <==> i > 0 && !Hashable(consumed)
      {
        AbsorbByte(messageArray[i]);
        i := i + 1;
      }
    }

    /** Zeros the block buffer up to `limit`. */
    method FillZeros(limit: int)
      requires Shape() && 0 <= messageBlockIndex <= limit <= 64
      modifies `messageBlockIndex, messageBlock
      ensures messageBlockIndex == limit
      ensures messageBlock[..limit]
                == old(messageBlock[..messageBlockIndex]) + ZeroBytes(limit - old(messageBlockIndex))
    {
      while messageBlockIndex < limit
        invariant old(messageBlockIndex) <= messageBlockIndex <= limit
        invariant messageBlock[..messageBlockIndex]
               == old(messageBlock[..messageBlockIndex]) + ZeroBytes(messageBlockIndex - old(messageBlockIndex))
      {
        messageBlock[messageBlockIndex] := 0;
        messageBlockIndex := messageBlockIndex + 1;
      }
    }

    /** Writes the two length words into the last eight bytes of the block buffer. */
    method StoreLength()
      requires Shape() && lengthHigh * WORD + lengthLow < WORD * WORD
      modifies messageBlock
      ensures messageBlock[..] == old(messageBlock[..56]) + LengthBytes(lengthHigh * WORD + lengthLow)
    {
      messageBlock[56] := lengthHigh / 0x100_0000 % 256;
      messageBlock[57] := lengthHigh / 0x1_0000 % 256;
      messageBlock[58] := lengthHigh / 0x100 % 256;
      messageBlock[59] := lengthHigh % 256;
      messageBlock[60] := lengthLow / 0x100_0000 % 256;
      messageBlock[61] := lengthLow / 0x1_0000 % 256;
      messageBlock[62] := lengthLow / 0x100 % 256;
      messageBlock[63] := lengthLow % 256;
      LengthOfWords(lengthHigh, lengthLow);
    }

    /** The branches of SHA1PadMessage: up to the length field of the last block, with a block of its
        own for the end of a message that leaves no room for the length. */
    method PadTail()
      requires Absorbing()
      modifies `messageBlockIndex, `hashed, messageDigest, messageBlock
      ensures HashedTo(hashed, Digest5()) && Hashable(consumed)
      ensures consumed + Padding(|consumed|) == hashed + (messageBlock[..56] + LengthBytes(8 * |consumed|))
    {
      hide HashedTo, Compress, LengthBytes, ZeroBytes, Padding;
      ghost var part, front := messageBlock[..messageBlockIndex], hashed;
      HashedWhole(hashed, Digest5());
      if messageBlockIndex > 55 {
        messageBlock[messageBlockIndex] := 0x80;
        messageBlockIndex := messageBlockIndex + 1;
        FillZeros(64);
        ghost var block: Block := messageBlock[..];
        HashedMore(hashed, block, Digest5());
        ProcessMessageBlock();
        hashed := hashed + block;
        assert block == messageBlock[..64] == part + [0x80] + ZeroBytes(63 - |part|);
        FillZeros(56);
        assert messageBlock[..56] == ZeroBytes(56);
        PaddingInTwo(consumed, front, part);
      } else {
        messageBlock[messageBlockIndex] := 0x80;
        messageBlockIndex := messageBlockIndex + 1;
        FillZeros(56);
        assert messageBlock[..56] == part + [0x80] + ZeroBytes(55 - |part|);
        PaddingInOne(consumed, front, part);
      }
    }

    method PadMessage()
      requires Absorbing()
      modifies `messageBlockIndex, `hashed, messageDigest, messageBlock
      ensures Hashable(consumed) && Digest5() == Digest(consumed)
    {
      hide HashedTo, Compress, Digest, LengthBytes, ZeroBytes, Padding;
      PadTail();
      StoreLength();
      ghost var last: Block := messageBlock[..];
      HashedMore(hashed, last, Digest5());
      ProcessMessageBlock();
      hashed := hashed + last;
      HashedPadded(consumed, Digest5());
    }

    /** SHA1Result: pads once; asked again, it changes nothing. */
    method Result() returns (ok: bool)
      requires Valid()
      modifies `computed, `messageBlockIndex, `hashed, messageDigest, messageBlock
      ensures Valid() && ok == !corrupted
      ensures ok ==> computed && Digest5() == Digest(consumed)
      ensures old(corrupted || computed) ==> computed == old(computed) && Digest5() == old(Digest5())
    {
      hide Digest, Absorbing;
      if corrupted {
        return false;
      }
      if !computed {
        PadMessage();
        computed := true;
      }
      return true;
    }
  }

  function Flatten(pieces: seq<seq<Byte>>): seq<Byte> {
    if pieces == [] then [] else Flatten(pieces[..|pieces| - 1]) + pieces[|pieces| - 1]
  }

  /** However a message is cut into pieces, reset, input of the pieces and result give its digest,
      and asking for the result again gives it again. */
  method HashPieces(pieces: seq<seq<Byte>>) returns (ok: bool, words: Words)
    requires Hashable(Flatten(pieces))
    ensures ok && words == Digest(Flatten(pieces))
  {
    hide Digest;
    var context := new Sha1Context();
    context.Reset();
    var i := 0;
    while i < |pieces|
      invariant 0 <= i <= |pieces| && fresh(context.messageDigest) && fresh(context.messageBlock)
      invariant context.Valid() && !context.computed && !context.corrupted
      invariant context.consumed == Flatten(pieces[..i])
    {
      assert pieces[..i + 1][..i] == pieces[..i];
      FlattenShorter(pieces, i + 1);
      context.Input(pieces[i]);
      i := i + 1;
    }
    assert pieces[..i] == pieces;
    ok := context.Result();
    var again := context.Result();
    words := context.Digest5();
  }

  lemma {:induction false} FlattenShorter(pieces: seq<seq<Byte>>, i: nat)
    requires i <= |pieces|
    ensures |Flatten(pieces[..i])| <= |Flatten(pieces)|
    decreases |pieces| - i
  {
    if i < |pieces| {
      assert pieces[..i + 1][..i] == pieces[..i];
      FlattenShorter(pieces, i + 1);
    } else {
      assert pieces[..i] == pieces;
    }
  }

  function HexDigit(n: nat): char
    requires n < 16
  {
    if n < 10 then ('0' as int + n) as char else ('A' as int + n - 10) as char
  }

  /** The conversion %08X. */
  function HexWord(w: Word): (s: string)
    ensures |s| == 8
  {
    [HexDigit(w / 0x1000_0000), HexDigit(w / 0x100_0000 % 16),
      HexDigit(w / 0x10_0000 % 16), HexDigit(w / 0x1_0000 % 16),
     HexDigit(w / 0x1000 % 16), HexDigit(w / 0x100 % 16), HexDigit(w / 0x10 % 16), HexDigit(w % 16)]
  }

  function HexDigest(h: Words): (s: string)
    ensures |s| == 40
  {
    HexWord(h.a) + HexWord(h.b) + HexWord(h.c) + HexWord(h.d) + HexWord(h.e)
  }

  /** sha1_hash, on the characters of a C string. The length is passed as an unsigned int, so that of
      longer strings only the remainder is hashed. */
  method Sha1Hash(source: seq<Byte>) returns (buf: string)
    ensures buf == HexDigest(Digest(source[..|source| % WORD]))
    ensures |source| < WORD ==> buf == HexDigest(Digest(source))
  {
    hide Digest, HexDigest;
    var length := |source| % WORD;
    assert |source| < WORD ==> source[..length] == source;
    buf := HashOf(source[..length]);
  }

  method HashOf(piece: seq<Byte>) returns (buf: string)
    requires |piece| < WORD
    ensures buf == HexDigest(Digest(piece))
  {
    hide Digest, HexWord;
    var sha := new Sha1Context();
    sha.Reset();
    sha.Input(piece);
    assert [] + piece == piece;
    var ok := sha.Result();
    var d := sha.Digest5();
    buf := HexWord(d.a) + HexWord(d.b) + HexWord(d.c) + HexWord(d.d) + HexWord(d.e);
  }
}
