/** The examples of section 5.7 of RFC 6455. */
module FrameExamples {
  import opened Bits
  import opened BitVectors
  import opened ByteOrder
  import opened FrameSpec
  import opened Options
  import opened Sequences
  import opened Sha1OnBits

  const HELLO: seq<Byte> := [0x48, 0x65, 0x6C, 0x6C, 0x6F]

  lemma UnmaskedHello()
    ensures Build(Frame(true, 0, 1, [], HELLO), 0) == [0x81, 0x05, 0x48, 0x65, 0x6C, 0x6C, 0x6F]
  {
  }

  /** Two bytes, and their exclusive OR. */
  lemma XorOf(x: bv32, y: bv32, a: Byte, b: Byte, c: Byte)
    requires Spelt(x, 0, 0, 0, a) && Spelt(y, 0, 0, 0, b) && Spelt(Exor(x, y), 0, 0, 0, c)
    ensures XorByte(a, b) == c
  {
    hide Spelt, Sha1OnBits.Number, Exor, Xor;
    NumberSpelt(x, 0, 0, 0, a);
    NumberSpelt(y, 0, 0, 0, b);
    NumberSpelt(Exor(x, y), 0, 0, 0, c);
    NumberOfExor(x, y);
  }

  lemma HelloXors()
    ensures XorByte(0x48, 0x37) == 0x7F && XorByte(0x65, 0xFA) == 0x9F && XorByte(0x6C, 0x21) == 0x4D
    ensures XorByte(0x6C, 0x3D) == 0x51 && XorByte(0x6F, 0x37) == 0x58
  {
    hide Spelt, XorByte;
    HelloSpelt();
    KeySpelt();
    MaskedSpelt();
    XorOf(0x48, 0x37, 0x48, 0x37, 0x7F);
    XorOf(0x65, 0xFA, 0x65, 0xFA, 0x9F);
    XorOf(0x6C, 0x21, 0x6C, 0x21, 0x4D);
    XorOf(0x6C, 0x3D, 0x6C, 0x3D, 0x51);
    XorOf(0x6F, 0x37, 0x6F, 0x37, 0x58);
  }

  lemma HelloSpelt()
    ensures Spelt(0x48, 0, 0, 0, 0x48) && Spelt(0x65, 0, 0, 0, 0x65)
    ensures Spelt(0x6C, 0, 0, 0, 0x6C) && Spelt(0x6F, 0, 0, 0, 0x6F)
  {
  }

  lemma KeySpelt()
    ensures Spelt(0x37, 0, 0, 0, 0x37) && Spelt(0xFA, 0, 0, 0, 0xFA)
    ensures Spelt(0x21, 0, 0, 0, 0x21) && Spelt(0x3D, 0, 0, 0, 0x3D)
  {
  }

  lemma MaskedSpelt()
    ensures Spelt(Exor(0x48, 0x37), 0, 0, 0, 0x7F) && Spelt(Exor(0x65, 0xFA), 0, 0, 0, 0x9F)
    ensures Spelt(Exor(0x6C, 0x21), 0, 0, 0, 0x4D) && Spelt(Exor(0x6C, 0x3D), 0, 0, 0, 0x51)
    ensures Spelt(Exor(0x6F, 0x37), 0, 0, 0, 0x58)
  {
  }

  lemma MaskedHello()
    ensures Build(Frame(true, 0, 1, [0x37, 0xFA, 0x21, 0x3D], HELLO), 0)
         == [0x81, 0x85, 0x37, 0xFA, 0x21, 0x3D, 0x7F, 0x9F, 0x4D, 0x51, 0x58]
  {
    hide XorByte;
    HelloXors();
    assert Mask(HELLO, [0x37, 0xFA, 0x21, 0x3D]) == [0x7F, 0x9F, 0x4D, 0x51, 0x58];
  }

  /** 256 bytes of binary data, and 64 KiB. */
  lemma LongFrames(data: seq<Byte>)
    requires |data| == 0x100 || |data| == 0x1_0000
    ensures |data| == 0x100 ==> Build(Frame(true, 0, 2, [], data), 2) == [0x82, 0x7E, 0x01, 0x00] + data
    ensures |data| == 0x1_0000 ==>
              Build(Frame(true, 0, 2, [], data), 8) == [0x82, 0x7F, 0, 0, 0, 0, 0, 0x01, 0x00, 0x00] + data
  {
    LongLengths();
  }

  lemma LongLengths()
    ensures HighDigits(0x100, 2) == [0x01, 0x00] && HighDigits(0x1_0000, 8) == [0, 0, 0, 0, 0, 0x01, 0x00, 0x00]
  {
  }
}
