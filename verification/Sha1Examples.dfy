/** The first of the published examples of SHA-1, the message "abc", computed through. */
module Sha1Examples {
  import opened Bits
  import opened BitVectors
  import opened Sha1Spec
  import opened Sha1
  import opened Sha1OnBits

  // ---------- the turns of its one block, ten at a time ----------

  const ABC_0: Progress := Progress(
    Registers(0x67452301, 0xEFCDAB89, 0x98BADCFE, 0x10325476, 0xC3D2E1F0),
    Window(0x61626380, 0x00000000, 0x00000000, 0x00000000, 0x00000000, 0x00000000, 0x00000000, 0x00000000,
           0x00000000, 0x00000000, 0x00000000, 0x00000000, 0x00000000, 0x00000000, 0x00000000, 0x00000018))

  const ABC_10: Progress := Progress(
    Registers(0x8351F929, 0x4B6AE328, 0x27A301F5, 0x664F8C30, 0x0FF1F290),
    Window(0x00000000, 0x00000000, 0x00000000, 0x00000000, 0x00000000, 0x00000018, 0xC2C4C700, 0x00000000,
           0x00000030, 0x85898E01, 0x00000000, 0x00000060, 0x0B131C03, 0x00000030, 0x85898EC1, 0x16263806))

  const ABC_20: Progress := Progress(
    Registers(0xFD9E1D7D, 0xDC64901D, 0x20AA99CA, 0xD3A49608, 0xC82F758B),
    Window(0x00000000, 0x00000060, 0x0B131C03, 0x00000030, 0x85898EC1, 0x16263806, 0x00000000, 0x00000180,
           0x2C4C700C, 0x000000F0, 0x93AFB507, 0x5898E048, 0x8E9A9202, 0x00000600, 0xB131C0F0, 0x16263BC6))

  const ABC_30: Progress := Progress(
    Registers(0xC5FBAF5D, 0x8370B52E, 0xD2AA1365, 0x6F8D7EF5, 0x12104EE9),
    Window(0x93AFB507, 0x5898E048, 0x8E9A9202, 0x00000600, 0xB131C0F0, 0x16263BC6, 0x4EBED41E, 0x626380A1,
           0x16263806, 0x000018C0, 0xD2E138C4, 0x00000F00, 0x3AFB5079, 0x898E04E5, 0xE2BA3C2B, 0x000060C0))

  const ABC_40: Progress := Progress(
    Registers(0x32DE1CBA, 0x4C986405, 0xF718E5CF, 0x03D447F6, 0xF72EEC32),
    Window(0xD2E138C4, 0x00000F00, 0x3AFB5079, 0x898E04E5, 0xE2BA3C2B, 0x000060C0, 0x053A37CD, 0x74458547,
           0xDA9415ED, 0x26380A16, 0x626383A1, 0x4EBF54DE, 0x3835B44B, 0x0000F600, 0x1E84C7A3, 0x98E04D98))

  const ABC_50: Progress := Progress(
    Registers(0x120731C5, 0xBAF39337, 0xAFAB40B2, 0x2806E11B, 0x8714787C),
    Window(0x626383A1, 0x4EBF54DE, 0x3835B44B, 0x0000F600, 0x1E84C7A3, 0x98E04D98, 0x651D16A0, 0x62658CA1,
           0x458544D6, 0x44584CB7, 0x7BA06619, 0x6380AEA2, 0x0AE55269, 0x627B49A1, 0x7CD45C9D, 0x000F0000))

  const ABC_60: Progress := Progress(
    Registers(0x3F52DE5A, 0x09D785FD, 0x3498BFD4, 0xF211824F, 0xD79915AB),
    Window(0x7BA06619, 0x6380AEA2, 0x0AE55269, 0x627B49A1, 0x7CD45C9D, 0x000F0000, 0xFB50753A, 0xEC6765E8,
           0xBA3C2BE2, 0x0060C000, 0x3A37CD05, 0x458546F4, 0xB8599DD6, 0x380A1A26, 0x01E02203, 0xE7CC3456))

  const ABC_70: Progress := Progress(
    Registers(0x3F2588C2, 0x497093C0, 0xDE37534A, 0x030F7CAD, 0x4405957E),
    Window(0x3A37CD05, 0x458546F4, 0xB8599DD6, 0x380A1A26, 0x01E02203, 0xE7CC3456, 0xE6E60B69, 0x00F60A00,
           0x5795EF4F, 0x822E0879, 0x7E577CE2, 0x07EF2103, 0x8544E945, 0xEB39DAB8, 0xC205991A, 0x80AECB63))

  const ABC_80: Registers := Registers(0x42541B35, 0x5738D5E1, 0x21834873, 0x681E6DF6, 0xD8FDF6AD)

  lemma Abc0()
    ensures TenMore(ABC_0, 0) == ABC_10
  {
    assert FiveMore(ABC_0, 0).r.a == 0xCFD499DE;
  }

  lemma Abc10()
    ensures TenMore(ABC_10, 10) == ABC_20
  {
  }

  lemma Abc20()
    ensures TenMore(ABC_20, 20) == ABC_30
  {
  }

  lemma Abc30()
    ensures TenMore(ABC_30, 30) == ABC_40
  {
  }

  lemma Abc40()
    ensures TenMore(ABC_40, 40) == ABC_50
  {
  }

  lemma Abc50()
    ensures TenMore(ABC_50, 50) == ABC_60
  {
  }

  lemma Abc60()
    ensures TenMore(ABC_60, 60) == ABC_70
  {
  }

  lemma Abc70()
    ensures TenMore(ABC_70, 70).r == ABC_80
  {
  }

  // ---------- the block and the digest ----------

  const ABC: seq<Byte> := [0x61, 0x62, 0x63]

  /** The message with its padding. */
  function AbcBlock(): Block {
    ABC + [0x80] + ZeroBytes(59) + [24]
  }

  lemma AbcPadded()
    ensures ABC + Padding(3) == AbcBlock()
  {
    PaddingInOne(ABC, [], ABC);
    assert LengthBytes(24) == ZeroBytes(7) + [24];
    assert ZeroBytes(52) + ZeroBytes(7) == ZeroBytes(59);
  }

  lemma AbcSpelt()
    ensures Spelt(0x61626380, 0x61, 0x62, 0x63, 0x80) && Spelt(0, 0, 0, 0, 0) && Spelt(24, 0, 0, 0, 24)
  {
  }

  lemma AbcSpells()
    ensures Spells(ABC_0.w, AbcBlock())
  {
    hide Spelt;
    AbcSpelt();
  }

  lemma AbcSums()
    ensures Added(START, ABC_80) == Registers(0xA9993E36, 0x4706816A, 0xBA3E2571, 0x7850C26C, 0x9CD0D89D)
  {
  }

  lemma AbcSumsSpelt()
    ensures Spelt(0xA9993E36, 0xA9, 0x99, 0x3E, 0x36) && Spelt(0x4706816A, 0x47, 0x06, 0x81, 0x6A)
  {
  }

  lemma AbcThirdSpelt()
    ensures Spelt(0xBA3E2571, 0xBA, 0x3E, 0x25, 0x71)
  {
  }

  lemma AbcEndSpelt()
    ensures Spelt(0x7850C26C, 0x78, 0x50, 0xC2, 0x6C) && Spelt(0x9CD0D89D, 0x9C, 0xD0, 0xD8, 0x9D)
  {
  }

  lemma AbcCompressed()
    ensures Compress(INITIAL, AbcBlock()) == Numbers(Added(START, ABC_80))
  {
    hide Spells, TenMore, Numbers, Added, Compress, AbcBlock;
    AbcSpells();
    Abc0();
    Abc10();
    Abc20();
    Abc30();
    Abc40();
    Abc50();
    Abc60();
    Abc70();
    StartIs();
    BlockIs(AbcBlock(), START, [ABC_0, ABC_10, ABC_20, ABC_30, ABC_40, ABC_50, ABC_60, ABC_70], ABC_80);
  }

  /** The digest of "abc", as published. */
  lemma DigestOfAbc()
    ensures Digest(ABC) == Words(0xA9993E36, 0x4706816A, 0xBA3E2571, 0x7850C26C, 0x9CD0D89D)
  {
    hide Compress, Added, Spelt, Number, AbcBlock;
    AbcPadded();
    AbcCompressed();
    AbcSums();
    AbcSumsSpelt();
    AbcThirdSpelt();
    AbcEndSpelt();
    HashOneBlock(INITIAL, AbcBlock());
    NumberSpelt(0xA9993E36, 0xA9, 0x99, 0x3E, 0x36);
    NumberSpelt(0x4706816A, 0x47, 0x06, 0x81, 0x6A);
    NumberSpelt(0xBA3E2571, 0xBA, 0x3E, 0x25, 0x71);
    NumberSpelt(0x7850C26C, 0x78, 0x50, 0xC2, 0x6C);
    NumberSpelt(0x9CD0D89D, 0x9C, 0xD0, 0xD8, 0x9D);
  }

  // ---------- in print ----------

  lemma DigitsInOrder(n: nat)
    requires n < 16
    ensures HexDigit(n) == "0123456789ABCDEF"[n]
  {
  }

  lemma WordOfBytes(o3: Byte, o2: Byte, o1: Byte, o0: Byte)
    ensures HexWord(BigEndian(o3, o2, o1, o0))
         == [HexDigit(o3 / 16), HexDigit(o3 % 16), HexDigit(o2 / 16), HexDigit(o2 % 16),
             HexDigit(o1 / 16), HexDigit(o1 % 16), HexDigit(o0 / 16), HexDigit(o0 % 16)]
  {
    hide HexDigit, BigEndian;
    HighDigitsOf(o3, o2, o1, o0);
    LowDigitsOf(o3, o2, o1, o0);
    LowNibbles(o3, o2, o1, o0);
  }

  lemma HighDigitsOf(o3: Byte, o2: Byte, o1: Byte, o0: Byte)
    ensures var w := BigEndian(o3, o2, o1, o0);
            && w / 0x1000_0000 == o3 / 16 && w / 0x100_0000 == o3
            && w / 0x10_0000 == o3 * 16 + o2 / 16 && w / 0x1_0000 == o3 * 0x100 + o2
  {
    var w := BigEndian(o3, o2, o1, o0);
    QuotientIs(w, 0x1000_0000, o3 / 16, o3 % 16 * 0x100_0000 + o2 * 0x1_0000 + o1 * 0x100 + o0);
    QuotientIs(w, 0x100_0000, o3, o2 * 0x1_0000 + o1 * 0x100 + o0);
    QuotientIs(w, 0x10_0000, o3 * 16 + o2 / 16, o2 % 16 * 0x1_0000 + o1 * 0x100 + o0);
    QuotientIs(w, 0x1_0000, o3 * 0x100 + o2, o1 * 0x100 + o0);
  }

  lemma LowDigitsOf(o3: Byte, o2: Byte, o1: Byte, o0: Byte)
    ensures var w, two := BigEndian(o3, o2, o1, o0), o3 * 0x100 + o2;
            && w / 0x1000 == two * 16 + o1 / 16 && w / 0x100 == two * 0x100 + o1
            && w / 0x10 == (two * 0x100 + o1) * 16 + o0 / 16 && w == (two * 0x100 + o1) * 0x100 + o0
  {
    var w, two := BigEndian(o3, o2, o1, o0), o3 * 0x100 + o2;
    QuotientIs(w, 0x1000, two * 16 + o1 / 16, o1 % 16 * 0x100 + o0);
    QuotientIs(w, 0x100, two * 0x100 + o1, o0);
    QuotientIs(w, 0x10, (two * 0x100 + o1) * 16 + o0 / 16, o0 % 16);
  }

  lemma LowNibbles(o3: Byte, o2: Byte, o1: Byte, o0: Byte)
    ensures o3 % 16 < 16 && (o3 * 16 + o2 / 16) % 16 == o2 / 16 && (o3 * 0x100 + o2) % 16 == o2 % 16
    ensures ((o3 * 0x100 + o2) * 16 + o1 / 16) % 16 == o1 / 16
    ensures ((o3 * 0x100 + o2) * 0x100 + o1) % 16 == o1 % 16
    ensures (((o3 * 0x100 + o2) * 0x100 + o1) * 16 + o0 / 16) % 16 == o0 / 16
    ensures (((o3 * 0x100 + o2) * 0x100 + o1) * 0x100 + o0) % 16 == o0 % 16
  {
    var two := o3 * 0x100 + o2;
    QuotientIs(o3 * 16 + o2 / 16, 16, o3, o2 / 16);
    QuotientIs(two, 16, o3 * 16 + o2 / 16, o2 % 16);
    QuotientIs(two * 16 + o1 / 16, 16, two, o1 / 16);
    QuotientIs(two * 0x100 + o1, 16, two * 16 + o1 / 16, o1 % 16);
    QuotientIs((two * 0x100 + o1) * 16 + o0 / 16, 16, two * 0x100 + o1, o0 / 16);
    QuotientIs((two * 0x100 + o1) * 0x100 + o0, 16, (two * 0x100 + o1) * 16 + o0 / 16, o0 % 16);
  }

  lemma WordsOfAbc()
    ensures HexWord(0xA9993E36) == "A9993E36" && HexWord(0x4706816A) == "4706816A"
    ensures HexWord(0xBA3E2571) == "BA3E2571" && HexWord(0x7850C26C) == "7850C26C"
    ensures HexWord(0x9CD0D89D) == "9CD0D89D"
  {
    hide HexWord;
    WordOfBytes(0xA9, 0x99, 0x3E, 0x36);
    WordOfBytes(0x47, 0x06, 0x81, 0x6A);
    WordOfBytes(0xBA, 0x3E, 0x25, 0x71);
    WordOfBytes(0x78, 0x50, 0xC2, 0x6C);
    WordOfBytes(0x9C, 0xD0, 0xD8, 0x9D);
  }

  /** What sha1_hash prints for "abc". */
  method HashOfAbc() returns (buf: string)
    ensures |buf| == 40 && buf[..16] == "A9993E364706816A" && buf[16..] == "BA3E25717850C26C9CD0D89D"
  {
    hide Digest, HexWord;
    DigestOfAbc();
    WordsOfAbc();
    buf := Sha1Hash(ABC);
  }
}
