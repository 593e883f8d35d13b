/** A key whose digest begins with a zero byte: the server answers with nothing at all. */
module ZeroExample {
  import opened AcceptExample
  import opened Base64Spec
  import opened Bits
  import opened BitVectors
  import opened Sha1OnBits
  import opened Sha1Spec
  import opened WebSocketHandshake

  // ---------- the turns of its one block, ten at a time ----------

  const SHORT_0: Progress := Progress(
    Registers(0x67452301, 0xEFCDAB89, 0x98BADCFE, 0x10325476, 0xC3D2E1F0),
    Window(0x63643235, 0x38454146, 0x41352D45, 0x3931342D, 0x34374441, 0x2D393543, 0x412D4335, 0x41423044,
           0x43383542, 0x31318000, 0x00000000, 0x00000000, 0x00000000, 0x00000000, 0x00000000, 0x00000130))

  const SHORT_10: Progress := Progress(
    Registers(0x1265E093, 0x4702E08E, 0x9CC513AF, 0x181AFF12, 0xBED050BD),
    Window(0x00000000, 0x00000000, 0x00000000, 0x00000000, 0x00000000, 0x00000130, 0xC2D25464, 0x608BEAD6,
           0xEA04D068, 0xADB4AA15, 0x2B23DB44, 0x0CFFAADF, 0x5F43B8C5, 0xB6A0D460, 0x1A2B97F3, 0x1DF3A426))

  const SHORT_20: Progress := Progress(
    Registers(0x5F9E1B0F, 0x13E53994, 0xE3388E8B, 0x52B8F3E4, 0x85F0A7DC),
    Window(0x2B23DB44, 0x0CFFAADF, 0x5F43B8C5, 0xB6A0D460, 0x1A2B97F3, 0x1DF3A426, 0xB9480810, 0x6F3E7BCD,
           0x6DA0FEC4, 0x6B6F47FF, 0xE55F2ED9, 0x77178285, 0xB324A800, 0x6B279478, 0x1EF10372, 0xFAA3A60E))

  const SHORT_30: Progress := Progress(
    Registers(0x30FAE196, 0x3E7EFECE, 0xCC086B63, 0x883D8F3D, 0x661B23FF),
    Window(0xE55F2ED9, 0x77178285, 0xB324A800, 0x6B279478, 0x1EF10372, 0xFAA3A60E, 0xE5CE127A, 0x9F827465,
           0xB5294FC2, 0x7315C172, 0x1F8A870D, 0x598608A3, 0x721869A9, 0xC2F03A63, 0x696F9588, 0xE3C5B16D))

  const SHORT_40: Progress := Progress(
    Registers(0x133A984F, 0xA41DA43B, 0x9800DA0B, 0x98FC78E1, 0xE1AD0C29),
    Window(0x1F8A870D, 0x598608A3, 0x721869A9, 0xC2F03A63, 0x696F9588, 0xE3C5B16D, 0x4345E6F0, 0x0C94840E,
           0xA3353A24, 0x168FB84B, 0x0B67F95F, 0x09C9A458, 0x5E0EE0F6, 0x086BFA4A, 0xC05F14CF, 0xF0135A52))

  const SHORT_50: Progress := Progress(
    Registers(0xB09F3E38, 0x0D7F471B, 0x9E33D379, 0x9DF12C1E, 0xDC5BC5A5),
    Window(0x0B67F95F, 0x09C9A458, 0x5E0EE0F6, 0x086BFA4A, 0xC05F14CF, 0xF0135A52, 0x8D985D95, 0x9B4D3C88,
           0xC006BE59, 0x4AC8E587, 0xDED35E0D, 0x4E78E2E0, 0xD5CE5B38, 0x69B67034, 0xD764F81C, 0xA38AF746))

  const SHORT_60: Progress := Progress(
    Registers(0x7243665B, 0x9E057614, 0x5368A7BE, 0x574F8687, 0x6FBEE6EA),
    Window(0xDED35E0D, 0x4E78E2E0, 0xD5CE5B38, 0x69B67034, 0xD764F81C, 0xA38AF746, 0xF9B3AF89, 0x381C8713,
           0xC610BAE5, 0x9F67DAE2, 0x402B2AE3, 0x89F15817, 0x0B3B8264, 0x64480954, 0xDD2E2F94, 0x6F2E0420))

  const SHORT_70: Progress := Progress(
    Registers(0xC763EBC6, 0xF7571922, 0xAD08A90A, 0x2D7DF151, 0xD1E6AF2D),
    Window(0x402B2AE3, 0x89F15817, 0x0B3B8264, 0x64480954, 0xDD2E2F94, 0x6F2E0420, 0x528B6D09, 0xCB0ECF44,
           0x5B5F1BCE, 0x228D64D8, 0xDDC4356B, 0x4902C59F, 0x8000BC41, 0x2B22D974, 0x3B647121, 0xBB31E3E0))

  const SHORT_80: Registers := Registers(0x98EC3FEB, 0xF2B89792, 0x90C416D1, 0x763FD25A, 0x8EF371FB)

  lemma Short0()
    ensures TenMore(SHORT_0, 0) == SHORT_10
  {
  }

  lemma Short10()
    ensures TenMore(SHORT_10, 10) == SHORT_20
  {
  }

  lemma Short20()
    ensures TenMore(SHORT_20, 20) == SHORT_30
  {
  }

  lemma Short30()
    ensures TenMore(SHORT_30, 30) == SHORT_40
  {
  }

  lemma Short40()
    ensures TenMore(SHORT_40, 40) == SHORT_50
  {
  }

  lemma Short50()
    ensures TenMore(SHORT_50, 50) == SHORT_60
  {
  }

  lemma Short60()
    ensures TenMore(SHORT_60, 60) == SHORT_70
  {
  }

  lemma Short70()
    ensures TenMore(SHORT_70, 70).r == SHORT_80
  {
  }

  // ---------- the block, as bytes ----------

  const SHORT_KEY: seq<Byte> := [0x63, 0x64]

  const QUARTER_0: seq<Byte> :=
    [0x63, 0x64, 0x32, 0x35, 0x38, 0x45, 0x41, 0x46, 0x41, 0x35, 0x2D, 0x45, 0x39, 0x31, 0x34, 0x2D]
  const QUARTER_1: seq<Byte> :=
    [0x34, 0x37, 0x44, 0x41, 0x2D, 0x39, 0x35, 0x43, 0x41, 0x2D, 0x43, 0x35, 0x41, 0x42, 0x30, 0x44]
  const QUARTER_2: seq<Byte> :=
    [0x43, 0x38, 0x35, 0x42, 0x31, 0x31, 0x80, 0x00, 0x00, 0x00, 0x00, 0x00, 0x00, 0x00, 0x00, 0x00]
  const QUARTER_3: seq<Byte> :=
    [0x00, 0x00, 0x00, 0x00, 0x00, 0x00, 0x00, 0x00, 0x00, 0x00, 0x00, 0x00, 0x00, 0x00, 0x01, 0x30]

  lemma QuartersOfGuid()
    ensures GUID == Bytes("258EAFA5-E914-") + (QUARTER_1 + Bytes("C85B11"))
  {
    assert "258EAFA5-E914-47DA-95CA-C5AB0DC85B11" == "258EAFA5-E914-" + ("47DA-95CA-C5AB0D" + "C85B11");
    BytesJoined("258EAFA5-E914-", "47DA-95CA-C5AB0D" + "C85B11");
    BytesJoined("47DA-95CA-C5AB0D", "C85B11");
    SecondQuarter();
  }

  lemma SecondQuarter()
    ensures Bytes("47DA-95CA-C5AB0D") == QUARTER_1
  {
  }

  lemma OtherQuarters()
    ensures SHORT_KEY + Bytes("258EAFA5-E914-") == QUARTER_0
    ensures Bytes("C85B11") + [0x80, 0, 0, 0, 0, 0, 0, 0, 0, 0] == QUARTER_2
  {
  }

  lemma ShortPadded()
    ensures |SHORT_KEY + GUID| == 38
    ensures SHORT_KEY + GUID + Padding(38) == QUARTER_0 + QUARTER_1 + QUARTER_2 + QUARTER_3
  {
    hide SHORT_KEY, GUID, QUARTER_0, QUARTER_1, QUARTER_2, Bytes;
    GuidBytes();
    QuartersOfGuid();
    OtherQuarters();
    ShortLength();
    var m := SHORT_KEY + GUID;
    assert m == [] + m;
    PaddingInOne(m, [], m);
    LengthOfShort();
    Regrouped(SHORT_KEY, Bytes("258EAFA5-E914-"), QUARTER_1, Bytes("C85B11"), [0x80, 0, 0, 0, 0, 0, 0, 0, 0, 0],
      QUARTER_3);
  }

  lemma ShortLength()
    ensures |SHORT_KEY| == 2
  {
  }

  lemma LengthOfShort()
    ensures [0x80] + ZeroBytes(17) + LengthBytes(304) == [0x80, 0, 0, 0, 0, 0, 0, 0, 0, 0] + QUARTER_3
  {
    assert LengthBytes(304) == [0, 0, 0, 0, 0, 0, 0x01, 0x30];
  }

  lemma Quarter0Spelt()
    ensures Spelt(0x63643235, 0x63, 0x64, 0x32, 0x35) && Spelt(0x38454146, 0x38, 0x45, 0x41, 0x46)
    ensures Spelt(0x41352D45, 0x41, 0x35, 0x2D, 0x45) && Spelt(0x3931342D, 0x39, 0x31, 0x34, 0x2D)
  {
  }

  lemma Quarter1Spelt()
    ensures Spelt(0x34374441, 0x34, 0x37, 0x44, 0x41) && Spelt(0x2D393543, 0x2D, 0x39, 0x35, 0x43)
    ensures Spelt(0x412D4335, 0x41, 0x2D, 0x43, 0x35) && Spelt(0x41423044, 0x41, 0x42, 0x30, 0x44)
  {
  }

  lemma Quarter2Spelt()
    ensures Spelt(0x43383542, 0x43, 0x38, 0x35, 0x42) && Spelt(0x31318000, 0x31, 0x31, 0x80, 0x00)
    ensures Spelt(0x00000000, 0x00, 0x00, 0x00, 0x00) && Spelt(0x00000000, 0x00, 0x00, 0x00, 0x00)
  {
  }

  lemma Quarter3Spelt()
    ensures Spelt(0x00000000, 0x00, 0x00, 0x00, 0x00) && Spelt(0x00000000, 0x00, 0x00, 0x00, 0x00)
    ensures Spelt(0x00000000, 0x00, 0x00, 0x00, 0x00) && Spelt(0x00000130, 0x00, 0x00, 0x01, 0x30)
  {
  }

  lemma ShortSpells()
    ensures var b := QUARTER_0 + QUARTER_1 + QUARTER_2 + QUARTER_3; |b| == 64 && Spells(SHORT_0.w, b)
  {
    hide Spelt, Spells;
    Quarter0Spelt();
    Quarter1Spelt();
    Quarter2Spelt();
    Quarter3Spelt();
    SpeltByQuarters(SHORT_0.w, QUARTER_0, QUARTER_1, QUARTER_2, QUARTER_3);
  }

  lemma ShortSums()
    ensures Added(START, SHORT_80) == Registers(0x003162EC, 0xE286431B, 0x297EF3CF, 0x867226D0, 0x52C653EB)
  {
  }

  lemma ShortCompressed()
    ensures var b := QUARTER_0 + QUARTER_1 + QUARTER_2 + QUARTER_3;
            |b| == 64 && Compress(Numbers(START), b) == Numbers(Added(START, SHORT_80))
  {
    hide Spells, TenMore, Numbers, Added, Compress;
    ShortSpells();
    Short0();
    Short10();
    Short20();
    Short30();
    Short40();
    Short50();
    Short60();
    Short70();
    BlockIs(QUARTER_0 + QUARTER_1 + QUARTER_2 + QUARTER_3, START,
      [SHORT_0, SHORT_10, SHORT_20, SHORT_30, SHORT_40, SHORT_50, SHORT_60, SHORT_70], SHORT_80);
  }

  lemma FirstWordSpelt()
    ensures Spelt(0x003162EC, 0x00, 0x31, 0x62, 0xEC)
  {
  }

  lemma DigestOfShort()
    ensures Digest(SHORT_KEY + GUID).a == 0x003162EC
  {
    hide Compress, Added, Spelt, Number, SHORT_KEY, GUID, QUARTER_0, QUARTER_1, QUARTER_2, QUARTER_3;
    ShortPadded();
    StartIs();
    ShortCompressed();
    ShortSums();
    FirstWordSpelt();
    HashOneBlock(INITIAL, QUARTER_0 + QUARTER_1 + QUARTER_2 + QUARTER_3);
    NumberSpelt(0x003162EC, 0x00, 0x31, 0x62, 0xEC);
  }

  lemma NothingLeft()
    ensures Hashable(SHORT_KEY + GUID) && Encode(UpToZero(AcceptDigest(SHORT_KEY))) == ""
    ensures Encode(AcceptDigest(SHORT_KEY)) != ""
  {
    hide SHORT_KEY, GUID, Digest, WordBytes;
    GuidBytes();
    DigestOfShort();
    ShortLength();
    WordBytesOf(0x00, 0x31, 0x62, 0xEC);
    EncodedLength(AcceptDigest(SHORT_KEY));
  }

  /** The empty answer, where section 4.2.2 of RFC 6455 asks for another one. */
  method AnswerToShort(before: seq<Byte>, after: seq<Byte>) returns (serverKey: array<char>)
    requires Presents(before + FLAG + SHORT_KEY + [0x0D, 0x0A] + after, before, SHORT_KEY, after)
    ensures serverKey.Length == 1 && serverKey[..0] == ""
  {
    hide Presents, SHORT_KEY, GUID, AcceptDigest, Encode, UpToZero;
    ShortLength();
    GuidBytes();
    NothingLeft();
    serverKey := Answer(before, SHORT_KEY, after);
  }
}
