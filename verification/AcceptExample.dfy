/** The example of section 1.3 of RFC 6455, computed through: the key, its digest and the answer. */
module AcceptExample {
  import opened Base64Spec
  import opened Bits
  import opened BitVectors
  import opened Sha1OnBits
  import opened Sha1Spec
  import opened WebSocketHandshake

  // ---------- the turns of the two blocks, ten at a time ----------

  const FIRST_0: Progress := Progress(
    Registers(0x67452301, 0xEFCDAB89, 0x98BADCFE, 0x10325476, 0xC3D2E1F0),
    Window(0x6447686C, 0x49484E68, 0x62584273, 0x5A534275, 0x6232356A, 0x5A513D3D, 0x32353845, 0x41464135,
           0x2D453931, 0x342D3437, 0x44412D39, 0x3543412D, 0x43354142, 0x30444338, 0x35423131, 0x80000000))

  const FIRST_10: Progress := Progress(
    Registers(0xFAAD2675, 0x32BEB05A, 0x4B833980, 0x1CD54FA1, 0x5CC82E5A),
    Window(0x44412D39, 0x3543412D, 0x43354142, 0x30444338, 0x35423131, 0x80000000, 0x363CA02C, 0x24E81236,
           0x8856B441, 0x06FB3C92, 0x6FB4BCB6, 0x460B16E3, 0x599219AE, 0x35BF9369, 0x3267458E, 0xF828FD04))

  const FIRST_20: Progress := Progress(
    Registers(0x091AB97C, 0x8DC510B6, 0xDFAECA5A, 0x75F6BD5D, 0x2801311A),
    Window(0x6FB4BCB6, 0x460B16E3, 0x599219AE, 0x35BF9369, 0x3267458E, 0xF828FD04, 0x753A96A7, 0x6336F612,
           0xC3D66383, 0x06EB86F9, 0x73B4FD42, 0xA503C5B8, 0x15CDAE35, 0x531E5DC5, 0x6FB6B7D0, 0x6C16E4AC))

  const FIRST_30: Progress := Progress(
    Registers(0x081B63E5, 0x1ABB1C37, 0x95C7DF60, 0x3BC04BC8, 0x1D22CE68),
    Window(0x73B4FD42, 0xA503C5B8, 0x15CDAE35, 0x531E5DC5, 0x6FB6B7D0, 0x6C16E4AC, 0x4DDD36BD, 0x35D36946,
           0xE8AE8B9C, 0x4A933AD0, 0xCE8628B4, 0x415DBA9E, 0x2792F049, 0x8E9B79E7, 0x79C425C5, 0x6353B49D))

  const FIRST_40: Progress := Progress(
    Registers(0x2BA2C83E, 0xD0869081, 0x1A1D8209, 0xD3334889, 0x2779E4F2),
    Window(0xCE8628B4, 0x415DBA9E, 0x2792F049, 0x8E9B79E7, 0x79C425C5, 0x6353B49D, 0x00994218, 0x8A950ED1,
           0xAF5D0B99, 0xFD9883DE, 0x1ED8FFEB, 0xF007FF28, 0x425E3674, 0x059631C0, 0xAD6C3C31, 0x860B71D7))

  const FIRST_50: Progress := Progress(
    Registers(0x065F8486, 0x7510D04F, 0xAAF85D22, 0x37B92DEA, 0x5CBFCCD3),
    Window(0x1ED8FFEB, 0xF007FF28, 0x425E3674, 0x059631C0, 0xAD6C3C31, 0x860B71D7, 0x87BFC548, 0x3E64F92D,
           0x8D0AB761, 0x34E1EE35, 0x0ACF5108, 0xC2B479DA, 0x6C93370A, 0xF7935BA1, 0xE91C91C1, 0xBED165A2))

  const FIRST_60: Progress := Progress(
    Registers(0x4872D85A, 0xD284F163, 0x83091F0B, 0x1BBDBFBD, 0x9F8490BC),
    Window(0x0ACF5108, 0xC2B479DA, 0x6C93370A, 0xF7935BA1, 0xE91C91C1, 0xBED165A2, 0x4C3E4ABE, 0x50D96238,
           0xB6587DDE, 0x1A2EE6E6, 0x2D335896, 0xF3495D0B, 0xF30E0A1D, 0x32CE5459, 0x7165E3B8, 0xAB05FF94))

  const FIRST_70: Progress := Progress(
    Registers(0x07381B7E, 0x966E049A, 0x33E1963B, 0x14C4C690, 0xF0F0B916),
    Window(0x2D335896, 0xF3495D0B, 0xF30E0A1D, 0x32CE5459, 0x7165E3B8, 0xAB05FF94, 0xC5949F0B, 0xBCD84E4A,
           0x07720392, 0xFF3FF806, 0xD5E93E51, 0xB768A0A3, 0xE87859BC, 0x68368A36, 0xD32E35C1, 0x7B8F5837))

  const FIRST_80: Registers := Registers(0xF48A5426, 0x835995E1, 0x25C11EFB, 0x4A45C402, 0x9A73C2F2)

  const SECOND_0: Progress := Progress(
    Registers(0x5BCF7727, 0x7327416A, 0xBE7BFBF9, 0x5A781878, 0x5E46A4E2),
    Window(0x00000000, 0x00000000, 0x00000000, 0x00000000, 0x00000000, 0x00000000, 0x00000000, 0x00000000,
           0x00000000, 0x00000000, 0x00000000, 0x00000000, 0x00000000, 0x00000000, 0x00000000, 0x000001E0))

  const SECOND_10: Progress := Progress(
    Registers(0x0B0814C3, 0x80946593, 0x8970062F, 0xACEEF2BF, 0xE4E97BEE),
    Window(0x00000000, 0x00000000, 0x00000000, 0x00000000, 0x00000000, 0x000001E0, 0x00000000, 0x00000000,
           0x000003C0, 0x00000000, 0x00000000, 0x00000780, 0x00000000, 0x000003C0, 0x00000F00, 0x00000000))

  const SECOND_20: Progress := Progress(
    Registers(0x2A008B51, 0x2F193A09, 0x9C8663C1, 0x8EB5D103, 0x261B7C9A),
    Window(0x00000000, 0x00000780, 0x00000000, 0x000003C0, 0x00000F00, 0x00000000, 0x00000000, 0x00001E00,
           0x00000000, 0x00000CC0, 0x00003C00, 0x00000440, 0x00000000, 0x00007800, 0x00000F00, 0x00003300))

  const SECOND_30: Progress := Progress(
    Registers(0x243EE057, 0xF57CB53E, 0xE4C9F7DB, 0xB4B9C9B6, 0x591B19DF),
    Window(0x00003C00, 0x00000440, 0x00000000, 0x00007800, 0x00000F00, 0x00003300, 0x0000F000, 0x00000F00,
           0x00000000, 0x0001EF00, 0x00000000, 0x0000CC00, 0x0003C000, 0x00004380, 0x00000000, 0x00078F00))

  const SECOND_40: Progress := Progress(
    Registers(0x6F698F1A, 0xC6FF0CD3, 0xDE5AB7BC, 0x5F6F3CBB, 0x1DA48A85),
    Window(0x00000000, 0x0000CC00, 0x0003C000, 0x00004380, 0x00000000, 0x00078F00, 0x0000FF00, 0x00032680,
           0x000F0000, 0x0000F000, 0x00003300, 0x001EFF00, 0x00000000, 0x000CB800, 0x003C0000, 0x00040B00))

  const SECOND_50: Progress := Progress(
    Registers(0xA516F265, 0xA39F2041, 0xA8FBE15F, 0xB23368F6, 0xCEF6480E),
    Window(0x00003300, 0x001EFF00, 0x00000000, 0x000CB800, 0x003C0000, 0x00040B00, 0x0000F000, 0x0078FF00,
           0x000FF000, 0x00338700, 0x00F00000, 0x000FC300, 0x0000F000, 0x01EFBB00, 0x00000000, 0x00CC0000))

  const SECOND_60: Progress := Progress(
    Registers(0x56119F19, 0x085EB2FE, 0x484A25C5, 0xC140CFE8, 0x686DA050),
    Window(0x00F00000, 0x000FC300, 0x0000F000, 0x01EFBB00, 0x00000000, 0x00CC0000, 0x03C0F000, 0x00438000,
           0x00000000, 0x078F0000, 0x00FF0000, 0x03269E00, 0x0F000000, 0x00F0F000, 0x00333C00, 0x1EFF8800))

  const SECOND_70: Progress := Progress(
    Registers(0xBF3A7F95, 0x4E363DB9, 0x025E9447, 0x325FC65A, 0xC5E88BBD),
    Window(0x00FF0000, 0x03269E00, 0x0F000000, 0x00F0F000, 0x00333C00, 0x1EFF8800, 0x00000000, 0x0CB88800,
           0x3C00F000, 0x040A4A00, 0x00F0F000, 0x78FF0000, 0x0FF30C00, 0x3387F000, 0xF0000000, 0x0FC43400))

  const SECOND_80: Registers := Registers(0x57AAD805, 0x4D3B0DAC, 0xD27A4A0D, 0x74C040CD, 0x54782008)

  lemma First0()
    ensures TenMore(FIRST_0, 0) == FIRST_10
  {
  }

  lemma First10()
    ensures TenMore(FIRST_10, 10) == FIRST_20
  {
  }

  lemma First20()
    ensures TenMore(FIRST_20, 20) == FIRST_30
  {
  }

  lemma First30()
    ensures TenMore(FIRST_30, 30) == FIRST_40
  {
  }

  lemma First40()
    ensures TenMore(FIRST_40, 40) == FIRST_50
  {
  }

  lemma First50()
    ensures TenMore(FIRST_50, 50) == FIRST_60
  {
  }

  lemma First60()
    ensures TenMore(FIRST_60, 60) == FIRST_70
  {
  }

  lemma First70()
    ensures TenMore(FIRST_70, 70).r == FIRST_80
  {
  }

  lemma Second0()
    ensures TenMore(SECOND_0, 0) == SECOND_10
  {
    var p1 := Turn(SECOND_0, 0);
    assert p1.r.a == 0x6D335CDE;
    var p2 := Turn(p1, 1);
    assert p2.r.a == 0x186006B8;
    var p3 := Turn(p2, 2);
    assert p3.r.a == 0xF9FB295D;
    var p4 := Turn(p3, 3);
    assert p4.r.a == 0x15855523;
    var p5 := Turn(p4, 4);
    assert p5.r.a == 0xE43DD2F2;
    var p6 := Turn(p5, 5);
    assert p6.r.a == 0x93A5EFBB;
    var p7 := Turn(p6, 6);
    assert p7.r.a == 0xB3BBCAFE;
    var p8 := Turn(p7, 7);
    assert p8.r.a == 0x25C018BE;
    var p9 := Turn(p8, 8);
    assert p9.r.a == 0x80946593;
  }

  lemma Second10()
    ensures TenMore(SECOND_10, 10) == SECOND_20
  {
    var p1 := Turn(SECOND_10, 10);
    assert p1.r.a == 0x4CE92417;
    var p2 := Turn(p1, 11);
    assert p2.r.a == 0x250601AD;
    var p3 := Turn(p2, 12);
    assert p3.r.a == 0x6576D2DC;
    var p4 := Turn(p3, 13);
    assert p4.r.a == 0xAD43F39E;
    var p5 := Turn(p4, 14);
    assert p5.r.a == 0x990B7BE7;
    var p6 := Turn(p5, 15);
    assert p6.r.a == 0x986DF268;
    var p7 := Turn(p6, 16);
    assert p7.r.a == 0x3AD7440E;
    var p8 := Turn(p7, 17);
    assert p8.r.a == 0x72198F06;
    var p9 := Turn(p8, 18);
    assert p9.r.a == 0x2F193A09;
  }

  lemma Second20()
    ensures TenMore(SECOND_20, 20) == SECOND_30
  {
  }

  lemma Second30()
    ensures TenMore(SECOND_30, 30) == SECOND_40
  {
  }

  lemma Second40()
    ensures TenMore(SECOND_40, 40) == SECOND_50
  {
  }

  lemma Second50()
    ensures TenMore(SECOND_50, 50) == SECOND_60
  {
  }

  lemma Second60()
    ensures TenMore(SECOND_60, 60) == SECOND_70
  {
  }

  lemma Second70()
    ensures TenMore(SECOND_70, 70).r == SECOND_80
  {
  }

  // ---------- the two blocks, as bytes ----------

  const KEY: seq<Byte> := Bytes("dGhlIHNhbXBsZSBub25jZQ==")

  const PART_0: seq<Byte> :=
    [0x64, 0x47, 0x68, 0x6C, 0x49, 0x48, 0x4E, 0x68, 0x62, 0x58, 0x42, 0x73, 0x5A, 0x53, 0x42, 0x75]
  const PART_1: seq<Byte> :=
    [0x62, 0x32, 0x35, 0x6A, 0x5A, 0x51, 0x3D, 0x3D, 0x32, 0x35, 0x38, 0x45, 0x41, 0x46, 0x41, 0x35]
  const PART_2: seq<Byte> :=
    [0x2D, 0x45, 0x39, 0x31, 0x34, 0x2D, 0x34, 0x37, 0x44, 0x41, 0x2D, 0x39, 0x35, 0x43, 0x41, 0x2D]
  const PART_3: seq<Byte> :=
    [0x43, 0x35, 0x41, 0x42, 0x30, 0x44, 0x43, 0x38, 0x35, 0x42, 0x31, 0x31, 0x80, 0x00, 0x00, 0x00]

  function FirstBlock(): Block {
    PART_0 + PART_1 + PART_2 + PART_3
  }

  lemma BytesJoined(a: string, b: string)
    ensures Bytes(a + b) == Bytes(a) + Bytes(b)
  {
  }

  lemma KeyParts()
    ensures KEY == PART_0 + Bytes("b25jZQ==") && |KEY| == 24
  {
    assert "dGhlIHNhbXBsZSBub25jZQ==" == "dGhlIHNhbXBsZSBu" + "b25jZQ==";
    BytesJoined("dGhlIHNhbXBsZSBu", "b25jZQ==");
    FirstPart();
  }

  lemma FirstPart()
    ensures Bytes("dGhlIHNhbXBsZSBu") == PART_0
  {
  }

  lemma GuidParts()
    ensures GUID == Bytes("258EAFA5") + (PART_2 + Bytes("C5AB0DC85B11"))
  {
    assert "258EAFA5-E914-47DA-95CA-C5AB0DC85B11" == "258EAFA5" + ("-E914-47DA-95CA-" + "C5AB0DC85B11");
    BytesJoined("258EAFA5", "-E914-47DA-95CA-" + "C5AB0DC85B11");
    BytesJoined("-E914-47DA-95CA-", "C5AB0DC85B11");
    MiddlePart();
  }

  lemma MiddlePart()
    ensures Bytes("-E914-47DA-95CA-") == PART_2
  {
  }

  lemma OtherParts()
    ensures Bytes("b25jZQ==") + Bytes("258EAFA5") == PART_1
    ensures Bytes("C5AB0DC85B11") + [0x80, 0, 0, 0] == PART_3
  {
  }

  lemma PartsAreMessage()
    ensures KEY + GUID + [0x80, 0, 0, 0] == FirstBlock()
    ensures |KEY + GUID| == 60
  {
    hide KEY, GUID, PART_0, PART_1, PART_2, PART_3, Bytes;
    KeyParts();
    GuidParts();
    OtherParts();
    GuidBytes();
    Regrouped(PART_0, Bytes("b25jZQ=="), Bytes("258EAFA5"), PART_2, Bytes("C5AB0DC85B11"), [0x80, 0, 0, 0]);
  }

  lemma Regrouped(a: seq<Byte>, b: seq<Byte>, c: seq<Byte>, d: seq<Byte>, e: seq<Byte>, f: seq<Byte>)
    ensures a + b + (c + (d + e)) + f == a + (b + c) + d + (e + f)
  {
  }

  lemma Part0Spelt()
    ensures Spelt(0x6447686C, 0x64, 0x47, 0x68, 0x6C) && Spelt(0x49484E68, 0x49, 0x48, 0x4E, 0x68)
  {
  }

  lemma Part0EndSpelt()
    ensures Spelt(0x62584273, 0x62, 0x58, 0x42, 0x73) && Spelt(0x5A534275, 0x5A, 0x53, 0x42, 0x75)
  {
  }

  lemma Part1Spelt()
    ensures Spelt(0x6232356A, 0x62, 0x32, 0x35, 0x6A) && Spelt(0x5A513D3D, 0x5A, 0x51, 0x3D, 0x3D)
    ensures Spelt(0x32353845, 0x32, 0x35, 0x38, 0x45) && Spelt(0x41464135, 0x41, 0x46, 0x41, 0x35)
  {
  }

  lemma Part2Spelt()
    ensures Spelt(0x2D453931, 0x2D, 0x45, 0x39, 0x31) && Spelt(0x342D3437, 0x34, 0x2D, 0x34, 0x37)
    ensures Spelt(0x44412D39, 0x44, 0x41, 0x2D, 0x39) && Spelt(0x3543412D, 0x35, 0x43, 0x41, 0x2D)
  {
  }

  lemma Part3Spelt()
    ensures Spelt(0x43354142, 0x43, 0x35, 0x41, 0x42) && Spelt(0x30444338, 0x30, 0x44, 0x43, 0x38)
    ensures Spelt(0x35423131, 0x35, 0x42, 0x31, 0x31) && Spelt(0x80000000, 0x80, 0x00, 0x00, 0x00)
  {
  }

  lemma FirstSpells()
    ensures Spells(FIRST_0.w, FirstBlock())
  {
    hide Spelt, Spells;
    Part0Spelt();
    Part0EndSpelt();
    Part1Spelt();
    Part2Spelt();
    Part3Spelt();
    SpeltByQuarters(FIRST_0.w, PART_0, PART_1, PART_2, PART_3);
  }

  function LastBlock(): Block {
    ZeroBytes(62) + [0x01, 0xE0]
  }

  lemma LastSpelt()
    ensures Spelt(0, 0, 0, 0, 0) && Spelt(0x1E0, 0, 0, 0x01, 0xE0)
  {
  }

  lemma SecondSpells()
    ensures Spells(SECOND_0.w, LastBlock())
  {
    hide Spelt;
    LastSpelt();
  }

  lemma Padded()
    ensures KEY + GUID + Padding(60) == FirstBlock() + LastBlock()
  {
    hide KEY, GUID, PART_0, PART_1, PART_2, PART_3;
    PartsAreMessage();
    var m := KEY + GUID;
    assert m == [] + m;
    PaddingInTwo(m, [], m);
    assert LengthBytes(480) == ZeroBytes(6) + [0x01, 0xE0];
    assert ZeroBytes(56) + ZeroBytes(6) == ZeroBytes(62);
    assert [0x80] + ZeroBytes(3) == [0x80, 0, 0, 0];
  }

  const MIDDLE: Registers := Registers(0x5BCF7727, 0x7327416A, 0xBE7BFBF9, 0x5A781878, 0x5E46A4E2)

  lemma FirstSums()
    ensures Added(START, FIRST_80) == MIDDLE
  {
  }

  lemma SecondSums()
    ensures Added(MIDDLE, SECOND_80) == Registers(0xB37A4F2C, 0xC0624F16, 0x90F64606, 0xCF385945, 0xB2BEC4EA)
  {
  }

  lemma FirstCompressed()
    ensures Compress(Numbers(START), FirstBlock()) == Numbers(Added(START, FIRST_80))
  {
    hide Spells, TenMore, Numbers, Added, Compress;
    FirstSpells();
    First0();
    First10();
    First20();
    First30();
    First40();
    First50();
    First60();
    First70();
    BlockIs(FirstBlock(), START,
      [FIRST_0, FIRST_10, FIRST_20, FIRST_30, FIRST_40, FIRST_50, FIRST_60, FIRST_70], FIRST_80);
  }

  lemma SecondCompressed()
    ensures Compress(Numbers(MIDDLE), LastBlock()) == Numbers(Added(MIDDLE, SECOND_80))
  {
    hide Spells, TenMore, Numbers, Added, Compress;
    SecondSpells();
    Second0();
    Second10();
    Second20();
    Second30();
    Second40();
    Second50();
    Second60();
    Second70();
    BlockIs(LastBlock(), MIDDLE,
      [SECOND_0, SECOND_10, SECOND_20, SECOND_30, SECOND_40, SECOND_50, SECOND_60, SECOND_70], SECOND_80);
  }

  lemma SumsSpelt()
    ensures Spelt(0xB37A4F2C, 0xB3, 0x7A, 0x4F, 0x2C) && Spelt(0xC0624F16, 0xC0, 0x62, 0x4F, 0x16)
    ensures Spelt(0x90F64606, 0x90, 0xF6, 0x46, 0x06)
  {
  }

  lemma LastSumsSpelt()
    ensures Spelt(0xCF385945, 0xCF, 0x38, 0x59, 0x45) && Spelt(0xB2BEC4EA, 0xB2, 0xBE, 0xC4, 0xEA)
  {
  }

  lemma DigestOfKey()
    ensures Digest(KEY + GUID) == Words(0xB37A4F2C, 0xC0624F16, 0x90F64606, 0xCF385945, 0xB2BEC4EA)
  {
    hide Compress, Added, Spelt, Number, KEY, GUID, PART_0, PART_1, PART_2, PART_3, LastBlock;
    Padded();
    StartIs();
    FirstCompressed();
    FirstSums();
    SecondCompressed();
    SecondSums();
    SumsSpelt();
    LastSumsSpelt();
    PartsAreMessage();
    var first := FirstBlock();
    HashBlocksConcat(INITIAL, first, LastBlock());
    HashOneBlock(INITIAL, first);
    HashOneBlock(Numbers(MIDDLE), LastBlock());
    NumberSpelt(0xB37A4F2C, 0xB3, 0x7A, 0x4F, 0x2C);
    NumberSpelt(0xC0624F16, 0xC0, 0x62, 0x4F, 0x16);
    NumberSpelt(0x90F64606, 0x90, 0xF6, 0x46, 0x06);
    NumberSpelt(0xCF385945, 0xCF, 0x38, 0x59, 0x45);
    NumberSpelt(0xB2BEC4EA, 0xB2, 0xBE, 0xC4, 0xEA);
  }

  // ---------- the answer ----------

  lemma WordBytesOf(o3: Byte, o2: Byte, o1: Byte, o0: Byte)
    ensures WordBytes(BigEndian(o3, o2, o1, o0)) == [o3, o2, o1, o0]
  {
    var w := BigEndian(o3, o2, o1, o0);
    QuotientIs(w, 0x100_0000, o3, o2 * 0x1_0000 + o1 * 0x100 + o0);
    QuotientIs(w, 0x1_0000, o3 * 0x100 + o2, o1 * 0x100 + o0);
    QuotientIs(w, 0x100, (o3 * 0x100 + o2) * 0x100 + o1, o0);
    QuotientIs(o3 * 0x100 + o2, 0x100, o3, o2);
    QuotientIs((o3 * 0x100 + o2) * 0x100 + o1, 0x100, o3 * 0x100 + o2, o1);
  }

  const DIGEST: seq<Byte> := [0xB3, 0x7A, 0x4F, 0x2C, 0xC0, 0x62, 0x4F, 0x16, 0x90, 0xF6, 0x46, 0x06]
    + [0xCF, 0x38, 0x59, 0x45, 0xB2, 0xBE, 0xC4, 0xEA]

  lemma DigestBytesOfKey()
    ensures AcceptDigest(KEY) == DIGEST
  {
    hide KEY, GUID, Digest, WordBytes;
    DigestOfKey();
    WordBytesOf(0xB3, 0x7A, 0x4F, 0x2C);
    WordBytesOf(0xC0, 0x62, 0x4F, 0x16);
    WordBytesOf(0x90, 0xF6, 0x46, 0x06);
    WordBytesOf(0xCF, 0x38, 0x59, 0x45);
    WordBytesOf(0xB2, 0xBE, 0xC4, 0xEA);
  }

  lemma FirstGroups()
    ensures Quad(0xB3, 0x7A, 0x4F) == "s3pP" && Quad(0x2C, 0xC0, 0x62) == "LMBi"
    ensures Quad(0x4F, 0x16, 0x90) == "TxaQ" && Quad(0xF6, 0x46, 0x06) == "9kYG"
  {
    hide Group;
    GroupOf(44, 55, 41, 15);
    GroupOf(11, 12, 1, 34);
    GroupOf(19, 49, 26, 16);
    GroupOf(61, 36, 24, 6);
  }

  lemma LastGroups()
    ensures Quad(0xCF, 0x38, 0x59) == "zzhZ" && Quad(0x45, 0xB2, 0xBE) == "RbK+"
    ensures Quad(0xC4, 0xEA, 0x00) == "xOoA"
  {
    hide Group;
    GroupOf(51, 51, 33, 25);
    GroupOf(17, 27, 10, 62);
    GroupOf(49, 14, 40, 0);
  }

  lemma EncodedInThrees(b: seq<Byte>, rest: seq<Byte>)
    requires |b| == 3
    ensures Encode(b + rest) == Quad(b[0], b[1], b[2]) + Encode(rest)
  {
    hide Quad;
    assert (b + rest)[3..] == rest;
  }

  lemma EncodedTwo(b0: Byte, b1: Byte)
    ensures Encode([b0, b1]) == Quad(b0, b1, 0)[..3] + "="
  {
  }

  lemma EncodedDigest()
    ensures Encode(DIGEST) == "s3pPLMBiTxaQ9kYGzzhZRbK+xOo="
  {
    hide Quad, Encode;
    FirstGroups();
    LastGroups();
    var r6 := [0xC4, 0xEA];
    var r5 := [0x45, 0xB2, 0xBE] + r6;
    var r4 := [0xCF, 0x38, 0x59] + r5;
    var r3 := [0xF6, 0x46, 0x06] + r4;
    var r2 := [0x4F, 0x16, 0x90] + r3;
    var r1 := [0x2C, 0xC0, 0x62] + r2;
    var r0 := [0xB3, 0x7A, 0x4F] + r1;
    assert DIGEST == r0;
    EncodedInThrees([0xB3, 0x7A, 0x4F], r1);
    EncodedInThrees([0x2C, 0xC0, 0x62], r2);
    EncodedInThrees([0x4F, 0x16, 0x90], r3);
    EncodedInThrees([0xF6, 0x46, 0x06], r4);
    EncodedInThrees([0xCF, 0x38, 0x59], r5);
    EncodedInThrees([0x45, 0xB2, 0xBE], r6);
    EncodedTwo(0xC4, 0xEA);
    Spliced();
  }

  lemma Spliced()
    ensures "s3pP" + ("LMBi" + ("TxaQ" + ("9kYG" + ("zzhZ" + ("RbK+" + ("xOoA"[..3] + "="))))))
         == "s3pPLMBiTxaQ9kYGzzhZRbK+xOo="
  {
  }

  lemma {:induction false} NoZero(b: seq<Byte>)
    requires forall i :: 0 <= i < |b| ==> b[i] != 0
    ensures UpToZero(b) == b
  {
    UpToZeroAppended(b);
  }

  lemma AnswerIs()
    ensures Encode(UpToZero(AcceptDigest(KEY))) == "s3pPLMBiTxaQ9kYGzzhZRbK+xOo="
  {
    hide KEY, AcceptDigest, Encode, UpToZero;
    DigestBytesOfKey();
    NoZero(DIGEST);
    EncodedDigest();
  }

  lemma KeyIsShort()
    ensures |KEY| == 24
  {
    hide KEY;
    KeyParts();
  }

  /** The server's answer to the key of the example, whatever else the request says. */
  method AnswerToExample(before: seq<Byte>, after: seq<Byte>) returns (serverKey: array<char>)
    requires Presents(before + FLAG + KEY + [0x0D, 0x0A] + after, before, KEY, after)
    ensures serverKey.Length == 29 && serverKey[..28] == "s3pPLMBiTxaQ9kYGzzhZRbK+xOo="
  {
    hide Presents, KEY, GUID, AcceptDigest, Encode, UpToZero;
    KeyIsShort();
    GuidBytes();
    AnswerIs();
    serverKey := Answer(before, KEY, after);
  }
}
