/** Data frames as sections 5.2 and 5.3 of RFC 6455 define them. */
module FrameSpec {
  import opened Bits
  import opened ByteOrder
  import opened Options

  /** The key is empty for an unmasked frame. */
  datatype Frame = Frame(fin: bool, rsv: nat, opcode: nat, key: seq<Byte>, payload: seq<Byte>)

  function XorByte(x: Byte, y: Byte): Byte {
    Pow2Constants(); Bounded(x, y, 8); Xor(x, y)
  }

  /** Masking and unmasking: octet i is XORed with key octet i modulo 4. */
  function Mask(body: seq<Byte>, key: seq<Byte>): (r: seq<Byte>)
    requires key == [] || |key| == 4
    ensures |r| == |body|
  {
    if key == [] then body else seq(|body|, i requires 0 <= i < |body| => XorByte(body[i], key[i % 4]))
  }

  /** The number of bytes of extended payload length that follow the first two bytes. */
  function Extension(length7: nat): nat {
    if length7 < 126 then 0 else if length7 == 126 then 2 else 8
  }

  /** Reads the frame at the start of `bytes`, if it is there as a whole. */
  function Parse(bytes: seq<Byte>): Option<Frame> {
    if |bytes| < 2 then None
    else
      var ext := Extension(bytes[1] % 128);
      if |bytes| < 2 + ext then None
      else
        var n := if ext == 0 then bytes[1] % 128 else HighNumber(bytes[2..2 + ext]);
        var start := 2 + ext + (if bytes[1] >= 128 then 4 else 0);
        if |bytes| < start + n then None
        else
          var key := bytes[2 + ext..start];
          Some(Frame(bytes[0] >= 128, bytes[0] / 16 % 8, bytes[0] % 16, key, Mask(bytes[start..start + n], key)))
  }

  /** A payload length can be written in any form that is long enough for it. */
  predicate CanHold(ext: nat, n: nat) {
    (ext == 0 && n < 126) || (ext == 2 && n < 0x1_0000) || (ext == 8 && n < 0x1_0000_0000_0000_0000)
  }

  function Build(f: Frame, ext: nat): seq<Byte>
    requires CanHold(ext, |f.payload|) && f.rsv < 8 && f.opcode < 16 && (f.key == [] || |f.key| == 4)
  {
    var length7 := if ext == 0 then |f.payload| else if ext == 2 then 126 else 127;
    [(if f.fin then 128 else 0) + f.rsv * 16 + f.opcode, (if f.key == [] then 0 else 128) + length7]
    + HighDigits(|f.payload|, ext) + f.key + Mask(f.payload, f.key)
  }

  lemma Pow256Constants()
    ensures Pow256(2) == 0x1_0000 && Pow256(8) == 0x1_0000_0000_0000_0000
  {
    assert Pow256(4) == 0x1_0000_0000 && Pow256(6) == 0x1_0000_0000_0000;
  }

  lemma MaskTwice(body: seq<Byte>, key: seq<Byte>)
    requires key == [] || |key| == 4
    ensures Mask(Mask(body, key), key) == body
  {
    if key != [] {
      forall i | 0 <= i < |body|
        ensures XorByte(XorByte(body[i], key[i % 4]), key[i % 4]) == body[i]
      {
        XorTwice(body[i], key[i % 4]);
      }
    }
  }

  /** Zeros are masked to the key itself. */
  lemma MaskOfZeros(key: seq<Byte>)
    requires |key| == 4
    ensures Mask([0, 0, 0, 0], key) == key
  {
  }

  lemma MaskAt(body: seq<Byte>, key: seq<Byte>, i: nat)
    requires |key| == 4 && i < |body|
    ensures Mask(body, key)[i] == XorByte(body[i], key[i % 4])
  {
  }

  /** The key starts anew after every four octets. */
  lemma MaskInParts(a: seq<Byte>, b: seq<Byte>, key: seq<Byte>)
    requires |key| == 4 && |a| % 4 == 0
    ensures Mask(a + b, key) == Mask(a, key) + Mask(b, key)
  {
    hide XorByte, Mask;
    forall i | 0 <= i < |a + b|
      ensures Mask(a + b, key)[i] == (Mask(a, key) + Mask(b, key))[i]
    {
      MaskAt(a + b, key, i);
      if i < |a| {
        MaskAt(a, key, i);
      } else {
        MaskAt(b, key, i - |a|);
        SameRemainder(|a| / 4, i - |a|);
      }
    }
  }

  lemma SameRemainder(q: nat, i: nat)
    ensures (4 * q + i) % 4 == i % 4
  {
  }

  /** Where the parts of a frame lie. */
  lemma BuildLaidOut(f: Frame, ext: nat, rest: seq<Byte>)
    requires CanHold(ext, |f.payload|) && f.rsv < 8 && f.opcode < 16 && (f.key == [] || |f.key| == 4)
    ensures var bytes, n, start := Build(f, ext) + rest, |f.payload|, 2 + ext + |f.key|;
            && |bytes| >= start + n
            && bytes[0] == (if f.fin then 128 else 0) + f.rsv * 16 + f.opcode
            && bytes[1] == (if f.key == [] then 0 else 128) + (if ext == 0 then n else if ext == 2 then 126 else 127)
            && bytes[2..2 + ext] == HighDigits(n, ext) && bytes[2 + ext..start] == f.key
            && bytes[start..start + n] == Mask(f.payload, f.key)
  {
    hide Mask, HighDigits;
    var bytes, n, start := Build(f, ext) + rest, |f.payload|, 2 + ext + |f.key|;
    assert bytes[2..2 + ext] == HighDigits(n, ext);
    assert bytes[2 + ext..start] == f.key;
    assert bytes[start..start + n] == Mask(f.payload, f.key);
  }

  lemma FirstByte(fin: bool, rsv: nat, opcode: nat, b: int)
    requires rsv < 8 && opcode < 16 && b == (if fin then 128 else 0) + rsv * 16 + opcode
    ensures (b >= 128 <==> fin) && b / 16 % 8 == rsv && b % 16 == opcode
  {
  }

  /** Every frame, in every length form that can hold it, is read back from the bytes built for it,
      whatever follows them. */
  lemma ParseBuild(f: Frame, ext: nat, rest: seq<Byte>)
    requires CanHold(ext, |f.payload|) && f.rsv < 8 && f.opcode < 16 && (f.key == [] || |f.key| == 4)
    ensures Parse(Build(f, ext) + rest) == Some(f)
  {
    hide Build, Mask, HighDigits, HighNumber, Pow256;
    var bytes := Build(f, ext) + rest;
    BuildLaidOut(f, ext, rest);
    FirstByte(f.fin, f.rsv, f.opcode, bytes[0]);
    Pow256Constants();
    HighNumberOfDigits(|f.payload|, ext);
    MaskTwice(f.payload, f.key);
    assert Extension(bytes[1] % 128) == ext;
  }
}

/** The frame codec of module/sockect/websocket/main.c. */
module WebSocketFrames {
  import opened Bits
  import opened ByteOrder
  import opened FrameSpec
  import opened Options
  import opened Sequences

  /** analyData: accepts only a final, masked frame. The caller's buffer must hold the frame as a
      whole; `bufLen` is used for the two-byte check alone. */
  method AnalyData(buf: seq<Byte>, bufLen: int) returns (data: array?<Byte>)
    requires bufLen <= |buf|
    requires bufLen >= 2 && buf[0] >= 128 && buf[1] >= 128 ==> Parse(buf).Some?
    ensures data == null <==> bufLen < 2 || buf[0] < 128 || buf[1] < 128
    ensures data != null ==> Parse(buf).Some? && data[..] == Parse(buf).value.payload
  {
    hide XorByte, HighNumber;
    if bufLen < 2 {
      return null;
    }
    var fin := buf[0] >= 128;
    if !fin {
      return null;
    }
    var maskFlag := buf[1] >= 128;
    if !maskFlag {
      return null;
    }
    hide Mask;
    var payloadLen: nat := buf[1] % 128;
    var start: nat;
    if payloadLen == 126 {
      payloadLen := NumberOfTwo(buf);
      start := 4;
    } else if payloadLen == 127 {
      payloadLen := NumberOfEight(buf);
      start := 10;
    } else {
      start := 2;
    }
    data := Unmask(buf[start + 4..start + 4 + payloadLen], buf[start..start + 4]);
  }

  /** The copy of the payload, XORed in place with the key. */
  method Unmask(body: seq<Byte>, masks: seq<Byte>) returns (payloadData: array<Byte>)
    requires |masks| == 4
    ensures payloadData[..] == Mask(body, masks)
  {
    hide XorByte;
    payloadData := new Byte[|body|];
    forall i | 0 <= i < |body| { payloadData[i] := body[i]; }
    var i := 0;
    while i < |body|
      invariant 0 <= i <= |body|
      invariant forall k :: 0 <= k < i ==> payloadData[k] == XorByte(body[k], masks[k % 4])
      invariant forall k :: i <= k < |body| ==> payloadData[k] == body[k]
    {
      payloadData[i] := XorByte(payloadData[i], masks[i % 4]);
      i := i + 1;
    }
  }

  /** Two bytes joined by shift and OR. */
  function NumberOfTwo(buf: seq<Byte>): (n: nat)
    requires |buf| >= 4
    ensures n == HighNumber(buf[2..4])
  {
    var high: int, low: int := buf[2], buf[3];
    ReversedFour(buf[2..4]);
    assert Reversed(buf[2..4]) == [buf[3], buf[2]] && Number([buf[2]]) == high;
    OrByte(high, low);
    Or(high * 256, low)
  }

  /** Eight bytes reversed and read back as a little-endian 64-bit word. */
  method NumberOfEight(buf: seq<Byte>) returns (n: nat)
    requires |buf| >= 10
    ensures n == HighNumber(buf[2..10])
  {
    var temp := new Byte[8];
    var i := 0;
    while i < 8
      invariant 0 <= i <= 8
      invariant forall k :: 0 <= k < i ==> temp[k] == buf[9 - k]
    {
      temp[i] := buf[9 - i];
      i := i + 1;
    }
    forall k | 0 <= k < 8
      ensures temp[k] == Reversed(buf[2..10])[k]
    {
      ReversedAt(buf[2..10], k);
    }
    assert temp[..] == Reversed(buf[2..10]);
    n := Number(temp[..]);
  }

  /** packData: one unmasked final text frame, in the shortest form; nothing for 65535 bytes or more. */
  method PackData(message: seq<Byte>) returns (data: array?<Byte>, len: nat)
    ensures data == null <==> |message| >= 0xFFFF
    ensures data == null ==> len == 0
    ensures data != null ==>
              && data.Length == len
              && Parse(data[..]) == Some(Frame(true, 0, 1, [], message))
              && len == |message| + (if |message| < 126 then 2 else 4)
  {
    var n := |message|;
    var frame := Frame(true, 0, 1, [], message);
    var block;
    if n < 126 {
      block := new Byte[n + 2];
      block[0], block[1] := 0x81, n;
      forall i | 0 <= i < n { block[2 + i] := message[i]; }
      len := n + 2;
      assert block[..] == Build(frame, 0) + [];
      ParseBuild(frame, 0, []);
    } else if n < 0xFFFF {
      block := new Byte[n + 4];
      block[0], block[1], block[2], block[3] := 0x81, 126, n / 256 % 256, n % 256;
      forall i | 0 <= i < n { block[4 + i] := message[i]; }
      len := n + 4;
      LittleFour(n);
      ReversedFour(Digits(n, 2));
      assert block[..] == Build(frame, 2) + [];
      ParseBuild(frame, 2, []);
    } else {
      return null, 0;
    }
    data := block;
  }
}

/** The opening handshake of module/sockect/websocket/main.c, with base64.h and intLib.h. */
module WebSocketHandshake {
  import opened Bits
  import opened Base64Spec
  import opened Options
  import opened Sequences
  import opened Sha1Spec
  import Sha1

  // ---------- base64.h ----------

  /** The string `base` of base64.h: the letters and then the pad. */
  function BaseChar(n: nat): char
    requires n <= 64
  {
    if n < 64 then Letter(n) else '='
  }

  /** base64_encode. The buffer has exactly the room of the encoded text and its terminator. */
  method Base64Encode(data: seq<Byte>) returns (ret: array<char>)
    ensures ret.Length == |Encode(data)| + 1 && ret[..ret.Length - 1] == Encode(data) && ret[ret.Length - 1] == '\0'
  {
    hide Encode, Quartet, Prefix;
    var retLen := |data| / 3;
    if |data| % 3 > 0 {
      retLen := retLen + 1;
    }
    retLen := retLen * 4 + 1;
    EncodedLength(data);
    ret := new char[retLen];
    var f, tmp := 0, 0;
    assert data[0..] == data;
    while tmp < |data|
      invariant 0 <= tmp <= |data| && 0 <= f < ret.Length
      invariant ret[..f] + Encode(data[tmp..]) == Encode(data)
    {
      var temp, prepare := Gather(data, tmp);
      ghost var written, rest := ret[..f], Encode(data[tmp + temp..]);
      GroupEncodes(data[tmp..], temp, prepare);
      assert data[tmp..][temp..] == data[tmp + temp..];
      assert |Encode(data)| == f + 4 + |rest|;
      tmp := tmp + temp;
      f := PutQuartet(ret, f, prepare, temp);
      Associates(written, Quartet(prepare, temp), rest);
    }
    assert data[tmp..] == [];
    EncodeNothing();
    ret[f] := '\0';
  }

  /** The first inner loop: up to three bytes, shifted to the upper end of 24 bits. */
  method Gather(data: seq<Byte>, start: nat) returns (temp: nat, prepare: nat)
    requires start < |data|
    ensures 1 <= temp <= 3 && start + temp <= |data| && (temp < 3 ==> start + temp == |data|)
    ensures prepare == Shifted(data[start..], temp)
  {
    hide Or;
    var tmp := start;
    temp, prepare := 0, 0;
    while temp < 3 && tmp < |data|
      invariant 0 <= temp <= 3 && tmp == start + temp <= |data|
      invariant prepare == Prefix(data[start..], temp)
    {
      var byte: int := data[tmp];
      OrByte(prepare, byte);
      prepare := Or(prepare * 256, byte);
      tmp := tmp + 1;
      temp := temp + 1;
    }
    prepare := if temp == 1 then prepare * 0x1_0000 else if temp == 2 then prepare * 0x100 else prepare;
  }

  /** The second inner loop: the four sextets as characters, pads for the missing ones. */
  method PutQuartet(ret: array<char>, start: nat, prepare: nat, temp: nat) returns (f: nat)
    requires start + 4 <= ret.Length && prepare < 0x100_0000 && 1 <= temp <= 3
    modifies ret
    ensures f == start + 4 && ret[..f] == old(ret[..start]) + Quartet(prepare, temp)
    ensures ret[f..] == old(ret[f..])
  {
    hide Letter;
    f := start;
    var i := 0;
    while i < 4
      invariant 0 <= i <= 4 && f == start + i
      invariant ret[..f] == old(ret[..start]) + Quartet(prepare, temp)[..i]
      invariant ret[start + 4..] == old(ret[start + 4..])
    {
      var changed := if temp < i then 0x40 else [prepare / 0x4_0000, prepare / 0x1000, prepare / 64, prepare][i] % 64;
      ret[f] := BaseChar(changed);
      f := f + 1;
      i := i + 1;
    }
  }

  lemma EncodeNothing()
    ensures Encode([]) == ""
  {
  }

  /** The first `n` of at most three bytes, shifted together. */
  function Prefix(b: seq<Byte>, n: nat): nat
    requires n <= |b|
  {
    if n == 0 then 0 else Prefix(b, n - 1) * 256 + b[n - 1]
  }

  /** The four characters written for a group with `temp` bytes in it. */
  function Quartet(group: nat, temp: nat): (q: string)
    requires group < 0x100_0000
    ensures |q| == 4
  {
    var q := Group(group);
    if temp == 1 then q[..2] + "==" else if temp == 2 then q[..3] + "=" else q
  }

  function Shifted(b: seq<Byte>, n: nat): nat
    requires n <= |b|
  {
    if n == 1 then Prefix(b, 1) * 0x1_0000 else if n == 2 then Prefix(b, 2) * 0x100 else Prefix(b, n)
  }

  lemma GroupEncodes(b: seq<Byte>, temp: nat, group: nat)
    requires 1 <= temp <= |b| && (temp == 3 || (temp < 3 && temp == |b|))
    requires group == Shifted(b, temp)
    ensures group < 0x100_0000 && Encode(b) == Quartet(group, temp) + Encode(b[temp..])
  {
    hide Group, Shifted, Prefix;
    ShiftedBytes(b, temp);
    assert temp < 3 ==> b[temp..] == [];
  }

  lemma ShiftedBytes(b: seq<Byte>, temp: nat)
    requires 1 <= temp <= 3 && temp <= |b|
    ensures var b0: int, b1: int, b2: int := b[0], if temp > 1 then b[1] else 0, if temp > 2 then b[2] else 0;
            Shifted(b, temp) == b0 * 0x1_0000 + b1 * 0x100 + b2
  {
    var b0: int, b1: int := b[0], if temp > 1 then b[1] else 0;
    assert Prefix(b, 1) == b0;
    assert temp > 1 ==> Prefix(b, 2) == b0 * 256 + b1;
  }

  // ---------- intLib.h ----------

  function ToLower(c: char): char {
    if 'A' <= c <= 'Z' then (c as int + 'a' as int - 'A' as int) as char else c
  }

  predicate IsHexDigit(c: char) {
    '0' <= c <= '9' || 'a' <= c <= 'f' || 'A' <= c <= 'F'
  }

  function DigitValue(c: char): nat
    requires IsHexDigit(c)
  {
    if '0' <= c <= '9' then c as int - '0' as int
      else if c <= 'F' then c as int - 'A' as int + 10
      else c as int - 'a' as int + 10
  }

  /** The value of the longest run of hexadecimal digits at `i`, of `len` digits at most, in
      front of which `n` stands already. */
  function HexRun(s: string, i: nat, len: nat, n: nat): nat
    decreases len
  {
    if i < |s| && len > 0 && IsHexDigit(s[i]) then HexRun(s, i + 1, len - 1, 16 * n + DigitValue(s[i])) else n
  }

  predicate HexPrefixed(s: string) {
    |s| >= 2 && s[0] == '0' && s[1] in "xX"
  }

  lemma LowerValue(c: char)
    requires IsHexDigit(c)
    ensures DigitValue(c)
              == if ToLower(c) > '9' then 10 + ToLower(c) as int - 'a' as int else ToLower(c) as int - '0' as int
  {
  }

  /** htoi, on the characters of a C string, for numbers that an int holds. */
  method Htoi(s: string, start: nat, len: nat) returns (n: nat)
    requires len <= 7
    ensures n == HexRun(s, start + (if HexPrefixed(s) then 2 else 0), len, 0)
  {
    hide IsHexDigit, DigitValue, ToLower, HexPrefixed, HexRun;
    var i := if HexPrefixed(s) then 2 else 0;
    i := i + start;
    var j := 0;
    n := 0;
    ghost var first := i;
    while i < |s| && IsHexDigit(s[i])
      invariant 0 <= j <= len
      invariant HexRun(s, first, len, 0) == HexRun(s, i, len - j, n)
    {
      if j >= len {
        break;
      }
      LowerValue(s[i]);
      HexRunStep(s, i, len - j, n);
      if ToLower(s[i]) > '9' {
        n := 16 * n + (10 + ToLower(s[i]) as int - 'a' as int);
      } else {
        n := 16 * n + (ToLower(s[i]) as int - '0' as int);
      }
      j := j + 1;
      i := i + 1;
    }
    HexRunEnd(s, i, len - j, n);
  }

  lemma HexRunStep(s: string, i: nat, len: nat, n: nat)
    requires i < |s| && len > 0 && IsHexDigit(s[i])
    ensures HexRun(s, i, len, n) == HexRun(s, i + 1, len - 1, 16 * n + DigitValue(s[i]))
  {
  }

  lemma HexRunEnd(s: string, i: nat, len: nat, n: nat)
    ensures i >= |s| || len == 0 || !IsHexDigit(s[i]) ==> HexRun(s, i, len, n) == n
  {
  }

  // ---------- the digest, printed and read back ----------

  /** The bytes of a hash value, each word in big-endian order. */
  function WordBytes(w: Word): (b: seq<Byte>)
    ensures |b| == 4
  {
    [w / 0x100_0000, w / 0x1_0000 % 256, w / 0x100 % 256, w % 256]
  }

  function DigestBytes(h: Words): (b: seq<Byte>)
    ensures |b| == 20
  {
    WordBytes(h.a) + WordBytes(h.b) + WordBytes(h.c) + WordBytes(h.d) + WordBytes(h.e)
  }

  lemma HexDigitValue(n: nat)
    requires n < 16
    ensures IsHexDigit(Sha1.HexDigit(n)) && DigitValue(Sha1.HexDigit(n)) == n && Sha1.HexDigit(n) !in "xX"
  {
  }

  lemma HexPair(s: string, i: nat)
    requires i + 2 <= |s| && IsHexDigit(s[i]) && IsHexDigit(s[i + 1])
    ensures HexRun(s, i, 2, 0) == 16 * DigitValue(s[i]) + DigitValue(s[i + 1])
  {
    hide IsHexDigit, DigitValue;
    assert HexRun(s, i + 1, 1, DigitValue(s[i])) == HexRun(s, i + 2, 0, 16 * DigitValue(s[i]) + DigitValue(s[i + 1]));
  }

  /** Two digits of a printed word are one byte of it. */
  lemma HexOfWord(s: string, i: nat, w: Word, k: nat)
    requires k < 4 && i + 8 <= |s| && s[i..i + 8] == Sha1.HexWord(w)
    ensures HexRun(s, i + 2 * k, 2, 0) == WordBytes(w)[k]
  {
    hide IsHexDigit, DigitValue, Sha1.HexDigit;
    var high := [w / 0x1000_0000, w / 0x10_0000 % 16, w / 0x1000 % 16, w / 0x10 % 16][k];
    var low := [w / 0x100_0000 % 16, w / 0x1_0000 % 16, w / 0x100 % 16, w % 16][k];
    HexDigitValue(high);
    HexDigitValue(low);
    assert s[i + 2 * k] == s[i..i + 8][2 * k] && s[i + 2 * k + 1] == s[i..i + 8][2 * k + 1];
    HexPair(s, i + 2 * k);
    assert WordBytes(w)[k] == 16 * high + low by { NibblesOfByte(w, k, high, low); }
  }

  lemma NibblesOfByte(w: Word, k: nat, high: nat, low: nat)
    requires k < 4
    requires high == [w / 0x1000_0000, w / 0x10_0000 % 16, w / 0x1000 % 16, w / 0x10 % 16][k]
    requires low == [w / 0x100_0000 % 16, w / 0x1_0000 % 16, w / 0x100 % 16, w % 16][k]
    ensures WordBytes(w)[k] == 16 * high + low
  {
    var v := [w / 0x100_0000, w / 0x1_0000, w / 0x100, w][k];
    assert WordBytes(w)[k] == v % 256;
    if k == 0 {
      assert v / 16 == w / 0x1000_0000;
    } else if k == 1 {
      assert v / 16 == w / 0x10_0000;
    } else if k == 2 {
      assert v / 16 == w / 0x1000;
    }
    TwoNibbles(v);
  }

  lemma TwoNibbles(v: nat)
    ensures v % 256 == 16 * (v / 16 % 16) + v % 16
  {
    var q := v / 16;
    assert v == 16 * q + v % 16 && q == 16 * (q / 16) + q % 16;
    QuotientIs(v, 256, q / 16, 16 * (q % 16) + v % 16);
  }

  /** Byte `j` of the digest stands at digits 2j and 2j + 1 of its printed form. */
  lemma HexOfDigest(h: Words, j: nat)
    requires j < 20
    ensures HexRun(Sha1.HexDigest(h), 2 * j, 2, 0) == DigestBytes(h)[j]
    ensures !HexPrefixed(Sha1.HexDigest(h))
  {
    hide HexRun, WordBytes, Sha1.HexDigit;
    var s := Sha1.HexDigest(h);
    HexDigitValue(h.a / 0x100_0000 % 16);
    var w := [h.a, h.b, h.c, h.d, h.e][j / 4];
    assert s[j / 4 * 8..j / 4 * 8 + 8] == Sha1.HexWord(w) by {
      hide Sha1.HexWord;
    }
    HexOfWord(s, j / 4 * 8, w, j % 4);
    assert j / 4 * 8 + 2 * (j % 4) == 2 * j;
    assert DigestBytes(h)[j] == WordBytes(w)[j % 4];
  }

  // ---------- the key ----------

  const FLAG: seq<Byte> := Bytes("Sec-WebSocket-Key: ")
  const GUID: seq<Byte> := Bytes("258EAFA5-E914-47DA-95CA-C5AB0DC85B11")

  function Bytes(s: string): (b: seq<Byte>)
    ensures |b| == |s|
  {
    seq(|s|, i requires 0 <= i < |s| => s[i] as int % 256)
  }

  predicate MatchesAt(hay: seq<Byte>, needle: seq<Byte>, at: int) {
    0 <= at <= |hay| - |needle| && hay[at..at + |needle|] == needle
  }

  /** The library's strstr, from position `from` on: the first match, -1 when there is none. */
  function Find(hay: seq<Byte>, needle: seq<Byte>, from: nat): (at: int)
    ensures at == -1 <==> forall i :: i >= from ==> !MatchesAt(hay, needle, i)
    ensures at != -1 ==> at >= from && MatchesAt(hay, needle, at)
    ensures forall i :: from <= i < at ==> !MatchesAt(hay, needle, i)
    decreases |hay| - from
  {
    if from + |needle| > |hay| then -1
    else if hay[from..from + |needle|] == needle then assert MatchesAt(hay, needle, from); from
    else Find(hay, needle, from + 1)
  }

  predicate EndsLine(c: Byte) {
    c == 0x0A || c == 0x0D
  }

  /** Where the line that contains position `at` ends. */
  function LineEnd(buf: seq<Byte>, at: nat): (end: nat)
    requires at <= |buf|
    ensures at <= end <= |buf|
    ensures forall i :: at <= i < end ==> !EndsLine(buf[i])
    ensures end < |buf| ==> EndsLine(buf[end])
    decreases |buf| - at
  {
    if at == |buf| || EndsLine(buf[at]) then at else LineEnd(buf, at + 1)
  }

  function HasKey(buf: seq<Byte>): bool {
    Find(buf, FLAG, 0) >= 0
  }

  /** The value of the key header: what follows the flag, up to the end of its line. */
  function SecKey(buf: seq<Byte>): (key: seq<Byte>)
    requires HasKey(buf)
  {
    var at := Find(buf, FLAG, 0) + |FLAG|;
    buf[at..LineEnd(buf, at)]
  }

  /** The request is a C string whose key line is terminated and leaves `room` bytes of the key buffer. */
  predicate Request(buf: seq<Byte>, room: nat) {
    && (forall i :: 0 <= i < |buf| ==> buf[i] != 0)
    && (HasKey(buf) ==>
          LineEnd(buf, Find(buf, FLAG, 0) + |FLAG|) < |buf| && |SecKey(buf)| + room < 256)
  }

  /** A request that carries `key`: the flag stands nowhere earlier, and the key's line ends behind it. */
  ghost predicate Presents(buf: seq<Byte>, before: seq<Byte>, key: seq<Byte>, after: seq<Byte>) {
    && buf == before + FLAG + key + [0x0D, 0x0A] + after
    && (forall i :: 0 <= i < |before| ==> !MatchesAt(buf, FLAG, i))
    && (forall i :: 0 <= i < |key| ==> !EndsLine(key[i]))
    && (forall i :: 0 <= i < |buf| ==> buf[i] != 0)
  }

  lemma KeyCarried(buf: seq<Byte>, before: seq<Byte>, key: seq<Byte>, after: seq<Byte>)
    requires Presents(buf, before, key, after)
    ensures HasKey(buf) && SecKey(buf) == key
    ensures forall room: nat :: |key| + room < 256 ==> Request(buf, room)
  {
    hide MatchesAt, LineEnd, EndsLine;
    var at := |before| + |FLAG|;
    KeyPlace(buf, before, key, after);
    assert Find(buf, FLAG, 0) == |before|;
    assert LineEnd(buf, at) == at + |key|;
  }

  lemma KeysCarried(buf: seq<Byte>)
    ensures HasKey(buf) <==> exists i :: MatchesAt(buf, FLAG, i)
    ensures forall before, value, after :: Presents(buf, before, value, after) ==> HasKey(buf) && value == SecKey(buf)
  {
    hide MatchesAt, Presents, SecKey;
    forall before, value, after | Presents(buf, before, value, after)
      ensures HasKey(buf) && value == SecKey(buf)
    {
      KeyCarried(buf, before, value, after);
    }
    assert Find(buf, FLAG, 0) == -1 ==> forall i :: i >= 0 ==> !MatchesAt(buf, FLAG, i);
    NoMatchBefore(buf);
  }

  lemma NoMatchBefore(buf: seq<Byte>)
    ensures forall i :: i < 0 ==> !MatchesAt(buf, FLAG, i)
  {
  }

  lemma KeyPlace(buf: seq<Byte>, before: seq<Byte>, key: seq<Byte>, after: seq<Byte>)
    requires Presents(buf, before, key, after)
    ensures MatchesAt(buf, FLAG, |before|)
    ensures var at := |before| + |FLAG|;
            at + |key| < |buf| && buf[at..at + |key|] == key && LineEnd(buf, at) == at + |key|
  {
    hide FLAG, LineEnd;
    var at := |before| + |FLAG|;
    Parts(before, FLAG, key, [0x0D, 0x0A] + after);
    assert buf == before + FLAG + key + ([0x0D, 0x0A] + after);
    assert forall i :: 0 <= i < |key| ==> buf[at..at + |key|][i] == key[i];
    LineEndIs(buf, at, at + |key|);
  }

  lemma Parts(a: seq<Byte>, b: seq<Byte>, c: seq<Byte>, d: seq<Byte>)
    ensures var s, n := a + b + c + d, |a| + |b|;
            s[|a|..n] == b && s[n..n + |c|] == c && forall i :: 0 <= i < |d| ==> s[n + |c| + i] == d[i]
  {
  }

  lemma {:induction false} LineEndIs(buf: seq<Byte>, at: nat, end: nat)
    requires at <= end < |buf| && EndsLine(buf[end])
    requires forall i :: at <= i < end ==> !EndsLine(buf[i])
    ensures LineEnd(buf, at) == end
    decreases end - at
  {
    if at < end {
      LineEndIs(buf, at + 1, end);
    }
  }

  method FetchSecKey(buf: seq<Byte>) returns (key: array?<Byte>)
    requires Request(buf, 0)
    ensures key == null <==> forall i :: !MatchesAt(buf, FLAG, i)
    ensures forall before, value, after :: Presents(buf, before, value, after) ==>
              HasKey(buf) && value == SecKey(buf)
    ensures key != null ==>
              && HasKey(buf) && fresh(key) && key.Length == 256 && key[..|SecKey(buf)|] == SecKey(buf)
              && forall k :: |SecKey(buf)| <= k < 256 ==> key[k] == 0
  {
    KeysCarried(buf);
    var block := new Byte[256];
    forall k | 0 <= k < 256 { block[k] := 0; }
    var keyBegin := Find(buf, FLAG, 0);
    if keyBegin < 0 {
      return null;
    }
    keyBegin := keyBegin + |FLAG|;
    var bufLen := |buf|;
    var i := 0;
    while i < bufLen
      invariant 0 <= i <= |SecKey(buf)|
      invariant forall k :: 0 <= k < i ==> block[k] == buf[keyBegin + k]
      invariant forall k :: i <= k < 256 ==> block[k] == 0
    {
      if EndsLine(buf[keyBegin + i]) {
        break;
      }
      block[i] := buf[keyBegin + i];
      i := i + 1;
    }
    key := block;
  }

  /** What strlen sees of a buffer. */
  function UpToZero(b: seq<Byte>): seq<Byte> {
    if b == [] || b[0] == 0 then [] else [b[0]] + UpToZero(b[1..])
  }

  lemma {:induction false} UpToFirstZero(b: seq<Byte>, rest: seq<Byte>)
    requires forall i :: 0 <= i < |b| ==> b[i] != 0
    ensures UpToZero(b + [0] + rest) == b
  {
    if b == [] {
      assert ([0] + rest)[0] == 0;
      assert b + [0] + rest == [0] + rest;
    } else {
      assert (b + [0] + rest)[1..] == b[1..] + [0] + rest;
      UpToFirstZero(b[1..], rest);
    }
  }

  lemma {:induction false} UpToZeroAppended(b: seq<Byte>)
    ensures UpToZero(b + [0]) == UpToZero(b)
    ensures UpToZero(b) == b <==> forall i :: 0 <= i < |b| ==> b[i] != 0
    ensures |UpToZero(b)| <= |b|
  {
    if b == [] {
    } else {
      assert (b + [0])[1..] == b[1..] + [0];
      UpToZeroAppended(b[1..]);
      if b[0] != 0 {
        assert UpToZero(b)[1..] == UpToZero(b[1..]);
      }
    }
  }

  /** The digest the accept header must carry: section 4.2.2, step 5, item 4 of RFC 6455. */
  function AcceptDigest(key: seq<Byte>): seq<Byte>
    requires Hashable(key + GUID)
  {
    DigestBytes(Digest(key + GUID))
  }

  lemma EncodeInjective(a: seq<Byte>, b: seq<Byte>)
    requires Encode(a) == Encode(b)
    ensures a == b
  {
    hide Encode, Decode;
    DecodeEncode(a, 0, []);
    DecodeEncode(b, 0, []);
    assert [] + a == a && [] + b == b;
  }

  /** Cutting the digest off at a zero byte spoils the accept key, and nothing else does. */
  lemma AcceptKeyExactlyWhen(digest: seq<Byte>)
    ensures Encode(UpToZero(digest)) == Encode(digest) <==> forall i :: 0 <= i < |digest| ==> digest[i] != 0
  {
    hide Encode;
    UpToZeroAppended(digest);
    if Encode(UpToZero(digest)) == Encode(digest) {
      EncodeInjective(UpToZero(digest), digest);
    }
  }

  /** computeAcceptKey returns the accept key of RFC 6455 exactly when no byte of the digest is zero. */
  method ComputeAcceptKey(buf: seq<Byte>) returns (serverKey: array?<char>)
    requires Request(buf, |GUID|)
    ensures serverKey == null <==> forall i :: !MatchesAt(buf, FLAG, i)
    ensures forall before, key, after :: Presents(buf, before, key, after) ==>
              HasKey(buf) && key == SecKey(buf)
    ensures serverKey != null ==>
              var digest := AcceptDigest(SecKey(buf));
              && serverKey.Length > 0
              && serverKey[..serverKey.Length - 1] == Encode(UpToZero(digest))
              && (serverKey[..serverKey.Length - 1] == Encode(digest) <==>
                   forall i :: 0 <= i < |digest| ==> digest[i] != 0)
  {
    hide Encode, Digest, DigestBytes, UpToZero, SecKey, HasKey;
    var clientKey := FetchSecKey(buf);
    if clientKey == null {
      return null;
    }
    KeyBytes(buf);
    GuidBytes();
    var joined := Strcat(clientKey, SecKey(buf), GUID);
    ghost var h := Digest(SecKey(buf) + GUID);
    var sha1DataTemp := Sha1.Sha1Hash(joined);
    var sha1Data := ReadHex(sha1DataTemp, h);
    UpToZeroAppended(DigestBytes(h));
    AcceptKeyExactlyWhen(DigestBytes(h));
    serverKey := Base64Encode(UpToZero(sha1Data[..]));
  }

  lemma KeyBytes(buf: seq<Byte>)
    requires Request(buf, |GUID|) && HasKey(buf)
    ensures forall i :: 0 <= i < |SecKey(buf)| ==> SecKey(buf)[i] != 0
    ensures |SecKey(buf)| + |GUID| < 256
  {
    hide GUID, FLAG;
  }

  lemma GuidBytes()
    ensures |GUID| == 36 && forall i :: 0 <= i < |GUID| ==> GUID[i] != 0
  {
  }

  /** Whatever stands around it, the key of a request is answered by its digest up to a zero byte. */
  method Answer(before: seq<Byte>, key: seq<Byte>, after: seq<Byte>) returns (serverKey: array<char>)
    requires Presents(before + FLAG + key + [0x0D, 0x0A] + after, before, key, after)
    requires |key| + |GUID| < 256
    ensures serverKey.Length > 0
    ensures serverKey[..serverKey.Length - 1] == Encode(UpToZero(AcceptDigest(key)))
  {
    hide Presents, SecKey, HasKey, AcceptDigest, FLAG, GUID, Encode, UpToZero;
    var buf := before + FLAG + key + [0x0D, 0x0A] + after;
    KeyCarried(buf, before, key, after);
    KeysCarried(buf);
    serverKey := ComputeAcceptKey(buf);
  }

  /** The printed digest read back two digits at a time, with a terminating zero. */
  method ReadHex(sha1DataTemp: string, ghost h: Words) returns (sha1Data: array<Byte>)
    requires sha1DataTemp == Sha1.HexDigest(h)
    ensures sha1Data[..] == DigestBytes(h) + [0]
  {
    hide HexRun, DigestBytes, Sha1.HexDigest;
    var n := |sha1DataTemp|;
    sha1Data := new Byte[n / 2 + 1];
    forall k | 0 <= k < sha1Data.Length { sha1Data[k] := 0; }
    var i := 0;
    while i < n
      invariant 0 <= i <= n && i % 2 == 0
      invariant forall k :: 0 <= k < i / 2 ==> sha1Data[k] == DigestBytes(h)[k]
      invariant forall k :: i / 2 <= k <= n / 2 ==> sha1Data[k] == 0
    {
      HexOfDigest(h, i / 2);
      var byte := Htoi(sha1DataTemp, i, 2);
      sha1Data[i / 2] := byte;
      i := i + 2;
    }
  }

  /** strcat onto the key buffer; the result is the joined string as sha1_hash sees it. */
  method Strcat(dest: array<Byte>, was: seq<Byte>, src: seq<Byte>) returns (joined: seq<Byte>)
    requires |was| + |src| < dest.Length && dest[..|was|] == was
    requires forall i :: 0 <= i < |was| ==> was[i] != 0
    requires forall i :: 0 <= i < |src| ==> src[i] != 0
    requires forall k :: |was| <= k < dest.Length ==> dest[k] == 0
    modifies dest
    ensures joined == was + src && joined == UpToZero(dest[..])
  {
    ghost var rest := dest[|was| + |src| + 1..];
    forall i | 0 <= i < |src| { dest[|was| + i] := src[i]; }
    assert dest[..] == (was + src) + [0] + rest;
    UpToFirstZero(was + src, rest);
    joined := UpToZero(dest[..]);
  }
}
