/** A WAVE file as a plain walk over its bytes: the RIFF header, chunks up to the first 'fmt ' chunk,
    chunks up to the first 'data' chunk, and the data. */
module WavSpec {
  import opened Bits

  const RIFF: seq<Byte> := [0x52, 0x49, 0x46, 0x46]
  const RIFX: seq<Byte> := [0x52, 0x49, 0x46, 0x58]
  const WAVE: seq<Byte> := [0x57, 0x41, 0x56, 0x45]
  const FMT: seq<Byte> := [0x66, 0x6D, 0x74, 0x20]
  const DATA: seq<Byte> := [0x64, 0x61, 0x74, 0x61]

  const FMT_PCM: nat := 0x0001
  const FMT_IEEE_FLOAT: nat := 0x0003
  const FMT_EXTENSIBLE: nat := 0xfffe
  const GUID_TAG: seq<Byte> := [0x00, 0x00, 0x00, 0x00, 0x10, 0x00, 0x80, 0x00, 0x00, 0xAA, 0x00, 0x38, 0x9B, 0x71]

  datatype SampleFormat =
    | U8 | S16_LE | S16_BE | S24_3LE | S24_3BE | S24_LE | S24_BE | S32_LE | S32_BE | FLOAT_LE | FLOAT_BE

  /** What each format means: bits of a sample, bytes it takes up, whether the highest byte comes first,
      and whether it is a floating point number. */
  datatype Layout = Layout(bits: nat, bytes: nat, highFirst: bool, float: bool)

  function LayoutOf(f: SampleFormat): Layout {
    match f
    case U8 => Layout(8, 1, false, false)
    case S16_LE => Layout(16, 2, false, false)
    case S16_BE => Layout(16, 2, true, false)
    case S24_3LE => Layout(24, 3, false, false)
    case S24_3BE => Layout(24, 3, true, false)
    case S24_LE => Layout(24, 4, false, false)
    case S24_BE => Layout(24, 4, true, false)
    case S32_LE => Layout(32, 4, false, false)
    case S32_BE => Layout(32, 4, true, false)
    case FLOAT_LE => Layout(32, 4, false, true)
    case FLOAT_BE => Layout(32, 4, true, true)
  }

  datatype Params = Params(format: SampleFormat, channels: nat, rate: nat)

  /** The messages with which the program exits. */
  datatype Failure = ReadError | ShortFmt | ShortExtensible | WrongTag
    | NotPcmOrFloat | NoTracks | WrongWidth | WrongBits

  datatype Result<T> = Ok(value: T) | Fail(why: Failure)

  datatype Wave = NotWave | Broken(why: Failure) | Playable(params: Params, length: nat, data: seq<Byte>)

  /** A field of the file, in the byte order of the file. */
  function Short(b: seq<Byte>, i: nat, bigEndian: bool): (n: nat)
    requires i + 2 <= |b|
    ensures n < 0x1_0000
  {
    var x: int, y: int := b[i], b[i + 1];
    if bigEndian then x * 256 + y else x + y * 256
  }

  function Int(b: seq<Byte>, i: nat, bigEndian: bool): Word
    requires i + 4 <= |b|
  {
    var x, y := Short(b, i, bigEndian), Short(b, i + 2, bigEndian);
    if bigEndian then x * 0x1_0000 + y else x + y * 0x1_0000
  }

  /** Chunks are padded to an even length, computed in an unsigned int. */
  function Rounded(len: Word): Word {
    (len + len % 2) % 0x1_0000_0000
  }

  /** The rounding is the padding of the file format except for one length, which it turns into 0. */
  lemma RoundedIsPadding(len: Word)
    ensures Rounded(len) == len + len % 2 <==> len != 0xFFFF_FFFF
  {
  }

  /** The length (rounded) of the first 'fmt ' chunk and the bytes from its body on. */
  function FindFmt(b: seq<Byte>, bigEndian: bool): Result<(nat, seq<Byte>)>
    decreases |b|
  {
    if |b| < 8 then Fail(ReadError)
    else
      var len, rest := Rounded(Int(b, 4, bigEndian)), b[8..];
      if b[..4] == FMT then Ok((len, rest))
      else if |rest| < len then Fail(ReadError)
      else FindFmt(rest[len..], bigEndian)
  }

  /** The length of the first 'data' chunk and the bytes from its body on. */
  function FindData(b: seq<Byte>, bigEndian: bool): Result<(nat, seq<Byte>)>
    decreases |b|
  {
    if |b| < 8 then Fail(ReadError)
    else
      var len, rest := Int(b, 4, bigEndian), b[8..];
      if b[..4] == DATA then Ok((len, rest))
      else if |rest| < Rounded(len) then Fail(ReadError)
      else FindData(rest[Rounded(len)..], bigEndian)
  }

  /** The encoding tag: an extensible header names it in its GUID. */
  function FormatTag(body: seq<Byte>, len: nat, bigEndian: bool): Result<nat>
    requires 16 <= len <= |body|
  {
    var tag := Short(body, 0, bigEndian);
    if tag != FMT_EXTENSIBLE then Ok(tag)
    else if len < 40 then Fail(ShortExtensible)
    else if body[26..40] != GUID_TAG then Fail(WrongTag)
    else Ok(Short(body, 24, bigEndian))
  }

  function Sample(tag: nat, bits: nat, bytesPerFrame: nat, channels: nat, bigEndian: bool): Result<SampleFormat>
    requires channels > 0
  {
    if bits == 8 then Ok(U8)
    else if bits == 16 then Ok(if bigEndian then S16_BE else S16_LE)
    else if bits == 24 then
      var width := bytesPerFrame / channels;
      if width == 3 then Ok(if bigEndian then S24_3BE else S24_3LE)
      else if width == 4 then Ok(if bigEndian then S24_BE else S24_LE)
      else Fail(WrongWidth)
    else if bits == 32 then
      if tag == FMT_PCM then Ok(if bigEndian then S32_BE else S32_LE)
      else Ok(if bigEndian then FLOAT_BE else FLOAT_LE)
    else Fail(WrongBits)
  }

  function ParseFmt(body: seq<Byte>, len: nat, bigEndian: bool): Result<Params>
    requires 16 <= len <= |body|
  {
    var tag := FormatTag(body, len, bigEndian);
    var channels := Short(body, 2, bigEndian);
    if tag.Fail? then Fail(tag.why)
    else if tag.value != FMT_PCM && tag.value != FMT_IEEE_FLOAT then Fail(NotPcmOrFloat)
    else if channels < 1 then Fail(NoTracks)
    else
      var sample := Sample(tag.value, Short(body, 14, bigEndian), Short(body, 12, bigEndian), channels, bigEndian);
      if sample.Fail? then Fail(sample.why) else Ok(Params(sample.value, channels, Int(body, 4, bigEndian)))
  }

  /** The parameters of the first 'fmt ' chunk and the bytes after it. */
  function TakeFmt(b: seq<Byte>, bigEndian: bool): Result<(Params, seq<Byte>)> {
    var fmt := FindFmt(b, bigEndian);
    if fmt.Fail? then Fail(fmt.why)
    else
      var (len, body) := fmt.value;
      if len < 16 then Fail(ShortFmt)
      else if |body| < len then Fail(ReadError)
      else
        var params := ParseFmt(body, len, bigEndian);
        if params.Fail? then Fail(params.why) else Ok((params.value, body[len..]))
  }

  /** The chunks after the RIFF header. */
  function Walk(b: seq<Byte>, bigEndian: bool): (w: Wave)
    ensures w != NotWave
  {
    var fmt := TakeFmt(b, bigEndian);
    if fmt.Fail? then Broken(fmt.why)
    else
      var data := FindData(fmt.value.1, bigEndian);
      if data.Fail? then Broken(data.why) else Playable(fmt.value.0, data.value.0, data.value.1)
  }

  /** The whole file, of which at least the header must be at hand. */
  function Read(file: seq<Byte>): Wave {
    if |file| < 12 || (file[..4] != RIFF && file[..4] != RIFX) || file[8..12] != WAVE then NotWave
    else Walk(file[12..], file[..4] == RIFX)
  }

  // ---------- files built chunk by chunk ----------

  datatype Chunk = Chunk(kind: seq<Byte>, body: seq<Byte>)

  function ShortBytes(n: nat, bigEndian: bool): (b: seq<Byte>)
    requires n < 0x1_0000
    ensures |b| == 2 && Short(b, 0, bigEndian) == n
  {
    if bigEndian then [n / 256, n % 256] else [n % 256, n / 256]
  }

  function IntBytes(n: Word, bigEndian: bool): (b: seq<Byte>)
    ensures |b| == 4
  {
    if bigEndian then ShortBytes(n / 0x1_0000, true) + ShortBytes(n % 0x1_0000, true)
    else ShortBytes(n % 0x1_0000, false) + ShortBytes(n / 0x1_0000, false)
  }

  lemma ShortAt(a: seq<Byte>, n: nat, rest: seq<Byte>, bigEndian: bool)
    requires n < 0x1_0000
    ensures Short(a + ShortBytes(n, bigEndian) + rest, |a|, bigEndian) == n
  {
  }

  lemma IntAt(a: seq<Byte>, n: Word, rest: seq<Byte>, bigEndian: bool)
    ensures Int(a + IntBytes(n, bigEndian) + rest, |a|, bigEndian) == n
  {
    var high, low := ShortBytes(n / 0x1_0000, bigEndian), ShortBytes(n % 0x1_0000, bigEndian);
    var first, second := if bigEndian then high else low, if bigEndian then low else high;
    var b := a + IntBytes(n, bigEndian) + rest;
    assert b == a + first + (second + rest) && b == (a + first) + second + rest;
  }

  predicate ValidChunk(c: Chunk) {
    |c.kind| == 4 && |c.body| < 0xFFFF_FFFF
  }

  /** Kind, length, body, and a pad byte after an odd body. */
  function ChunkBytes(c: Chunk, bigEndian: bool): seq<Byte>
    requires ValidChunk(c)
  {
    c.kind + IntBytes(|c.body|, bigEndian) + c.body + (if |c.body| % 2 == 1 then [0] else [])
  }

  function ChunksBytes(cs: seq<Chunk>, bigEndian: bool): seq<Byte>
    requires forall c :: c in cs ==> ValidChunk(c)
  {
    if cs == [] then [] else ChunkBytes(cs[0], bigEndian) + ChunksBytes(cs[1..], bigEndian)
  }

  /** How a chunk looks to the walk. */
  lemma ChunkHead(c: Chunk, rest: seq<Byte>, bigEndian: bool)
    requires ValidChunk(c)
    ensures var b := ChunkBytes(c, bigEndian) + rest;
            var pad := if |c.body| % 2 == 1 then [0] else [];
            && |b| >= 8 && b[..4] == c.kind && Int(b, 4, bigEndian) == |c.body|
            && Rounded(|c.body|) == |c.body| + |pad|
            && b[8..] == c.body + (pad + rest)
            && b[8..][|c.body| + |pad|..] == rest
  {
    hide IntBytes, Int;
    var pad := if |c.body| % 2 == 1 then [0] else [];
    var b := ChunkBytes(c, bigEndian) + rest;
    assert b == c.kind + IntBytes(|c.body|, bigEndian) + (c.body + (pad + rest));
    IntAt(c.kind, |c.body|, c.body + (pad + rest), bigEndian);
    assert c.body + (pad + rest) == (c.body + pad) + rest;
  }

  lemma SkipOneToFmt(c: Chunk, rest: seq<Byte>, bigEndian: bool)
    requires ValidChunk(c) && c.kind != FMT
    ensures FindFmt(ChunkBytes(c, bigEndian) + rest, bigEndian) == FindFmt(rest, bigEndian)
  {
    hide ChunkBytes, Rounded, Int;
    ChunkHead(c, rest, bigEndian);
  }

  lemma SkipOneToData(c: Chunk, rest: seq<Byte>, bigEndian: bool)
    requires ValidChunk(c) && c.kind != DATA
    ensures FindData(ChunkBytes(c, bigEndian) + rest, bigEndian) == FindData(rest, bigEndian)
  {
    hide ChunkBytes, Rounded, Int;
    ChunkHead(c, rest, bigEndian);
  }

  /** The first of several chunks, taken off the front. */
  lemma ChunksSplit(cs: seq<Chunk>, rest: seq<Byte>, bigEndian: bool)
    requires cs != [] && forall c :: c in cs ==> ValidChunk(c)
    ensures forall c :: c in cs[1..] ==> ValidChunk(c)
    ensures ChunksBytes(cs, bigEndian) + rest == ChunkBytes(cs[0], bigEndian) + (ChunksBytes(cs[1..], bigEndian) + rest)
  {
    hide ChunkBytes, ValidChunk;
  }

  /** Chunks of other kinds in front make no difference to either search. */
  lemma {:induction false} SkipToFmt(cs: seq<Chunk>, rest: seq<Byte>, bigEndian: bool)
    requires forall c :: c in cs ==> ValidChunk(c) && c.kind != FMT
    ensures FindFmt(ChunksBytes(cs, bigEndian) + rest, bigEndian) == FindFmt(rest, bigEndian)
  {
    hide ChunkBytes, FindFmt, ValidChunk;
    if cs == [] {
      assert [] + rest == rest;
    } else {
      ChunksSplit(cs, rest, bigEndian);
      SkipOneToFmt(cs[0], ChunksBytes(cs[1..], bigEndian) + rest, bigEndian);
      SkipToFmt(cs[1..], rest, bigEndian);
    }
  }

  lemma {:induction false} SkipToData(cs: seq<Chunk>, rest: seq<Byte>, bigEndian: bool)
    requires forall c :: c in cs ==> ValidChunk(c) && c.kind != DATA
    ensures FindData(ChunksBytes(cs, bigEndian) + rest, bigEndian) == FindData(rest, bigEndian)
  {
    hide ChunkBytes, FindData, ValidChunk;
    if cs == [] {
      assert [] + rest == rest;
    } else {
      ChunksSplit(cs, rest, bigEndian);
      SkipOneToData(cs[0], ChunksBytes(cs[1..], bigEndian) + rest, bigEndian);
      SkipToData(cs[1..], rest, bigEndian);
    }
  }

  /** The body of a plain 'fmt ' chunk. */
  function FmtBody(tag: nat, channels: nat, rate: Word, byteRate: Word, frame: nat,
      bits: nat, bigEndian: bool): (b: seq<Byte>)
    requires tag < 0x1_0000 && channels < 0x1_0000 && frame < 0x1_0000 && bits < 0x1_0000
    ensures |b| == 16
  {
    ShortBytes(tag, bigEndian) + ShortBytes(channels, bigEndian) + IntBytes(rate, bigEndian)
    + IntBytes(byteRate, bigEndian) + ShortBytes(frame, bigEndian) + ShortBytes(bits, bigEndian)
  }

  lemma FmtFields(tag: nat, channels: nat, rate: Word, byteRate: Word, frame: nat,
      bits: nat, rest: seq<Byte>, bigEndian: bool)
    requires tag < 0x1_0000 && channels < 0x1_0000 && frame < 0x1_0000 && bits < 0x1_0000
    ensures var b := FmtBody(tag, channels, rate, byteRate, frame, bits, bigEndian) + rest;
            && Short(b, 0, bigEndian) == tag && Short(b, 2, bigEndian) == channels && Int(b, 4, bigEndian) == rate
            && Short(b, 12, bigEndian) == frame && Short(b, 14, bigEndian) == bits
  {
    hide Short, Int, ShortBytes, IntBytes;
    var t, c, r := ShortBytes(tag, bigEndian), ShortBytes(channels, bigEndian), IntBytes(rate, bigEndian);
    var y, f, s := IntBytes(byteRate, bigEndian), ShortBytes(frame, bigEndian), ShortBytes(bits, bigEndian);
    var b := FmtBody(tag, channels, rate, byteRate, frame, bits, bigEndian) + rest;
    ShortAt([], tag, c + r + y + f + s + rest, bigEndian);
    assert b == [] + t + (c + r + y + f + s + rest);
    ShortAt(t, channels, r + y + f + s + rest, bigEndian);
    assert b == t + c + (r + y + f + s + rest);
    IntAt(t + c, rate, y + f + s + rest, bigEndian);
    assert b == (t + c) + r + (y + f + s + rest);
    ShortAt(t + c + r + y, frame, s + rest, bigEndian);
    assert b == (t + c + r + y) + f + (s + rest);
    ShortAt(t + c + r + y + f, bits, rest, bigEndian);
    assert b == (t + c + r + y + f) + s + rest;
  }

  lemma ShortOfPrefix(b: seq<Byte>, n: nat, i: nat, bigEndian: bool)
    requires i + 2 <= n <= |b|
    ensures Short(b[..n], i, bigEndian) == Short(b, i, bigEndian)
  {
  }

  lemma IntOfPrefix(b: seq<Byte>, n: nat, i: nat, bigEndian: bool)
    requires i + 4 <= n <= |b|
    ensures Int(b[..n], i, bigEndian) == Int(b, i, bigEndian)
  {
  }

  /** Only the chunk itself is looked at. */
  lemma ParseFmtPrefix(b: seq<Byte>, n: nat, len: nat, bigEndian: bool)
    requires 16 <= len <= n <= |b|
    ensures ParseFmt(b[..n], len, bigEndian) == ParseFmt(b, len, bigEndian)
  {
    hide Short, Int, Sample;
    ShortOfPrefix(b, n, 0, bigEndian);
    ShortOfPrefix(b, n, 2, bigEndian);
    ShortOfPrefix(b, n, 12, bigEndian);
    ShortOfPrefix(b, n, 14, bigEndian);
    IntOfPrefix(b, n, 4, bigEndian);
    if len >= 40 {
      ShortOfPrefix(b, n, 24, bigEndian);
      assert b[..n][26..40] == b[26..40];
    }
  }

  /** An extensible header: the size of what follows, the bits in use, the speaker positions, and a GUID
      that starts with the encoding tag. */
  function Extension(size: nat, validBits: nat, mask: Word, tag: nat, bigEndian: bool): (b: seq<Byte>)
    requires size < 0x1_0000 && validBits < 0x1_0000 && tag < 0x1_0000
    ensures |b| == 24
  {
    ShortBytes(size, bigEndian) + ShortBytes(validBits, bigEndian) + IntBytes(mask, bigEndian)
    + ShortBytes(tag, bigEndian) + GUID_TAG
  }

  lemma ExtensionFields(fields: seq<Byte>, size: nat, validBits: nat, mask: Word, tag: nat,
      rest: seq<Byte>, bigEndian: bool)
    requires |fields| == 16 && size < 0x1_0000 && validBits < 0x1_0000 && tag < 0x1_0000
    ensures var b := fields + (Extension(size, validBits, mask, tag, bigEndian) + rest);
            Short(b, 24, bigEndian) == tag && b[26..40] == GUID_TAG
  {
    hide Short, ShortBytes, IntBytes;
    var s, v, m := ShortBytes(size, bigEndian), ShortBytes(validBits, bigEndian), IntBytes(mask, bigEndian);
    var b := fields + (Extension(size, validBits, mask, tag, bigEndian) + rest);
    ShortAt(fields + s + v + m, tag, GUID_TAG + rest, bigEndian);
    assert b == (fields + s + v + m) + ShortBytes(tag, bigEndian) + (GUID_TAG + rest);
  }

  /** A 'fmt ' chunk as its body, of some length, decides it. */
  function ParseBody(body: seq<Byte>, bigEndian: bool): Result<Params> {
    if |body| < 16 then Fail(ShortFmt) else ParseFmt(body, |body|, bigEndian)
  }

  /** What the fields of a header come to, whatever names the encoding. */
  function ParseFields(tag: nat, channels: nat, rate: Word, frame: nat, bits: nat, bigEndian: bool): Result<Params> {
    if tag != FMT_PCM && tag != FMT_IEEE_FLOAT then Fail(NotPcmOrFloat)
    else if channels < 1 then Fail(NoTracks)
    else
      var sample := Sample(tag, bits, frame, channels, bigEndian);
      if sample.Fail? then Fail(sample.why) else Ok(Params(sample.value, channels, rate))
  }

  /** Which headers can be played. */
  predicate Playing(tag: nat, channels: nat, frame: nat, bits: nat) {
    && tag in {1, 3} && channels > 0
    && (bits in {8, 16, 32} || (bits == 24 && (frame / channels == 3 || frame / channels == 4)))
  }

  /** The format has the bits of the header; beyond one byte its order is that of the file; it is a
      floating point format for 32 bits with that tag alone; and 24 bits take up what the header says. */
  lemma FieldsMean(tag: nat, channels: nat, rate: Word, frame: nat, bits: nat, bigEndian: bool)
    ensures var r := ParseFields(tag, channels, rate, frame, bits, bigEndian);
            && (r.Ok? <==> Playing(tag, channels, frame, bits))
            && (r == Fail(NotPcmOrFloat) <==> tag !in {1, 3})
            && (r == Fail(NoTracks) <==> tag in {1, 3} && channels == 0)
            && (r == Fail(WrongWidth) <==> tag in {1, 3} && channels > 0 && bits == 24 && frame / channels !in {3, 4})
            && (r == Fail(WrongBits) <==> tag in {1, 3} && channels > 0 && bits !in {8, 16, 24, 32})
            && (r.Ok? ==>
                  && r.value.channels == channels && r.value.rate == rate
                  && LayoutOf(r.value.format) == Layout(bits, if bits == 24 then frame / channels else bits / 8,
                                                        bits > 8 && bigEndian, bits == 32 && tag == 3))
  {
  }

  lemma ParsePlain(tag: nat, channels: nat, rate: Word, byteRate: Word, frame: nat,
      bits: nat, extra: seq<Byte>, bigEndian: bool)
    requires tag < 0x1_0000 && channels < 0x1_0000 && frame < 0x1_0000 && bits < 0x1_0000 && tag != FMT_EXTENSIBLE
    ensures ParseBody(FmtBody(tag, channels, rate, byteRate, frame, bits, bigEndian) + extra, bigEndian)
            == ParseFields(tag, channels, rate, frame, bits, bigEndian)
  {
    hide FmtBody, Sample, Short, Int;
    FmtFields(tag, channels, rate, byteRate, frame, bits, extra, bigEndian);
  }

  /** The tag of an extensible header is that of its GUID. */
  lemma ParseExtensible(channels: nat, rate: Word, byteRate: Word, frame: nat, bits: nat,
                        size: nat, validBits: nat, mask: Word, tag: nat, extra: seq<Byte>, bigEndian: bool)
    requires channels < 0x1_0000 && frame < 0x1_0000 && bits < 0x1_0000
    requires size < 0x1_0000 && validBits < 0x1_0000 && tag < 0x1_0000
    ensures ParseBody(FmtBody(FMT_EXTENSIBLE, channels, rate, byteRate, frame, bits, bigEndian)
                      + (Extension(size, validBits, mask, tag, bigEndian) + extra), bigEndian)
            == ParseFields(tag, channels, rate, frame, bits, bigEndian)
  {
    hide FmtBody, Sample, Short, Int, Extension;
    var fields := FmtBody(FMT_EXTENSIBLE, channels, rate, byteRate, frame, bits, bigEndian);
    FmtFields(FMT_EXTENSIBLE, channels, rate, byteRate, frame, bits,
      Extension(size, validBits, mask, tag, bigEndian) + extra, bigEndian);
    ExtensionFields(fields, size, validBits, mask, tag, extra, bigEndian);
  }

  function Padded(body: seq<Byte>): seq<Byte> {
    body + if |body| % 2 == 1 then [0] else []
  }

  /** The fields of a plain header. */
  datatype Fields = Fields(tag: nat, channels: nat, rate: Word, byteRate: Word, frame: nat, bits: nat)

  predicate ValidFields(f: Fields) {
    f.tag < 0x1_0000 && f.channels < 0x1_0000 && f.frame < 0x1_0000 && f.bits < 0x1_0000
  }

  function FieldBytes(f: Fields, bigEndian: bool): (b: seq<Byte>)
    requires ValidFields(f)
    ensures |b| == 16
  {
    FmtBody(f.tag, f.channels, f.rate, f.byteRate, f.frame, f.bits, bigEndian)
  }

  lemma FieldsRead(f: Fields, extra: seq<Byte>, bigEndian: bool)
    requires ValidFields(f) && f.tag != FMT_EXTENSIBLE
    ensures ParseBody(Padded(FieldBytes(f, bigEndian) + extra), bigEndian)
            == ParseFields(f.tag, f.channels, f.rate, f.frame, f.bits, bigEndian)
  {
    hide FmtBody, ParseBody, ParseFields;
    var b := FieldBytes(f, bigEndian);
    var pad: seq<Byte> := if |b + extra| % 2 == 1 then [0] else [];
    ParsePlain(f.tag, f.channels, f.rate, f.byteRate, f.frame, f.bits, extra + pad, bigEndian);
    assert b + extra + pad == b + (extra + pad);
  }

  /** A file laid out chunk by chunk. */
  function Built(bigEndian: bool, riffLength: Word, before: seq<Chunk>, fmt: Chunk, between: seq<Chunk>,
                 length: Word, data: seq<Byte>): seq<Byte>
    requires (forall c :: c in before ==> ValidChunk(c)) && ValidChunk(fmt)
              && (forall c :: c in between ==> ValidChunk(c))
  {
    (if bigEndian then RIFX else RIFF) + IntBytes(riffLength, bigEndian) + WAVE
    + (ChunksBytes(before, bigEndian) + (ChunkBytes(fmt, bigEndian)
    + (ChunksBytes(between, bigEndian) + (DATA + IntBytes(length, bigEndian) + data))))
  }

  /** It is read back: the parameters of its first 'fmt ' chunk, or what is wrong with that, and the bytes
      of its first 'data' chunk, whatever other chunks stand before and between them. */
  lemma ReadBuilt(bigEndian: bool, riffLength: Word, before: seq<Chunk>, fmt: Chunk, between: seq<Chunk>,
                  length: Word, data: seq<Byte>)
    requires forall c :: c in before ==> ValidChunk(c) && c.kind != FMT
    requires ValidChunk(fmt) && fmt.kind == FMT
    requires forall c :: c in between ==> ValidChunk(c) && c.kind != DATA
    ensures Read(Built(bigEndian, riffLength, before, fmt, between, length, data))
            == match ParseBody(Padded(fmt.body), bigEndian)
               case Ok(params) => Playable(params, length, data)
               case Fail(why) => Broken(why)
  {
    hide TakeFmt, FindData, ChunkBytes, ChunksBytes, IntBytes, ParseBody, Padded;
    var tail := DATA + IntBytes(length, bigEndian) + data;
    var rest := ChunksBytes(between, bigEndian) + tail;
    var chunks := ChunksBytes(before, bigEndian) + (ChunkBytes(fmt, bigEndian) + rest);
    var head := (if bigEndian then RIFX else RIFF) + IntBytes(riffLength, bigEndian) + WAVE;
    var file := head + chunks;
    assert file[..4] == (if bigEndian then RIFX else RIFF) && file[8..12] == WAVE && file[12..] == chunks;
    assert RIFX[3] != RIFF[3];
    assert Read(file) == Walk(chunks, bigEndian);
    TakeBuilt(bigEndian, before, fmt, rest);
    SkipToData(between, tail, bigEndian);
    FoundData(length, data, bigEndian);
  }

  lemma BuiltIsWave(bigEndian: bool, riffLength: Word, before: seq<Chunk>, fmt: Chunk, between: seq<Chunk>,
                    length: Word, data: seq<Byte>)
    requires (forall c :: c in before ==> ValidChunk(c)) && ValidChunk(fmt)
              && (forall c :: c in between ==> ValidChunk(c))
    ensures Read(Built(bigEndian, riffLength, before, fmt, between, length, data)) != NotWave
  {
    hide Walk, ChunkBytes, ChunksBytes, IntBytes;
    var file := Built(bigEndian, riffLength, before, fmt, between, length, data);
    assert file[..4] == (if bigEndian then RIFX else RIFF) && file[8..12] == WAVE;
  }

  lemma TakeBuilt(bigEndian: bool, before: seq<Chunk>, fmt: Chunk, rest: seq<Byte>)
    requires forall c :: c in before ==> ValidChunk(c) && c.kind != FMT
    requires ValidChunk(fmt) && fmt.kind == FMT
    ensures TakeFmt(ChunksBytes(before, bigEndian) + (ChunkBytes(fmt, bigEndian) + rest), bigEndian)
            == match ParseBody(Padded(fmt.body), bigEndian)
               case Ok(params) => Ok((params, rest))
               case Fail(why) => Fail(why)
  {
    hide FindFmt, ChunkBytes, ChunksBytes, ParseFmt;
    SkipToFmt(before, ChunkBytes(fmt, bigEndian) + rest, bigEndian);
    FoundFmt(fmt, rest, bigEndian);
    var pad: seq<Byte> := if |fmt.body| % 2 == 1 then [0] else [];
    var b, n := fmt.body + (pad + rest), |fmt.body| + |pad|;
    assert b[..n] == Padded(fmt.body) && b[n..] == rest;
    if n >= 16 {
      ParseFmtPrefix(b, n, n, bigEndian);
    }
  }

  lemma FoundFmt(c: Chunk, rest: seq<Byte>, bigEndian: bool)
    requires ValidChunk(c) && c.kind == FMT
    ensures var pad: seq<Byte> := if |c.body| % 2 == 1 then [0] else [];
            var n: nat := |c.body| + |pad|;
            FindFmt(ChunkBytes(c, bigEndian) + rest, bigEndian) == Ok((n, c.body + (pad + rest)))
  {
    hide ChunkBytes, Rounded, Int;
    ChunkHead(c, rest, bigEndian);
  }

  lemma FoundData(length: Word, data: seq<Byte>, bigEndian: bool)
    ensures FindData(DATA + IntBytes(length, bigEndian) + data, bigEndian) == Ok((length, data))
  {
    hide IntBytes, Int, Rounded;
    var b := DATA + IntBytes(length, bigEndian) + data;
    IntAt(DATA, length, data, bigEndian);
    assert b[..4] == DATA && b[8..] == data;
  }

  // ---------- an example ----------

  /** One channel, 44100 samples of 16 bits a second, byte by byte. */
  lemma Example(data: seq<Byte>)
    ensures Read([0x52, 0x49, 0x46, 0x46] + [0x24, 0, 0, 0] + [0x57, 0x41, 0x56, 0x45]
                 + ([0x66, 0x6D, 0x74, 0x20] + [16, 0, 0, 0]
                    + [1, 0, 1, 0, 0x44, 0xAC, 0, 0, 0x88, 0x58, 1, 0, 2, 0, 16, 0]
                    + ([0x64, 0x61, 0x74, 0x61] + [4, 0, 0, 0] + data)))
         == Playable(Params(S16_LE, 1, 44100), 4, data)
  {
    hide Read, ParseBody, IntBytes, FmtBody;
    var f := Fields(1, 1, 44100, 88200, 2, 16);
    LittleExample();
    Laid(false, 0x24, f, 4, data);
    ReadBuilt(false, 0x24, [], Chunk(FMT, FieldBytes(f, false)), [], 4, data);
    FieldsRead(f, [], false);
    assert FieldBytes(f, false) + [] == FieldBytes(f, false);
  }

  /** The same with the highest bytes first. */
  lemma ExampleHighFirst(data: seq<Byte>)
    ensures Read([0x52, 0x49, 0x46, 0x58] + [0, 0, 0, 0x24] + [0x57, 0x41, 0x56, 0x45]
                 + ([0x66, 0x6D, 0x74, 0x20] + [0, 0, 0, 16]
                    + [0, 1, 0, 1, 0, 0, 0xAC, 0x44, 0, 1, 0x58, 0x88, 0, 2, 0, 16]
                    + ([0x64, 0x61, 0x74, 0x61] + [0, 0, 0, 4] + data)))
         == Playable(Params(S16_BE, 1, 44100), 4, data)
  {
    hide Read, ParseBody, IntBytes, FmtBody;
    var f := Fields(1, 1, 44100, 88200, 2, 16);
    BigExample();
    Laid(true, 0x24, f, 4, data);
    ReadBuilt(true, 0x24, [], Chunk(FMT, FieldBytes(f, true)), [], 4, data);
    FieldsRead(f, [], true);
    assert FieldBytes(f, true) + [] == FieldBytes(f, true);
  }

  lemma LittleExample()
    ensures IntBytes(0x24, false) == [0x24, 0, 0, 0] && IntBytes(16, false) == [16, 0, 0, 0]
    ensures IntBytes(4, false) == [4, 0, 0, 0]
    ensures FmtBody(1, 1, 44100, 88200, 2, 16, false)
         == [1, 0, 1, 0, 0x44, 0xAC, 0, 0, 0x88, 0x58, 1, 0, 2, 0, 16, 0]
  {
    assert ShortBytes(1, false) == [1, 0] && ShortBytes(2, false) == [2, 0] && ShortBytes(16, false) == [16, 0];
    assert IntBytes(44100, false) == [0x44, 0xAC, 0, 0] && IntBytes(88200, false) == [0x88, 0x58, 1, 0];
  }

  lemma BigExample()
    ensures IntBytes(0x24, true) == [0, 0, 0, 0x24] && IntBytes(16, true) == [0, 0, 0, 16]
    ensures IntBytes(4, true) == [0, 0, 0, 4]
    ensures FmtBody(1, 1, 44100, 88200, 2, 16, true)
         == [0, 1, 0, 1, 0, 0, 0xAC, 0x44, 0, 1, 0x58, 0x88, 0, 2, 0, 16]
  {
    assert ShortBytes(1, true) == [0, 1] && ShortBytes(2, true) == [0, 2] && ShortBytes(16, true) == [0, 16];
    assert IntBytes(44100, true) == [0, 0, 0xAC, 0x44] && IntBytes(88200, true) == [0, 1, 0x58, 0x88];
  }

  /** A file with no other chunks. */
  lemma Laid(bigEndian: bool, riffLength: Word, f: Fields, length: Word, data: seq<Byte>)
    requires ValidFields(f)
    ensures ValidChunk(Chunk(FMT, FieldBytes(f, bigEndian)))
    ensures Built(bigEndian, riffLength, [], Chunk(FMT, FieldBytes(f, bigEndian)), [], length, data)
         == (if bigEndian then RIFX else RIFF) + IntBytes(riffLength, bigEndian) + WAVE
            + (FMT + IntBytes(16, bigEndian) + FieldBytes(f, bigEndian)
               + (DATA + IntBytes(length, bigEndian) + data))
  {
    hide IntBytes, FmtBody;
    var tail := DATA + IntBytes(length, bigEndian) + data;
    var fmt := FMT + IntBytes(16, bigEndian) + FieldBytes(f, bigEndian);
    assert [] + tail == tail;
    assert fmt + [] == fmt;
    assert [] + (fmt + tail) == fmt + tail;
  }
}

/** The chunk parser: a buffer of look-ahead over a stream that may deliver any part of what is asked. */
module Wav {
  import opened Bits
  import opened Options
  import opened WavSpec

  /** Bytes laid over others from a place on. */
  ghost function Stored(b: seq<Byte>, at: nat, bytes: seq<Byte>): (r: seq<Byte>)
    requires at + |bytes| <= |b|
    ensures |r| == |b|
  {
    b[..at] + bytes + b[at + |bytes|..]
  }

  lemma StoredNothing(b: seq<Byte>, at: nat)
    requires at <= |b|
    ensures Stored(b, at, []) == b
  {
  }

  lemma StoredMore(b: seq<Byte>, at: nat, first: seq<Byte>, second: seq<Byte>)
    requires at + |first| + |second| <= |b|
    ensures Stored(Stored(b, at, first), at + |first|, second) == Stored(b, at, first + second)
  {
  }

  /** What a file descriptor reads from; only a stream with faults ever reports an error. */
  class Stream {
    const data: seq<Byte>
    const faults: bool
    var pos: nat

    ghost predicate Valid()
      reads this
    {
      pos <= |data|
    }

    ghost function Unread(): seq<Byte>
      reads this
      requires Valid()
    {
      data[pos..]
    }

    constructor (data: seq<Byte>, faults: bool)
      ensures Valid() && Unread() == data && this.faults == faults
    {
      this.data, this.faults, pos := data, faults, 0;
    }

    /** One `read`: some of the bytes asked for, 0 only at the end. */
    method Read(buf: array<Byte>, at: nat, count: nat) returns (res: int)
      requires Valid() && 0 < count && at + count <= buf.Length
      modifies `pos, buf
      ensures Valid() && -1 <= res <= count && res <= |old(Unread())|
      ensures res == -1 ==> faults
      ensures res == 0 ==> old(Unread()) == []
      ensures var n := if res < 0 then 0 else res;
              Unread() == old(Unread())[n..] && buf[..] == Stored(old(buf[..]), at, old(Unread())[..n])
    {
      var broken: bool := *;
      if faults && broken {
        return -1;
      }
      if pos == |data| {
        return 0;
      }
      var n: nat :| 1 <= n <= count && n <= |data| - pos;
      forall i | 0 <= i < n {
        buf[at + i] := data[pos + i];
      }
      pos := pos + n;
      res := n;
      assert buf[at..at + n] == data[old(pos)..][..n];
    }
  }

  /** Reads until the count is reached, the stream ends or fails. */
  method SafeRead(fd: Stream, buf: array<Byte>, at: nat, count: nat) returns (result: int)
    requires fd.Valid() && at + count <= buf.Length
    modifies fd`pos, buf
    ensures fd.Valid() && -1 <= result <= count && (result == -1 ==> fd.faults)
    ensures var n: nat := if result < 0 then 0 else result;
            && n <= |old(fd.Unread())| && fd.Unread() == old(fd.Unread())[n..]
            && buf[..] == Stored(old(buf[..]), at, old(fd.Unread())[..n])
    ensures result < count ==> fd.faults || result == |old(fd.Unread())|
  {
    hide Stored;
    ghost var all, before := fd.Unread(), buf[..];
    result := 0;
    StoredNothing(before, at);
    while result < count
      invariant 0 <= result <= count && result <= |all|
      invariant fd.Valid() && fd.Unread() == all[result..]
      invariant buf[..] == Stored(before, at, all[..result])
    {
      StoredNothing(buf[..], at + result);
      assert all[result..][..0] == [];
      var res := fd.Read(buf, at + result, count - result);
      if res == 0 {
        break;
      }
      if res < 0 {
        assert result == 0 ==> all[..0] == all[..result];
        return if result > 0 then result else res;
      }
      StoredMore(before, at, all[..result], all[result..][..res]);
      assert all[..result + res] == all[..result] + all[result..][..res];
      result := result + res;
    }
    assert result < count ==> all[result..] == [];
  }

  /** What is still to be parsed: the bytes held, then the bytes not yet read. */
  ghost function Ahead(fd: Stream, buffer: array<Byte>, size: nat): seq<Byte>
    reads fd, buffer
    requires fd.Valid() && size <= buffer.Length
  {
    buffer[..size] + fd.Unread()
  }

  /** Reads on until so many bytes are held; failing that the program exits. */
  method TestWavefileRead(fd: Stream, buffer: array<Byte>, size: nat, reqsize: nat) returns (ok: bool, newSize: nat)
    requires fd.Valid() && size <= buffer.Length && reqsize <= buffer.Length
    modifies fd`pos, buffer
    ensures fd.Valid() && newSize <= buffer.Length
    ensures ok ==> newSize == (if size >= reqsize then size else reqsize)
                   && Ahead(fd, buffer, newSize) == old(Ahead(fd, buffer, size))
    ensures !ok ==> fd.faults || |old(Ahead(fd, buffer, size))| < reqsize
  {
    if size >= reqsize {
      return true, size;
    }
    ghost var held, unread := buffer[..size], fd.Unread();
    var result := SafeRead(fd, buffer, size, reqsize - size);
    if result != reqsize - size {
      return false, size;
    }
    assert unread == unread[..reqsize - size] + unread[reqsize - size..];
    assert buffer[..reqsize] == held + unread[..reqsize - size];
    return true, reqsize;
  }

  /** Makes room for so many bytes; the limit is the length of the buffer. */
  method CheckWavefileSpace(buffer: array<Byte>, size: nat, len: nat) returns (b: array<Byte>)
    requires size <= buffer.Length
    ensures b == buffer || fresh(b)
    ensures b.Length == (if len > buffer.Length then len else buffer.Length) && b[..size] == buffer[..size]
  {
    if len <= buffer.Length {
      return buffer;
    }
    b := new Byte[len];
    forall i | 0 <= i < size {
      b[i] := buffer[i];
    }
  }

  /** Room, then bytes. */
  method Need(fd: Stream, buffer: array<Byte>, size: nat, len: nat) returns (ok: bool, b: array<Byte>, newSize: nat)
    requires fd.Valid() && size <= buffer.Length
    modifies fd`pos, buffer
    ensures b == buffer || fresh(b)
    ensures fd.Valid() && newSize <= b.Length
    ensures ok ==>
              newSize == (if size >= len then size else len) &&
              Ahead(fd, b, newSize) == old(Ahead(fd, buffer, size))
    ensures !ok ==> fd.faults || |old(Ahead(fd, buffer, size))| < len
  {
    b := CheckWavefileSpace(buffer, size, len);
    assert Ahead(fd, b, size) == old(Ahead(fd, buffer, size));
    ok, newSize := TestWavefileRead(fd, b, size, len);
  }

  /** Drops consumed bytes from the front of the buffer. */
  method Shift(buffer: array<Byte>, size: nat, len: nat) returns (newSize: nat)
    requires len <= size <= buffer.Length
    modifies buffer
    ensures newSize == size - len && buffer[..newSize] == old(buffer[len..size])
  {
    if size > len {
      forall i | 0 <= i < size - len {
        buffer[i] := buffer[len + i];
      }
    }
    newSize := size - len;
  }

  /** The same, in terms of what is ahead. */
  method Drop(fd: Stream, buffer: array<Byte>, size: nat, len: nat) returns (newSize: nat)
    requires fd.Valid() && len <= size <= buffer.Length
    modifies buffer
    ensures fd.Valid() && newSize == size - len && Ahead(fd, buffer, newSize) == old(Ahead(fd, buffer, size))[len..]
  {
    assert buffer[..size][len..] == buffer[len..size];
    newSize := Shift(buffer, size, len);
  }

  /** Brings in `len` bytes and drops them. */
  method Skip(fd: Stream, buffer: array<Byte>, size: nat, len: nat) returns (ok: bool, b: array<Byte>, newSize: nat)
    requires fd.Valid() && size <= buffer.Length
    modifies fd`pos, buffer
    ensures b == buffer || fresh(b)
    ensures fd.Valid() && newSize <= b.Length
    ensures ok ==> newSize <= size && len <= |old(Ahead(fd, buffer, size))|
                   && Ahead(fd, b, newSize) == old(Ahead(fd, buffer, size))[len..]
    ensures !ok ==> fd.faults || |old(Ahead(fd, buffer, size))| < len
  {
    ok, b, newSize := Need(fd, buffer, size, len);
    if ok {
      newSize := Drop(fd, b, newSize, len);
    }
  }

  /** The next chunk header, consumed. */
  method NextHeader(fd: Stream, buffer: array<Byte>, size: nat, bigEndian: bool)
    returns (ok: bool, kind: seq<Byte>, len: Word, b: array<Byte>, newSize: nat)
    requires fd.Valid() && size <= buffer.Length
    modifies fd`pos, buffer
    ensures b == buffer || fresh(b)
    ensures fd.Valid() && newSize <= b.Length
    ensures ok ==> newSize <= size
                   && var all := old(Ahead(fd, buffer, size));
                      && 8 <= |all| && kind == all[..4] && len == Int(all, 4, bigEndian)
                         && Ahead(fd, b, newSize) == all[8..]
    ensures !ok ==> fd.faults || |old(Ahead(fd, buffer, size))| < 8
  {
    hide Int;
    kind, len := [], 0;
    ghost var all := Ahead(fd, buffer, size);
    ok, b, newSize := Need(fd, buffer, size, 8);
    if ok {
      kind := b[..4];
      len := Int(b[..newSize], 4, bigEndian);
      IntOfPrefix(all, newSize, 4, bigEndian);
      assert all[..newSize] == b[..newSize];
      newSize := Drop(fd, b, newSize, 8);
    }
  }

  /** A copy of the bytes held beyond the header of the file. */
  method AfterHeader(fd: Stream, start: array<Byte>, size: nat) returns (buffer: array<Byte>)
    requires fd.Valid() && 12 <= size <= start.Length
    ensures fresh(buffer) && size - 12 <= buffer.Length
    ensures Ahead(fd, buffer, size - 12) == old(Ahead(fd, start, size))[12..]
  {
    buffer := new Byte[size - 12];
    forall i | 0 <= i < size - 12 {
      buffer[i] := start[12 + i];
    }
    assert buffer[..] == start[..size][12..];
  }

  /** What is left in the buffer, copied back to the caller. */
  method GiveBack(fd: Stream, buffer: array<Byte>, start: array<Byte>, size: nat)
    requires fd.Valid() && size <= start.Length && size <= buffer.Length && start != buffer
    modifies start
    ensures fd.Valid() && Ahead(fd, start, size) == old(Ahead(fd, buffer, size))
  {
    forall i | 0 <= i < size {
      start[i] := buffer[i];
    }
    assert start[..size] == buffer[..size];
  }

  /** Up to and including the header of the first 'fmt ' chunk. */
  method ToFmt(fd: Stream, buffer: array<Byte>, size: nat, bigEndian: bool)
    returns (ok: bool, len: Word, b: array<Byte>, newSize: nat)
    requires fd.Valid() && size <= buffer.Length
    modifies fd`pos, buffer
    ensures b == buffer || fresh(b)
    ensures fd.Valid() && newSize <= b.Length
    ensures ok ==>
              newSize <= size && FindFmt(old(Ahead(fd, buffer, size)), bigEndian) == Ok((len, Ahead(fd, b, newSize)))
    ensures !ok ==> fd.faults || FindFmt(old(Ahead(fd, buffer, size)), bigEndian) == Fail(ReadError)
  {
    hide Int, Rounded;
    ghost var found := FindFmt(Ahead(fd, buffer, size), bigEndian);
    b, newSize := buffer, size;
    while true
      invariant b == buffer || fresh(b)
      invariant fd.Valid() && newSize <= b.Length && newSize <= size
      invariant FindFmt(Ahead(fd, b, newSize), bigEndian) == found
      decreases |Ahead(fd, b, newSize)|
    {
      var kind;
      ok, kind, len, b, newSize := NextHeader(fd, b, newSize, bigEndian);
      if !ok {
        return;
      }
      len := Rounded(len);
      if kind == FMT {
        return;
      }
      ok, b, newSize := Skip(fd, b, newSize, len);
      if !ok {
        return;
      }
    }
  }

  /** Up to and including the header of the first 'data' chunk. */
  method ToData(fd: Stream, buffer: array<Byte>, size: nat, bigEndian: bool)
    returns (ok: bool, len: Word, b: array<Byte>, newSize: nat)
    requires fd.Valid() && size <= buffer.Length
    modifies fd`pos, buffer
    ensures b == buffer || fresh(b)
    ensures fd.Valid() && newSize <= b.Length
    ensures ok ==>
              newSize <= size && FindData(old(Ahead(fd, buffer, size)), bigEndian) == Ok((len, Ahead(fd, b, newSize)))
    ensures !ok ==> fd.faults || FindData(old(Ahead(fd, buffer, size)), bigEndian) == Fail(ReadError)
  {
    hide Int, Rounded;
    ghost var found := FindData(Ahead(fd, buffer, size), bigEndian);
    b, newSize := buffer, size;
    while true
      invariant b == buffer || fresh(b)
      invariant fd.Valid() && newSize <= b.Length && newSize <= size
      invariant FindData(Ahead(fd, b, newSize), bigEndian) == found
      decreases |Ahead(fd, b, newSize)|
    {
      var kind;
      ok, kind, len, b, newSize := NextHeader(fd, b, newSize, bigEndian);
      if !ok || kind == DATA {
        return;
      }
      len := Rounded(len);
      ok, b, newSize := Skip(fd, b, newSize, len);
      if !ok {
        return;
      }
    }
  }

  datatype Outcome = NotAWave | Size(size: nat) | Exited(why: Failure)

  /** The parameters of the device and the number of bytes to play. */
  class Player {
    var format: SampleFormat
    var channels: nat
    var rate: nat
    var pbrecCount: nat

    constructor ()
      ensures format == U8 && channels == 1 && rate == 8000 && pbrecCount == 0x7FFF_FFFF_FFFF_FFFF
    {
      format, channels, rate, pbrecCount := U8, 1, 8000, 0x7FFF_FFFF_FFFF_FFFF;
    }

    /** The width of a sample, from the tag and the bits. */
    method SetFormat(tag: nat, bits: nat, bytesPerFrame: nat, bigEndian: bool) returns (why: Option<Failure>)
      requires channels > 0 && tag in {FMT_PCM, FMT_IEEE_FLOAT}
      modifies `format
      ensures match Sample(tag, bits, bytesPerFrame, channels, bigEndian)
              case Ok(f) => why == None && format == f
              case Fail(w) => why == Some(w)
    {
      why := None;
      match bits
      case 8 =>
        format := U8;
      case 16 =>
        format := if bigEndian then S16_BE else S16_LE;
      case 24 =>
        match bytesPerFrame / channels {
          case 3 =>
            format := if bigEndian then S24_3BE else S24_3LE;
          case 4 =>
            format := if bigEndian then S24_BE else S24_LE;
          case _ =>
            why := Some(WrongWidth);
        }
      case 32 =>
        if tag == FMT_PCM {
          format := if bigEndian then S32_BE else S32_LE;
        } else if tag == FMT_IEEE_FLOAT {
          format := if bigEndian then FLOAT_BE else FLOAT_LE;
        }
      case _ =>
        why := Some(WrongBits);
    }

    /** The 'fmt ' chunk at the front of the buffer. */
    method SetParams(buffer: array<Byte>, size: nat, len: nat, bigEndian: bool) returns (why: Option<Failure>)
      requires 16 <= len <= size <= buffer.Length
      modifies `format, `channels, `rate
      ensures match ParseFmt(buffer[..size], len, bigEndian)
              case Ok(p) => why == None && p == Params(format, channels, rate)
              case Fail(w) => why == Some(w)
    {
      hide Short, Int, Sample;
      var f := buffer[..size];
      var tag := Short(f, 0, bigEndian);
      if tag == FMT_EXTENSIBLE {
        if len < 40 {
          return Some(ShortExtensible);
        }
        if f[26..40] != GUID_TAG {
          return Some(WrongTag);
        }
        tag := Short(f, 24, bigEndian);
      }
      if tag != FMT_PCM && tag != FMT_IEEE_FLOAT {
        return Some(NotPcmOrFloat);
      }
      var tracks := Short(f, 2, bigEndian);
      if tracks < 1 {
        return Some(NoTracks);
      }
      channels := tracks;
      why := SetFormat(tag, Short(f, 14, bigEndian), Short(f, 12, bigEndian), bigEndian);
      if why == None {
        rate := Int(f, 4, bigEndian);
      }
    }

    /** Chunks up to and including the first 'fmt ' chunk. */
    method PassFmt(fd: Stream, buffer: array<Byte>, size: nat, bigEndian: bool)
      returns (why: Option<Failure>, b: array<Byte>, held: nat)
      requires fd.Valid() && size <= buffer.Length
      modifies fd`pos, buffer, `format, `channels, `rate
      ensures b == buffer || fresh(b)
      ensures fd.Valid() && held <= b.Length
      ensures why == None ==> held <= size
      ensures why == None ==>
        TakeFmt(old(Ahead(fd, buffer, size)), bigEndian) == Ok((Params(format, channels, rate), Ahead(fd, b, held)))
      ensures why.Some? ==> (fd.faults && why.value == ReadError)
                            || TakeFmt(old(Ahead(fd, buffer, size)), bigEndian) == Fail(why.value)
    {
      hide FindFmt, ParseFmt, Ahead;
      var ok, len;
      ok, len, b, held := ToFmt(fd, buffer, size, bigEndian);
      if !ok {
        return Some(ReadError), b, held;
      }
      if len < 16 {
        return Some(ShortFmt), b, held;
      }
      ghost var body := Ahead(fd, b, held);
      ok, b, held := Need(fd, b, held, len);
      if !ok {
        return Some(ReadError), b, held;
      }
      HeldIsPrefix(fd, b, held);
      ParseFmtPrefix(body, held, len, bigEndian);
      why := SetParams(b, held, len, bigEndian);
      if why == None {
        held := Drop(fd, b, held, len);
      }
    }

    /** The chunks: what is left in the buffer and then the stream are the data. */
    method PassChunks(fd: Stream, buffer: array<Byte>, size: nat, bigEndian: bool)
      returns (outcome: Outcome, b: array<Byte>)
      requires fd.Valid() && size <= buffer.Length
      modifies fd`pos, buffer, this
      ensures b == buffer || fresh(b)
      ensures fd.Valid() && outcome != NotAWave
      ensures outcome.Size? ==>
        && outcome.size <= size && outcome.size <= b.Length
        && match Walk(old(Ahead(fd, buffer, size)), bigEndian)
           case Playable(params, length, data) =>
             && params == Params(format, channels, rate)
             && Ahead(fd, b, outcome.size) == data
             && pbrecCount == (if length < old(pbrecCount) && length < 0x7ffffffe then length else old(pbrecCount))
           case _ => false
      ensures outcome.Exited? ==> (fd.faults && outcome.why == ReadError)
                                  || Walk(old(Ahead(fd, buffer, size)), bigEndian) == Broken(outcome.why)
    {
      hide TakeFmt, FindData, Ahead;
      var why, ok, len, held;
      why, b, held := PassFmt(fd, buffer, size, bigEndian);
      if why.Some? {
        return Exited(why.value), b;
      }
      ok, len, b, held := ToData(fd, b, held, bigEndian);
      if !ok {
        return Exited(ReadError), b;
      }
      if len < pbrecCount && len < 0x7ffffffe {
        pbrecCount := len;
      }
      return Size(held), b;
    }

    /** The header is in `start`, with any number of further bytes; the rest is still in the stream.
        On success the bytes left in `start` and then the stream are the data. */
    method TestWavefile(fd: Stream, start: array<Byte>, size: nat) returns (outcome: Outcome)
      requires fd.Valid() && size <= start.Length
      modifies fd`pos, start, this
      ensures fd.Valid()
      ensures outcome == NotAWave <==> size < 12 || Read(old(start[..size])) == NotWave
      ensures outcome == NotAWave ==> start[..] == old(start[..]) && fd.pos == old(fd.pos)
      ensures outcome.Size? ==>
        && outcome.size <= size - 12
        && match Read(old(Ahead(fd, start, size)))
           case Playable(params, length, data) =>
             && params == Params(format, channels, rate)
             && Ahead(fd, start, outcome.size) == data
             && pbrecCount == (if length < old(pbrecCount) && length < 0x7ffffffe then length else old(pbrecCount))
           case _ => false
      ensures outcome.Exited? ==> (fd.faults && outcome.why == ReadError)
                                  || Read(old(Ahead(fd, start, size))) == Broken(outcome.why)
    {
      hide Walk, Ahead;
      if size < 12 {
        return NotAWave;
      }
      ghost var whole, head := Ahead(fd, start, size), start[..size];
      HeaderOf(fd, start, size);
      assert start[..4] == head[..4] && start[8..12] == head[8..12];
      if start[..4] != RIFF && start[..4] != RIFX {
        return NotAWave;
      }
      var bigEndian := start[..4] == RIFX;
      if start[8..12] != WAVE {
        return NotAWave;
      }
      var buffer := AfterHeader(fd, start, size);
      outcome, buffer := PassChunks(fd, buffer, size - 12, bigEndian);
      if outcome.Size? {
        GiveBack(fd, buffer, start, outcome.size);
      }
    }

    /** A file built chunk by chunk is played with what its header says, and not played at all if that
        makes no sense. */
    method PlayBuilt(fd: Stream, start: array<Byte>, size: nat, ghost bigEndian: bool, ghost riffLength: Word,
                     ghost before: seq<Chunk>, ghost f: Fields, ghost extra: seq<Byte>, ghost between: seq<Chunk>,
                     ghost length: Word, ghost data: seq<Byte>)
      returns (outcome: Outcome)
      requires fd.Valid() && 12 <= size <= start.Length
      requires forall c :: c in before ==> ValidChunk(c) && c.kind != FMT
      requires ValidFields(f) && f.tag != FMT_EXTENSIBLE && ValidChunk(Chunk(FMT, FieldBytes(f, bigEndian) + extra))
      requires forall c :: c in between ==> ValidChunk(c) && c.kind != DATA
      requires Ahead(fd, start, size) == Built(bigEndian, riffLength, before,
                                               Chunk(FMT, FieldBytes(f, bigEndian) + extra), between, length, data)
      modifies fd`pos, start, this
      ensures outcome != NotAWave
      ensures !fd.faults ==> (outcome.Size? <==> Playing(f.tag, f.channels, f.frame, f.bits))
      ensures outcome.Size? ==>
        && channels == f.channels && rate == f.rate
        && LayoutOf(format).bits == f.bits
        && (f.bits > 8 ==> (LayoutOf(format).highFirst <==> bigEndian))
        && (LayoutOf(format).float <==> f.bits == 32 && f.tag == FMT_IEEE_FLOAT)
        && (f.bits == 24 ==> f.channels > 0 && LayoutOf(format).bytes == f.frame / f.channels)
        && outcome.size <= start.Length && fd.Valid() && Ahead(fd, start, outcome.size) == data
    {
      hide Ahead, Built, ParseBody, ParseFields, LayoutOf, FieldBytes, Playing;
      ghost var fmt := Chunk(FMT, FieldBytes(f, bigEndian) + extra);
      BuiltIsWave(bigEndian, riffLength, before, fmt, between, length, data);
      ReadBuilt(bigEndian, riffLength, before, fmt, between, length, data);
      FieldsRead(f, extra, bigEndian);
      FieldsMean(f.tag, f.channels, f.rate, f.frame, f.bits, bigEndian);
      HeldIsPrefix(fd, start, size);
      ReadOfPrefix(Ahead(fd, start, size), size);
      outcome := TestWavefile(fd, start, size);
    }
  }

  lemma ReadOfPrefix(file: seq<Byte>, n: nat)
    requires 12 <= n <= |file|
    ensures Read(file[..n]) == NotWave <==> Read(file) == NotWave
  {
    hide Walk;
    assert file[..n][..4] == file[..4] && file[..n][8..12] == file[8..12];
  }

  /** The header can be judged from the bytes held. */
  lemma HeaderOf(fd: Stream, start: array<Byte>, size: nat)
    requires fd.Valid() && 12 <= size <= start.Length
    ensures var all := Ahead(fd, start, size);
            12 <= |all| && all[..4] == start[..size][..4] && all[8..12] == start[..size][8..12]
  {
  }

  lemma HeldIsPrefix(fd: Stream, buffer: array<Byte>, size: nat)
    requires fd.Valid() && size <= buffer.Length
    ensures size <= |Ahead(fd, buffer, size)| && Ahead(fd, buffer, size)[..size] == buffer[..size]
  {
  }
}
