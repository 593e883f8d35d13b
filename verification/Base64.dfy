/** Base 64 as section 4 of RFC 4648 defines it, its line-broken forms, and the mail decoder as a
    state machine over the input text. */
module Base64Spec {
  import opened Bits
  import opened Options

  /** Table 1: 'A' to 'Z', 'a' to 'z', '0' to '9', '+', '/'. */
  function Letter(n: nat): char
    requires n < 64
  {
    if n < 26 then ('A' as nat + n) as char
    else if n < 52 then ('a' as nat + n - 26) as char
    else if n < 62 then ('0' as nat + n - 52) as char
    else if n == 62 then '+'
    else '/'
  }

  /** The same as one string, as the encoders have it. */
  const ALPHABET: string := "ABCDEFGHIJKLMNOPQRSTUVWXYZ" + "abcdefghijklmnopqrstuvwxyz" + "0123456789+/"

  lemma AlphabetIs(n: nat)
    requires n < 64
    ensures |ALPHABET| == 64 && ALPHABET[n] == Letter(n)
  {
    if n < 26 {
      UpperCase(n);
    } else if n < 52 {
      LowerCase(n - 26);
    } else {
      DigitsAndSigns(n - 52);
    }
  }

  lemma UpperCase(n: nat)
    requires n < 26
    ensures "ABCDEFGHIJKLMNOPQRSTUVWXYZ"[n] == ('A' as nat + n) as char
  {
  }

  lemma LowerCase(n: nat)
    requires n < 26
    ensures "abcdefghijklmnopqrstuvwxyz"[n] == ('a' as nat + n) as char
  {
  }

  lemma DigitsAndSigns(n: nat)
    requires n < 12
    ensures "0123456789+/"[n] == Letter(52 + n)
  {
  }

  /** The four letters of a 24-bit group. */
  function Group(g: nat): (quad: string)
    requires g < 0x100_0000
    ensures |quad| == 4
  {
    [Letter(g / 0x4_0000), Letter(g / 0x1000 % 64), Letter(g / 64 % 64), Letter(g % 64)]
  }

  function Quad(b0: Byte, b1: Byte, b2: Byte): (quad: string)
    ensures |quad| == 4
  {
    Group(b0 * 0x1_0000 + b1 * 0x100 + b2)
  }

  /** A last group that is short is filled with zero bits, and '=' stands for the missing letters. */
  function Encode(b: seq<Byte>): string
    decreases |b|
  {
    if |b| == 0 then ""
    else if |b| == 1 then Quad(b[0], 0, 0)[..2] + "=="
    else if |b| == 2 then Quad(b[0], b[1], 0)[..3] + "="
    else Quad(b[0], b[1], b[2]) + Encode(b[3..])
  }

  /** A group from its four six-bit digits. */
  lemma GroupOf(d0: nat, d1: nat, d2: nat, d3: nat)
    requires d0 < 64 && d1 < 64 && d2 < 64 && d3 < 64
    ensures Group(((d0 * 64 + d1) * 64 + d2) * 64 + d3) == [Letter(d0), Letter(d1), Letter(d2), Letter(d3)]
  {
    hide Letter;
    var g := ((d0 * 64 + d1) * 64 + d2) * 64 + d3;
    QuotientIs(g, 64, (d0 * 64 + d1) * 64 + d2, d3);
    QuotientIs(g, 0x1000, d0 * 64 + d1, d2 * 64 + d3);
    QuotientIs(g, 0x4_0000, d0, (d1 * 64 + d2) * 64 + d3);
    QuotientIs((d0 * 64 + d1) * 64 + d2, 64, d0 * 64 + d1, d2);
    QuotientIs(d0 * 64 + d1, 64, d0, d1);
  }

  /** The groups of "foo", "bar" and what is left of them when they are cut short. */
  lemma FooBar()
    ensures Quad(0x66, 0, 0) == "ZgAA" && Quad(0x66, 0x6F, 0) == "Zm8A" && Quad(0x66, 0x6F, 0x6F) == "Zm9v"
    ensures Quad(0x62, 0, 0) == "YgAA" && Quad(0x62, 0x61, 0) == "YmEA" && Quad(0x62, 0x61, 0x72) == "YmFy"
  {
    hide Group;
    GroupOf(25, 32, 0, 0);
    GroupOf(25, 38, 60, 0);
    GroupOf(25, 38, 61, 47);
    GroupOf(24, 32, 0, 0);
    GroupOf(24, 38, 4, 0);
    GroupOf(24, 38, 5, 50);
  }

  /** The test vectors of section 10 of RFC 4648: "", "f", "fo" and so on up to "foobar". */
  lemma Vectors()
    ensures Encode([]) == "" && Encode([0x66]) == "Zg==" && Encode([0x66, 0x6F]) == "Zm8="
    ensures Encode([0x66, 0x6F, 0x6F]) == "Zm9v"
    ensures Encode([0x66, 0x6F, 0x6F, 0x62]) == "Zm9vYg=="
    ensures Encode([0x66, 0x6F, 0x6F, 0x62, 0x61]) == "Zm9vYmE="
    ensures Encode([0x66, 0x6F, 0x6F, 0x62, 0x61, 0x72]) == "Zm9vYmFy"
  {
    hide Quad;
    FooBar();
    assert [0x66, 0x6F, 0x6F][3..] == [];
    assert [0x66, 0x6F, 0x6F, 0x62][3..] == [0x62];
    assert [0x66, 0x6F, 0x6F, 0x62, 0x61][3..] == [0x62, 0x61];
    assert [0x66, 0x6F, 0x6F, 0x62, 0x61, 0x72][3..] == [0x62, 0x61, 0x72];
    assert [0x62, 0x61, 0x72][3..] == [];
  }

  lemma {:induction false} EncodedLength(b: seq<Byte>)
    ensures |Encode(b)| == (|b| + 2) / 3 * 4
    decreases |b|
  {
    hide Quad;
    if |b| >= 3 { EncodedLength(b[3..]); }
  }

  // ---------- line breaks ----------

  const CRLF: string := "\r\n"

  /** `t` broken by CRLF after every `w` characters, when `col` of them already stand on the first
      line. The end is a CRLF too, unless the last line is empty and `always` is false. */
  function Wrap(w: nat, always: bool, col: nat, t: string): string
    decreases |t|
  {
    if t == "" then
      if always || col > 0 then CRLF else ""
    else if col + 1 == w then
      [t[0]] + CRLF + Wrap(w, always, 0, t[1..])
    else
      [t[0]] + Wrap(w, always, col + 1, t[1..])
  }

  /** Line by line: `w` characters and a line break, as long as there are so many. */
  lemma {:induction false} WrapByLines(w: nat, always: bool, col: nat, t: string)
    requires col < w
    ensures |t| >= w - col ==>
              Wrap(w, always, col, t) == t[..w - col] + ['\r', '\n'] + Wrap(w, always, 0, t[w - col..])
    ensures |t| < w - col ==>
              Wrap(w, always, col, t) == t + if t != "" || col > 0 || always then ['\r', '\n'] else []
    decreases |t|
  {
    if t == "" {
    } else if col + 1 == w {
      assert t[..1] == [t[0]];
    } else {
      WrapByLines(w, always, col + 1, t[1..]);
      if |t| >= w - col {
        assert t[..w - col] == [t[0]] + t[1..][..w - (col + 1)];
        assert t[1..][w - (col + 1)..] == t[w - col..];
      } else {
        assert t == [t[0]] + t[1..];
      }
    }
  }

  lemma {:induction false} Wrapped60Length(col: nat, t: string)
    requires col < 60
    ensures |Wrap(60, true, col, t)| == |t| + 2 * ((col + |t|) / 60) + 2
    decreases |t|
  {
    if t != "" { Wrapped60Length((col + 1) % 60, t[1..]); }
  }

  lemma {:induction false} Wrapped72Length(col: nat, t: string)
    requires col < 72
    ensures |Wrap(72, false, col, t)| == |t| + 2 * ((col + |t| + 71) / 72)
    decreases |t|
  {
    if t != "" { Wrapped72Length((col + 1) % 72, t[1..]); }
  }

  predicate IsBreak(c: char) {
    c == '\r' || c == '\n'
  }

  function DeleteBreaks(t: string): string {
    if t == "" then "" else if IsBreak(t[0]) then DeleteBreaks(t[1..]) else [t[0]] + DeleteBreaks(t[1..])
  }

  /** Deleting the line breaks undoes the wrapping. */
  lemma {:induction false} UnwrapWrap(w: nat, always: bool, col: nat, t: string)
    requires forall c :: c in t ==> !IsBreak(c)
    ensures DeleteBreaks(Wrap(w, always, col, t)) == t
    decreases |t|
  {
    if t == "" {
      LeadingBreak("");
    } else {
      var next := if col + 1 == w then 0 else col + 1;
      var rest := Wrap(w, always, next, t[1..]);
      UnwrapWrap(w, always, next, t[1..]);
      LeadingBreak(rest);
      assert ([t[0]] + (CRLF + rest))[1..] == CRLF + rest && ([t[0]] + rest)[1..] == rest;
      assert [t[0]] + CRLF + rest == [t[0]] + (CRLF + rest);
    }
  }

  lemma LeadingBreak(t: string)
    ensures DeleteBreaks(CRLF + t) == DeleteBreaks(t)
  {
    assert (CRLF + t)[1..] == ['\n'] + t && (['\n'] + t)[1..] == t;
  }

  /** No line of `t` runs past column `w`, when `col` characters already stand on the first one. */
  predicate FitsLines(t: string, col: nat, w: nat) {
    t != "" ==>
      if IsBreak(t[0]) then FitsLines(t[1..], 0, w) else col < w && FitsLines(t[1..], col + 1, w)
  }

  lemma {:induction false} WrappedFits(w: nat, always: bool, col: nat, t: string)
    requires col < w && forall c :: c in t ==> !IsBreak(c)
    ensures FitsLines(Wrap(w, always, col, t), col, w)
    decreases |t|
  {
    if t == "" {
      assert CRLF[1..] == "\n" && "\n"[1..] == "";
    } else {
      var rest := Wrap(w, always, if col + 1 == w then 0 else col + 1, t[1..]);
      WrappedFits(w, always, if col + 1 == w then 0 else col + 1, t[1..]);
      assert ([t[0]] + CRLF + rest)[1..] == CRLF + rest;
      assert (CRLF + rest)[1..] == ['\n'] + rest && (['\n'] + rest)[1..] == rest;
      assert FitsLines(rest, 0, w) ==> FitsLines(['\n'] + rest, 0, w) && FitsLines(CRLF + rest, col + 1, w);
      assert ([t[0]] + rest)[1..] == rest;
    }
  }

  lemma {:induction false} FitsWider(t: string, col: nat, w: nat, wider: nat)
    requires FitsLines(t, col, w) && w <= wider
    ensures FitsLines(t, col, wider)
    decreases |t|
  {
    if t != "" {
      FitsWider(t[1..], if IsBreak(t[0]) then 0 else col + 1, w, wider);
    }
  }

  /** One quad of the text, in lines of a whole number of quads. */
  lemma WrapQuad(w: nat, always: bool, col: nat, quad: string, t: string)
    requires |quad| == 4 && col % 4 == 0 && w % 4 == 0 && col < w
    ensures Wrap(w, always, col, quad + t)
         == quad + (if col + 4 == w then CRLF + Wrap(w, always, 0, t) else Wrap(w, always, col + 4, t))
  {
    var s := quad + t;
    assert s[1..] == [quad[1], quad[2], quad[3]] + t && s[1..][1..] == [quad[2], quad[3]] + t;
    assert s[1..][1..][1..] == [quad[3]] + t && s[1..][1..][1..][1..] == t;
    assert Wrap(w, always, col + 3, [quad[3]] + t)
        == [quad[3]] + (if col + 4 == w then CRLF + Wrap(w, always, 0, t) else Wrap(w, always, col + 4, t));
    assert Wrap(w, always, col + 2, [quad[2], quad[3]] + t) == [quad[2]] + Wrap(w, always, col + 3, [quad[3]] + t);
  }

  // ---------- decoding ----------

  const PAD: nat := 64
  const JUNK: nat := 127

  /** The decoding table of the mail decoder, by rows. */
  function Value(c: char): (v: nat)
    ensures v < 64 || v == PAD || v == JUNK
  {
    if 'A' <= c <= 'Z' then c as nat - 'A' as nat
    else if 'a' <= c <= 'z' then c as nat - 'a' as nat + 26
    else if '0' <= c <= '9' then c as nat - '0' as nat + 52
    else if c == '+' then 62
    else if c == '/' then 63
    else if c == '=' then PAD
    else JUNK
  }

  /** The table as it stands in the decoder, sixteen entries to the row. */
  function Row(r: nat): (row: seq<nat>)
    requires r < 16
    ensures |row| == 16
  {
    match r
    case 2 => [JUNK, JUNK, JUNK, JUNK, JUNK, JUNK, JUNK, JUNK, JUNK, JUNK, JUNK, 62, JUNK, JUNK, JUNK, 63]
    case 3 => [52, 53, 54, 55, 56, 57, 58, 59, 60, 61, JUNK, JUNK, JUNK, PAD, JUNK, JUNK]
    case 4 => [JUNK, 0, 1, 2, 3, 4, 5, 6, 7, 8, 9, 10, 11, 12, 13, 14]
    case 5 => [15, 16, 17, 18, 19, 20, 21, 22, 23, 24, 25, JUNK, JUNK, JUNK, JUNK, JUNK]
    case 6 => [JUNK, 26, 27, 28, 29, 30, 31, 32, 33, 34, 35, 36, 37, 38, 39, 40]
    case 7 => [41, 42, 43, 44, 45, 46, 47, 48, 49, 50, 51, JUNK, JUNK, JUNK, JUNK, JUNK]
    case _ => [JUNK, JUNK, JUNK, JUNK, JUNK, JUNK, JUNK, JUNK, JUNK, JUNK, JUNK, JUNK, JUNK, JUNK, JUNK, JUNK]
  }

  lemma TableIs(r: nat, k: nat)
    requires r < 16 && k < 16
    ensures Value((16 * r + k) as char) == Row(r)[k]
  {
    hide Value, Row;
    match r
    case 2 => RowTwo(k);
    case 3 => RowThree(k);
    case 4 => RowFour(k);
    case 5 => RowFive(k);
    case 6 => RowSix(k);
    case 7 => RowSeven(k);
    case _ => OtherRows(r, k);
  }

  lemma RowTwo(k: nat)
    requires k < 16
    ensures Value((32 + k) as char) == Row(2)[k]
  {
  }

  lemma RowThree(k: nat)
    requires k < 16
    ensures Value((48 + k) as char) == Row(3)[k]
  {
  }

  lemma RowFour(k: nat)
    requires k < 16
    ensures Value((64 + k) as char) == Row(4)[k]
  {
  }

  lemma RowFive(k: nat)
    requires k < 16
    ensures Value((80 + k) as char) == Row(5)[k]
  {
  }

  lemma RowSix(k: nat)
    requires k < 16
    ensures Value((96 + k) as char) == Row(6)[k]
  {
  }

  lemma RowSeven(k: nat)
    requires k < 16
    ensures Value((112 + k) as char) == Row(7)[k]
  {
  }

  lemma OtherRows(r: nat, k: nat)
    requires r < 2 || 8 <= r < 16
    requires k < 16
    ensures Value((16 * r + k) as char) == Row(r)[k]
  {
  }

  lemma ValueOfLetter(n: nat)
    requires n < 64
    ensures Value(Letter(n)) == n && Letter(n) != '=' && !IsBreak(Letter(n))
  {
  }

  /** What the decoder makes of `src` from quantum position `e`, with `cur` the byte being filled
      and `out` the bytes finished. */
  function Decode(src: string, e: nat, cur: Byte, out: seq<Byte>): (r: Option<seq<Byte>>)
    requires e < 4
    decreases |src|
  {
    if src == "" then Some(out)
    else
      var c, rest := Value(src[0]), src[1..];
      if c == JUNK then Decode(rest, e, cur, out)
      else if c == PAD then
        if e == 3 then Some(out)
        else if e == 2 && rest != "" && rest[0] == '=' then Decode(rest, 3, cur, out)
        else None
      else if e == 0 then Decode(rest, 1, c * 4 % 256, out)
      else if e == 1 then Decode(rest, 2, c * 16 % 256, out + [OrLow(cur, c / 16)])
      else if e == 2 then Decode(rest, 3, c * 64 % 256, out + [OrLow(cur, c / 4)])
      else Decode(rest, 0, 0, out + [OrLow(cur, c)])
  }

  function OrLow(x: Byte, y: Byte): Byte {
    Pow2Constants(); Bounded(x, y, 8); Or(x, y)
  }

  /** Encoded text consists of letters and, at the end, pads; no line breaks, no junk. */
  lemma {:induction false} EncodedCharacters(b: seq<Byte>)
    ensures forall c :: c in Encode(b) ==> Value(c) <= PAD && !IsBreak(c)
    decreases |b|
  {
    if |b| == 0 {
    } else if |b| == 1 {
      QuadLetters(b[0], 0, 0);
    } else if |b| == 2 {
      QuadLetters(b[0], b[1], 0);
    } else {
      QuadLetters(b[0], b[1], b[2]);
      EncodedCharacters(b[3..]);
    }
  }

  /** Both line-broken forms stay within the 76 columns of section 6.8 of RFC 2045, and within their own. */
  lemma LinesWithin76(b: seq<Byte>)
    ensures FitsLines(Wrap(60, true, 0, Encode(b)), 0, 60) && FitsLines(Wrap(60, true, 0, Encode(b)), 0, 76)
    ensures FitsLines(Wrap(72, false, 0, Encode(b)), 0, 72) && FitsLines(Wrap(72, false, 0, Encode(b)), 0, 76)
  {
    hide *;
    EncodedCharacters(b);
    WrappedFits(60, true, 0, Encode(b));
    FitsWider(Wrap(60, true, 0, Encode(b)), 0, 60, 76);
    WrappedFits(72, false, 0, Encode(b));
    FitsWider(Wrap(72, false, 0, Encode(b)), 0, 72, 76);
  }

  lemma QuadLetters(b0: Byte, b1: Byte, b2: Byte)
    ensures forall c :: c in Quad(b0, b1, b2) ==> Value(c) < PAD && !IsBreak(c) && c != '='
  {
    hide Letter, Value, IsBreak;
    var g := b0 * 0x1_0000 + b1 * 0x100 + b2;
    ValueOfLetter(g / 0x4_0000);
    ValueOfLetter(g / 0x1000 % 64);
    ValueOfLetter(g / 64 % 64);
    ValueOfLetter(g % 64);
  }

  /** The sextets of a group, in terms of its bytes. */
  lemma QuadForms(b0: Byte, b1: Byte, b2: Byte)
    ensures Quad(b0, b1, b2)
         == [Letter(b0 / 4), Letter(b0 % 4 * 16 + b1 / 16), Letter(b1 % 16 * 4 + b2 / 64), Letter(b2 % 64)]
  {
    var g := b0 * 0x1_0000 + b1 * 0x100 + b2;
    QuotientIs(g, 0x4_0000, b0 / 4, b0 % 4 * 0x1_0000 + b1 * 0x100 + b2);
    QuotientIs(g, 0x1000, b0 * 16 + b1 / 16, b1 % 16 * 0x100 + b2);
    QuotientIs(g, 64, b0 * 0x400 + b1 * 4 + b2 / 64, b2 % 64);
    QuotientIs(b0 * 16 + b1 / 16, 64, b0 / 4, b0 % 4 * 16 + b1 / 16);
    QuotientIs(b0 * 0x400 + b1 * 4 + b2 / 64, 64, b0 * 16 + b1 / 16, b1 % 16 * 4 + b2 / 64);
  }

  /** Shifting sextets into place and joining them by OR gives the bytes back. */
  lemma SextetsRejoin(b0: Byte, b1: Byte, b2: Byte)
    ensures OrLow(b0 / 4 * 4 % 256, (b0 % 4 * 16 + b1 / 16) / 16) == b0
    ensures OrLow((b0 % 4 * 16 + b1 / 16) * 16 % 256, (b1 % 16 * 4 + b2 / 64) / 4) == b1
    ensures OrLow((b1 % 16 * 4 + b2 / 64) * 64 % 256, b2 % 64) == b2
  {
    hide Or;
    Pow2Constants();
    OrIsPlus(b0 / 4, b0 % 4, 2);
    OrIsPlus(b1 / 16, b1 % 16, 4);
    OrIsPlus(b2 / 64, b2 % 64, 6);
    QuotientIs(b0 % 4 * 16 + b1 / 16, 16, b0 % 4, b1 / 16);
    QuotientIs((b0 % 4 * 16 + b1 / 16) * 16, 256, b0 % 4, b1 / 16 * 16);
    QuotientIs(b1 % 16 * 4 + b2 / 64, 4, b1 % 16, b2 / 64);
    QuotientIs((b1 % 16 * 4 + b2 / 64) * 64, 256, b1 % 16, b2 / 64 * 64);
  }

  /** A data character moves the decoder on by one quantum position. */
  lemma DecodeLetter(n: nat, t: string, e: nat, cur: Byte, out: seq<Byte>)
    requires n < 64 && e < 4
    ensures Decode([Letter(n)] + t, e, cur, out)
         == if e == 0 then Decode(t, 1, n * 4 % 256, out)
            else if e == 1 then Decode(t, 2, n * 16 % 256, out + [OrLow(cur, n / 16)])
            else if e == 2 then Decode(t, 3, n * 64 % 256, out + [OrLow(cur, n / 4)])
            else Decode(t, 0, 0, out + [OrLow(cur, n)])
  {
    hide OrLow, Letter;
    ValueOfLetter(n);
    assert ([Letter(n)] + t)[1..] == t;
  }

  lemma DecodeTwoLetters(b0: Byte, b1: Byte, t: string, cur: Byte, out: seq<Byte>)
    ensures Decode(Quad(b0, b1, 0)[..2] + t, 0, cur, out)
              == Decode(t, 2, (b0 % 4 * 16 + b1 / 16) * 16 % 256, out + [b0])
  {
    hide OrLow, Letter, Decode, Quad;
    var n0, n1 := b0 / 4, b0 % 4 * 16 + b1 / 16;
    QuadForms(b0, b1, 0);
    SextetsRejoin(b0, b1, 0);
    assert Quad(b0, b1, 0)[..2] + t == [Letter(n0)] + ([Letter(n1)] + t);
    DecodeLetter(n0, [Letter(n1)] + t, 0, cur, out);
    DecodeLetter(n1, t, 1, n0 * 4 % 256, out);
  }

  lemma DecodeThreeLetters(b0: Byte, b1: Byte, b2: Byte, t: string, cur: Byte, out: seq<Byte>)
    ensures Decode(Quad(b0, b1, b2)[..3] + t, 0, cur, out)
         == Decode(t, 3, (b1 % 16 * 4 + b2 / 64) * 64 % 256, out + [b0, b1])
  {
    hide OrLow, Letter, Decode, Quad;
    var n0, n1, n2 := b0 / 4, b0 % 4 * 16 + b1 / 16, b1 % 16 * 4 + b2 / 64;
    QuadForms(b0, b1, b2);
    SextetsRejoin(b0, b1, b2);
    assert Quad(b0, b1, b2)[..3] + t == [Letter(n0)] + ([Letter(n1)] + ([Letter(n2)] + t));
    DecodeLetter(n0, [Letter(n1)] + ([Letter(n2)] + t), 0, cur, out);
    DecodeLetter(n1, [Letter(n2)] + t, 1, n0 * 4 % 256, out);
    DecodeLetter(n2, t, 2, n1 * 16 % 256, out + [b0]);
    assert out + [b0] + [b1] == out + [b0, b1];
  }

  lemma DecodeQuad(b0: Byte, b1: Byte, b2: Byte, t: string, cur: Byte, out: seq<Byte>)
    ensures Decode(Quad(b0, b1, b2) + t, 0, cur, out) == Decode(t, 0, 0, out + [b0, b1, b2])
  {
    hide OrLow, Letter, Decode, Quad;
    var n2 := b1 % 16 * 4 + b2 / 64;
    QuadForms(b0, b1, b2);
    SextetsRejoin(b0, b1, b2);
    DecodeThreeLetters(b0, b1, b2, [Letter(b2 % 64)] + t, cur, out);
    assert Quad(b0, b1, b2) + t == Quad(b0, b1, b2)[..3] + ([Letter(b2 % 64)] + t);
    DecodeLetter(b2 % 64, t, 3, n2 * 64 % 256, out + [b0, b1]);
    assert out + [b0, b1] + [b2] == out + [b0, b1, b2];
  }

  /** Decoding inverts encoding. */
  lemma {:induction false} DecodeEncode(b: seq<Byte>, cur: Byte, out: seq<Byte>)
    ensures Decode(Encode(b), 0, cur, out) == Some(out + b)
    decreases |b|
  {
    hide OrLow, Quad;
    if |b| == 0 {
      assert out + b == out;
    } else if |b| == 1 {
      DecodeTwoLetters(b[0], 0, "==", cur, out);
      assert "=="[1..] == "=" && b == [b[0]];
    } else if |b| == 2 {
      DecodeThreeLetters(b[0], b[1], 0, "=", cur, out);
      assert b == [b[0], b[1]];
    } else {
      DecodeQuad(b[0], b[1], b[2], Encode(b[3..]), cur, out);
      DecodeEncode(b[3..], 0, out + [b[0], b[1], b[2]]);
      assert out + [b[0], b[1], b[2]] + b[3..] == out + b;
    }
  }

  // ---------- junk ----------

  predicate IsJunk(c: char) {
    Value(c) == JUNK
  }

  function StripJunk(t: string): string {
    if t == "" then "" else if IsJunk(t[0]) then StripJunk(t[1..]) else [t[0]] + StripJunk(t[1..])
  }

  /** No pad is followed first by junk and later by another pad. */
  predicate TightPads(t: string) {
    t != "" ==> (t[0] == '=' && |t| > 1 && IsJunk(t[1]) ==> '=' !in t[1..]) && TightPads(t[1..])
  }

  lemma {:induction false} StripKeepsPads(t: string)
    ensures '=' in StripJunk(t) <==> '=' in t
  {
    if t != "" { StripKeepsPads(t[1..]); }
  }

  /** Junk makes no difference as long as it does not come between two pads. */
  lemma {:induction false} JunkSkipped(t: string, e: nat, cur: Byte, out: seq<Byte>)
    requires e < 4 && TightPads(t)
    ensures Decode(t, e, cur, out) == Decode(StripJunk(t), e, cur, out)
    decreases |t|
  {
    hide OrLow;
    if t != "" {
      var c, rest := Value(t[0]), t[1..];
      assert !IsJunk(t[0]) ==> StripJunk(t)[1..] == StripJunk(rest);
      if c == JUNK {
        JunkSkipped(rest, e, cur, out);
      } else if c == PAD {
        if e == 2 {
          StripKeepsPads(rest);
          if rest != "" && rest[0] == '=' { JunkSkipped(rest, 3, cur, out); }
        }
      } else if e == 0 {
        JunkSkipped(rest, 1, c * 4 % 256, out);
      } else if e == 1 {
        JunkSkipped(rest, 2, c * 16 % 256, out + [OrLow(cur, c / 16)]);
      } else if e == 2 {
        JunkSkipped(rest, 3, c * 64 % 256, out + [OrLow(cur, c / 4)]);
      } else {
        JunkSkipped(rest, 0, 0, out + [OrLow(cur, c)]);
      }
    }
  }

  function Pads(n: nat): string {
    if n % 3 == 1 then "==" else if n % 3 == 2 then "=" else ""
  }

  /** Encoded text is pad-free text followed by the pads for its length. */
  lemma {:induction false} EncodedShape(b: seq<Byte>) returns (s: string)
    ensures Encode(b) == s + Pads(|b|) && '=' !in s
    ensures |s| % 4 == if |b| % 3 == 1 then 2 else if |b| % 3 == 2 then 3 else 0
    decreases |b|
  {
    hide Quad;
    if |b| == 0 {
      s := "";
    } else if |b| == 1 {
      QuadLetters(b[0], 0, 0);
      s := Quad(b[0], 0, 0)[..2];
      assert forall c :: c in s ==> c in Quad(b[0], 0, 0);
    } else if |b| == 2 {
      QuadLetters(b[0], b[1], 0);
      s := Quad(b[0], b[1], 0)[..3];
      assert forall c :: c in s ==> c in Quad(b[0], b[1], 0);
    } else {
      QuadLetters(b[0], b[1], b[2]);
      var rest := EncodedShape(b[3..]);
      s := Quad(b[0], b[1], b[2]) + rest;
      assert Pads(|b|) == Pads(|b| - 3);
    }
  }

  /** A single pad is never separated from another one. */
  lemma {:induction false} OnePadIsTight(t: string, s: string)
    requires '=' !in s && (StripJunk(t) == s || StripJunk(t) == s + "=")
    ensures TightPads(t)
    decreases |t|
  {
    if t != "" {
      StripKeepsPads(t[1..]);
      if IsJunk(t[0]) {
        OnePadIsTight(t[1..], s);
      } else if t[0] == '=' {
        assert StripJunk(t)[0] == '=';
        assert s == "" && StripJunk(t) == "=";
        OnePadIsTight(t[1..], "");
      } else {
        assert StripJunk(t)[0] == t[0] && StripJunk(t)[1..] == StripJunk(t[1..]);
        assert s != "" && s[0] == t[0];
        assert (s + "=")[1..] == s[1..] + "=";
        OnePadIsTight(t[1..], s[1..]);
      }
    }
  }

  /** Two pads with junk between them make the decoder give up. */
  lemma {:induction false} LoosePadsFail(t: string, s: string, e: nat, cur: Byte, out: seq<Byte>)
    requires e < 4 && '=' !in s && (e + |s|) % 4 == 2
    requires StripJunk(t) == s + "==" && !TightPads(t)
    ensures Decode(t, e, cur, out) == None
    decreases |t|
  {
    hide OrLow;
    var c, rest := Value(t[0]), t[1..];
    if c == JUNK {
      LoosePadsFail(rest, s, e, cur, out);
    } else {
      assert StripJunk(t)[0] == t[0] && StripJunk(t)[1..] == StripJunk(rest);
      if s == "" {
        assert t[0] == '=' && StripJunk(rest) == "=";
        OnePadIsTight(rest, "");
      } else {
        assert t[0] == s[0] && (s + "==")[1..] == s[1..] + "==";
        if e == 0 {
          LoosePadsFail(rest, s[1..], 1, c * 4 % 256, out);
        } else if e == 1 {
          LoosePadsFail(rest, s[1..], 2, c * 16 % 256, out + [OrLow(cur, c / 16)]);
        } else if e == 2 {
          LoosePadsFail(rest, s[1..], 3, c * 64 % 256, out + [OrLow(cur, c / 4)]);
        } else {
          LoosePadsFail(rest, s[1..], 0, 0, out + [OrLow(cur, c)]);
        }
      }
    }
  }

  /** Encoded text with junk strewn in decodes to the bytes exactly when no junk separates its two
      pads; otherwise the decoder rejects it. */
  lemma DecodeStrewn(b: seq<Byte>, t: string)
    requires StripJunk(t) == Encode(b)
    ensures Decode(t, 0, 0, []) == if TightPads(t) then Some(b) else None
    ensures |b| % 3 != 1 ==> TightPads(t)
  {
    hide Decode, Encode, StripJunk, TightPads;
    var s := EncodedShape(b);
    assert s + "" == s;
    if |b| % 3 != 1 {
      OnePadIsTight(t, s);
    }
    if TightPads(t) {
      JunkSkipped(t, 0, 0, []);
      DecodeEncode(b, 0, []);
      assert [] + b == b;
    } else {
      LoosePadsFail(t, s, 0, 0, []);
    }
  }

  lemma {:induction false} TightConcat(a: string, x: string)
    requires (forall c :: c in a ==> !IsJunk(c)) && TightPads(x) && ('=' !in a || '=' !in x)
    ensures TightPads(a + x)
  {
    if a == "" {
      assert a + x == x;
    } else {
      assert (a + x)[1..] == a[1..] + x;
      TightConcat(a[1..], x);
    }
  }

  lemma TightBreak(x: string)
    requires TightPads(x)
    ensures TightPads(CRLF + x)
  {
    assert (CRLF + x)[1..] == ['\n'] + x && (['\n'] + x)[1..] == x;
  }

  /** Wrapping breaks no line within a quad, so the pads stay together. */
  lemma {:induction false} WrappedPadsTight(w: nat, always: bool, col: nat, b: seq<Byte>)
    requires w % 4 == 0 && col % 4 == 0 && col < w
    ensures TightPads(Wrap(w, always, col, Encode(b)))
    ensures b == [] ==> '=' !in Wrap(w, always, col, Encode(b))
    decreases |b|
  {
    hide Quad;
    if |b| > 0 {
      EncodedLength(b);
      EncodedCharacters(b);
      var quad := Encode(b)[..4];
      var rest := if |b| <= 3 then [] else b[3..];
      if |b| >= 3 {
        QuadLetters(b[0], b[1], b[2]);
      }
      assert Encode(b) == quad + Encode(rest);
      WrapQuad(w, always, col, quad, Encode(rest));
      var next := if col + 4 == w then 0 else col + 4;
      WrappedPadsTight(w, always, next, rest);
      var tail := Wrap(w, always, next, Encode(rest));
      TightBreak(tail);
      TightConcat(quad, if col + 4 == w then CRLF + tail else tail);
    }
  }

  lemma {:induction false} StripIsDeleteBreaks(t: string)
    requires forall c :: c in t ==> Value(c) <= PAD || IsBreak(c)
    ensures StripJunk(t) == DeleteBreaks(t)
  {
    if t != "" { StripIsDeleteBreaks(t[1..]); }
  }

  lemma {:induction false} WrappedCharacters(w: nat, always: bool, col: nat, t: string)
    ensures forall c :: c in Wrap(w, always, col, t) ==> c in t || IsBreak(c)
    decreases |t|
  {
    if t != "" {
      WrappedCharacters(w, always, if col + 1 == w then 0 else col + 1, t[1..]);
    }
  }

  /** Every line-broken form of encoded text decodes to the bytes. */
  lemma DecodeWrapped(w: nat, always: bool, b: seq<Byte>)
    requires w % 4 == 0 && w > 0
    ensures Decode(Wrap(w, always, 0, Encode(b)), 0, 0, []) == Some(b)
  {
    hide Encode, Wrap, Decode, DeleteBreaks, StripJunk, Value;
    EncodedCharacters(b);
    WrappedCharacters(w, always, 0, Encode(b));
    UnwrapWrap(w, always, 0, Encode(b));
    StripIsDeleteBreaks(Wrap(w, always, 0, Encode(b)));
    WrappedPadsTight(w, always, 0, b);
    DecodeStrewn(b, Wrap(w, always, 0, Encode(b)));
  }
}
