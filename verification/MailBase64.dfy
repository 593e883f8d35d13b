/** The base 64 encoders and the decoder of the mail program (mail/libs/libmutils/mutils.c and
    mutils_mime.c). */
module MailBase64 {
  import opened Bits
  import opened Base64Spec
  import opened Options

  /** mutils_base64_encode_len: room for the encoded text and its terminator. */
  function EncodeLen(len: nat): (r: nat)
    ensures r > 0
  {
    (len + 2) / 3 * 4 + 1
  }

  /** The index expressions of the c-client code pick the letters of the group. */
  lemma PlusForms(s0: int, s1: int, s2: int)
    requires 0 <= s0 < 256 && 0 <= s1 < 256 && 0 <= s2 < 256
    ensures Quad(s0, s1, s2) ==
              [Letter(s0 / 4), Letter((s0 * 16 + s1 / 16) % 64), Letter((s1 * 4 + s2 / 64) % 64), Letter(s2 % 64)]
  {
    hide Letter, Quad;
    QuadForms(s0, s1, s2);
    QuotientIs(s0 * 16 + s1 / 16, 64, s0 / 4, s0 % 4 * 16 + s1 / 16);
    QuotientIs(s1 * 4 + s2 / 64, 64, s1 / 16, s1 % 16 * 4 + s2 / 64);
  }

  /** So do those of the apr and of the stream code. */
  lemma OrForms(s0: int, s1: int, s2: int)
    requires 0 <= s0 < 256 && 0 <= s1 < 256 && 0 <= s2 < 256
    ensures Or(s0 % 4 * 16, s1 / 16) < 64 && Or(s1 % 16 * 4, s2 / 64) < 64
    ensures Quad(s0, s1, s2)
         == [Letter(s0 / 4), Letter(Or(s0 % 4 * 16, s1 / 16)), Letter(Or(s1 % 16 * 4, s2 / 64)), Letter(s2 % 64)]
  {
    hide Letter, Quad, Or;
    QuadForms(s0, s1, s2);
    Pow2Constants();
    OrIsPlus(s0 % 4, s1 / 16, 4);
    OrIsPlus(s1 % 16, s2 / 64, 2);
  }

  lemma EncodeTriple(b: seq<Byte>)
    requires |b| >= 3
    ensures Encode(b) == Quad(b[0], b[1], b[2]) + Encode(b[3..])
  {
    hide Quad;
  }

  /** `*d++ = c`, once for each character of `text`. */
  method Put(buf: array<char>, d: nat, text: string) returns (d': nat)
    requires d + |text| <= buf.Length
    modifies buf
    ensures d' == d + |text| && buf[..d'] == old(buf[..d]) + text
    ensures buf[d'..] == old(buf[d'..])
  {
    var k := 0;
    while k < |text|
      invariant 0 <= k <= |text|
      invariant buf[..d + k] == old(buf[..d]) + text[..k]
      invariant buf[d + |text|..] == old(buf[d + |text|..])
    {
      buf[d + k] := text[k];
      k := k + 1;
    }
    d' := d + k;
  }

  /** Puts one quad and, if it is the fifteenth of its line, a line break. */
  method PutQuad(buf: array<char>, d: nat, i: nat, quad: string, ghost rest: string) returns (d': nat, i': nat)
    requires |quad| == 4 && i < 15 && d + |Wrap(60, true, 4 * i, quad + rest)| < buf.Length
    modifies buf
    ensures i' < 15 && d' < buf.Length
    ensures buf[..d'] + Wrap(60, true, 4 * i', rest) == old(buf[..d]) + Wrap(60, true, 4 * i, quad + rest)
  {
    hide Wrap;
    WrapQuad(60, true, 4 * i, quad, rest);
    d' := Put(buf, d, quad);
    i' := i + 1;
    if i' == 15 {
      i' := 0;
      d' := Put(buf, d', "\r\n");
    }
  }

  /** mutils_encode_base64: lines of 60 characters. The buffer is filled to exactly the length
      computed beforehand, so the check at the end never fails. */
  method EncodeBase64(src: seq<Byte>) returns (ret: array?<char>, len: nat)
    ensures len == (|src| + 2) / 3 * 4 + 2 * ((|src| + 2) / 3 * 4 / 60 + 1)
    ensures ret != null && ret.Length == len + 1 && ret[len] == '\0'
    ensures ret[..len] == Wrap(60, true, 0, Encode(src))
  {
    hide Quad, Letter, Encode, Wrap;
    ghost var total := Wrap(60, true, 0, Encode(src));
    var i := (|src| + 2) / 3 * 4;
    i := i + 2 * (i / 60 + 1);
    len := i;
    EncodedLength(src);
    Wrapped60Length(0, Encode(src));
    i := i + 1;
    var buf := new char[i];
    var d, s, srcl := 0, 0, |src|;
    i := 0;
    assert src[0..] == src;
    while srcl >= 3
      invariant 0 <= s && 0 <= srcl && s + srcl == |src|
      invariant 0 <= i < 15 && 0 <= d <= len && buf.Length == len + 1 == |total| + 1
      invariant buf[..d] + Wrap(60, true, 4 * i, Encode(src[s..])) == total
    {
      EncodeTriple(src[s..]);
      assert src[s..][3..] == src[s + 3..];
      var s0: int, s1: int, s2: int := src[s], src[s + 1], src[s + 2];
      PlusForms(s0, s1, s2);
      d, i := PutQuad(buf, d, i,
        [Letter(s0 / 4), Letter((s0 * 16 + s1 / 16) % 64), Letter((s1 * 4 + s2 / 64) % 64), Letter(s2 % 64)],
        Encode(src[s + 3..]));
      s, srcl := s + 3, srcl - 3;
    }
    EncodeTail(src[s..]);
    if srcl > 0 {
      var s0: int := src[s];
      var s1: int := if srcl == 2 then src[s + 1] else 0;
      PlusForms(s0, s1, 0);
      var quad := [Letter(s0 / 4), Letter((s0 * 16 + s1 / 16) % 64),
        if srcl == 2 then Letter(s1 * 4 % 64) else '=', '='];
      assert quad + "" == Encode(src[s..]);
      d, i := PutQuad(buf, d, i, quad, "");
    } else {
      assert src[s..] == [];
    }
    WrapNothing(60, true, 4 * i);
    d := Put(buf, d, "\r\n");
    buf[d] := '\0';
    ret := buf;
    if d != len {
      ret := null;
    }
  }

  lemma EncodeTail(b: seq<Byte>)
    requires |b| < 3
    ensures Encode(b) == if |b| == 0 then ""
              else if |b| == 1 then Quad(b[0], 0, 0)[..2] + "=="
              else Quad(b[0], b[1], 0)[..3] + "="
  {
  }

  lemma WrapNothing(w: nat, always: bool, col: nat)
    ensures Wrap(w, always, col, "") == if always || col > 0 then CRLF else ""
  {
  }

  /** The closing letters and pads of the apr code, for one or two left-over bytes. */
  function NoFormatTail(b: seq<Byte>): (tail: string)
    requires 1 <= |b| <= 2
    ensures tail == Encode(b)
  {
    EncodeTail(b);
    var s0: int, s1: int := b[0], if |b| == 1 then 0 else b[1];
    OrForms(s0, s1, 0);
    OrNothing(s0 % 4 * 16);
    OrNothing(s1 % 16 * 4);
    if |b| == 1 then [Letter(s0 / 4), Letter(s0 % 4 * 16), '=', '=']
    else [Letter(s0 / 4), Letter(Or(s0 % 4 * 16, s1 / 16)), Letter(s1 % 16 * 4), '=']
  }

  /** mutils_encode_base64_noformat: no line breaks; refuses the empty string. */
  method EncodeNoFormat(src: seq<Byte>) returns (encoded: array?<char>)
    ensures encoded == null <==> src == []
    ensures encoded != null ==>
              encoded.Length == EncodeLen(|src|) && encoded[..encoded.Length - 1] == Encode(src)
              && encoded[encoded.Length - 1] == '\0'
  {
    hide Quad, Letter, Encode, Or;
    if |src| == 0 {
      return null;
    }
    EncodedLength(src);
    var buf := new char[EncodeLen(|src|)];
    var p, i := 0, 0;
    assert src[0..] == src;
    while i < |src| - 2
      invariant 0 <= i <= |src| && 0 <= p < buf.Length
      invariant buf.Length == |Encode(src)| + 1
      invariant buf[..p] + Encode(src[i..]) == Encode(src)
    {
      EncodeTriple(src[i..]);
      assert src[i..][3..] == src[i + 3..];
      var s0: int, s1: int, s2: int := src[i], src[i + 1], src[i + 2];
      OrForms(s0, s1, s2);
      assert |Encode(src)| == p + |Encode(src[i..])|;
      p := Put(buf, p, [Letter(s0 / 4), Letter(Or(s0 % 4 * 16, s1 / 16)),
        Letter(Or(s1 % 16 * 4, s2 / 64)), Letter(s2 % 64)]);
      i := i + 3;
    }
    EncodeTail(src[i..]);
    assert |Encode(src)| == p + |Encode(src[i..])|;
    if i < |src| {
      p := Put(buf, p, NoFormatTail(src[i..]));
    }
    buf[p] := '\0';
    encoded := buf;
  }

  lemma OrNothing(x: nat)
    ensures Or(x, 0) == x
  {
  }

  /** output64Chunk. */
  function Chunk(c1: Byte, c2: Byte, c3: Byte, pads: nat): (chunk: string)
    requires pads <= 2 && (pads > 0 ==> c3 == 0) && (pads == 2 ==> c2 == 0)
    ensures |chunk| == 4
    ensures chunk == Encode([c1, c2, c3][..3 - pads])
  {
    OrForms(c1, c2, c3);
    EncodeTail([c1, c2, c3][..if pads == 0 then 2 else 3 - pads]);
    assert [c1, c2, c3][3..] == [];
    var first := [Letter(c1 / 4), Letter(Or(c1 % 4 * 16, c2 / 16))];
    if pads == 2 then first + ['=', '=']
    else if pads > 0 then first + [Letter(Or(c2 % 16 * 4, c3 / 64)), '=']
    else first + [Letter(Or(c2 % 16 * 4, c3 / 64)), Letter(c3 % 64)]
  }

  /** Up to three bytes from the stream, and their chunk. */
  method NextChunk(ifp: seq<Byte>, at: nat) returns (chunk: string, next: nat)
    requires at < |ifp|
    ensures |chunk| == 4 && at < next <= |ifp| && Encode(ifp[at..]) == chunk + Encode(ifp[next..])
  {
    hide Chunk, Encode;
    if at + 1 == |ifp| {
      chunk, next := Chunk(ifp[at], 0, 0, 2), at + 1;
      assert [ifp[at], 0, 0][..1] == ifp[at..][..1];
    } else if at + 2 == |ifp| {
      chunk, next := Chunk(ifp[at], ifp[at + 1], 0, 1), at + 2;
      assert [ifp[at], ifp[at + 1], 0][..2] == ifp[at..][..2];
    } else {
      chunk, next := Chunk(ifp[at], ifp[at + 1], ifp[at + 2], 0), at + 3;
      assert [ifp[at], ifp[at + 1], ifp[at + 2]][..3] == ifp[at..][..3];
    }
    EncodeSplit(ifp[at..], next - at);
    assert ifp[at..][next - at..] == ifp[next..];
  }

  /** mutilsBase64Encode: from one stream to another, in lines of 72 characters. */
  method EncodeStream(ifp: seq<Byte>) returns (ofp: string)
    ensures ofp == Wrap(72, false, 0, Encode(ifp))
  {
    hide Chunk, Encode, Wrap;
    ghost var total := Wrap(72, false, 0, Encode(ifp));
    var at, ct := 0, 0;
    ofp := "";
    assert ifp[0..] == ifp;
    while at < |ifp|
      invariant 0 <= at <= |ifp| && 0 <= ct < 72 && ct % 4 == 0
      invariant ofp + Wrap(72, false, ct, Encode(ifp[at..])) == total
    {
      var chunk, next := NextChunk(ifp, at);
      WrapQuad(72, false, ct, chunk, Encode(ifp[next..]));
      ofp := ofp + chunk;
      at := next;
      ct := ct + 4;
      if ct > 71 {
        ofp := ofp + "\r\n";
        ct := 0;
      }
    }
    EncodeTail(ifp[at..]);
    WrapNothing(72, false, ct);
    if ct != 0 {
      ofp := ofp + "\r\n";
    }
  }

  /** Encoding goes group by group. */
  lemma EncodeSplit(b: seq<Byte>, k: nat)
    requires 1 <= k <= |b| && (k == 3 || (k == |b| && k < 3))
    ensures Encode(b) == Encode(b[..k]) + Encode(b[k..])
  {
    hide Quad;
    if k == 3 {
      EncodeTriple(b);
      EncodeTriple(b[..3]);
      assert b[..3][3..] == [];
    } else {
      assert b[..k] == b && b[k..] == [];
    }
  }

  /** mutils_decode_base64: skips junk, and gives up on a pad out of place. Every write falls inside
      the allocation of 4 + 3 * srcl / 4 bytes. */
  method DecodeBase64(src: string) returns (ret: array?<Byte>, len: nat)
    ensures ret == null <==> Decode(src, 0, 0, []).None?
    ensures ret != null ==>
              ret.Length == 4 + |src| * 3 / 4 && len <= ret.Length && Some(ret[..len]) == Decode(src, 0, 0, [])
    ensures ret == null ==> len == 0
  {
    hide Value, OrLow;
    var block := new Byte[4 + |src| * 3 / 4];
    forall i | 0 <= i < block.Length { block[i] := 0; }
    var s, d, e := 0, 0, 0;
    len := 0;
    while s < |src|
      invariant 0 <= s <= |src| && 0 <= e < 4 && 0 <= d
      invariant 4 * d + (if e == 0 then 0 else 4 - e) <= 3 * s
      invariant Decode(src, 0, 0, []) == Decode(src[s..], e, if e == 0 then 0 else block[d], block[..d])
    {
      var c := Value(src[s]);
      ghost var before := block[..d];
      assert src[s..][1..] == src[s + 1..];
      s := s + 1;
      if c == JUNK {
      } else if c == PAD {
        if e == 3 {
          s := SkipRest(src, s);
          return block, d;
        } else if e == 2 && s < |src| && src[s] == '=' {
          e := 3;
        } else {
          return null, 0;
        }
      } else if e == 0 {
        block[d] := c * 4 % 256;
        e := 1;
      } else if e == 1 {
        block[d] := OrLow(block[d], c / 16);
        d := d + 1;
        assert block[..d] == before + [block[d - 1]];
        block[d] := c * 16 % 256;
        e := 2;
      } else if e == 2 {
        block[d] := OrLow(block[d], c / 4);
        d := d + 1;
        assert block[..d] == before + [block[d - 1]];
        block[d] := c * 64 % 256;
        e := 3;
      } else {
        block[d] := OrLow(block[d], c);
        d := d + 1;
        assert block[..d] == before + [block[d - 1]];
        e := 0;
      }
    }
    ret, len := block, d;
  }

  /** After the closing pad the rest of the input is read and ignored, up to the first data character. */
  method SkipRest(src: string, start: nat) returns (s: nat)
    requires start <= |src|
    ensures start <= s <= |src|
    ensures forall k :: start <= k < s - 1 ==> Value(src[k]) in {JUNK, PAD}
    ensures s == |src| || (s > start && Value(src[s - 1]) < PAD)
  {
    s := start;
    var srcl := |src| - start;
    while srcl > 0
      invariant start <= s <= |src| && 0 <= srcl <= |src| - s
      invariant srcl == |src| - s || (srcl == 0 && s > start && Value(src[s - 1]) < PAD)
      invariant forall k :: start <= k < s - 1 ==> Value(src[k]) in {JUNK, PAD}
      invariant srcl > 0 && s > start ==> Value(src[s - 1]) in {JUNK, PAD}
    {
      var c := Value(src[s]);
      s := s + 1;
      if c != JUNK && c != PAD {
        srcl := 1;
      }
      srcl := srcl - 1;
    }
  }
}
