/** NUL-terminated strings in memory, their reversal in place, and commas between groups of three. */
module Commas {
  import opened Bits
  import opened Sequences

  const COMMA: Byte := 44

  // ---------- C strings ----------

  /** The characters before the first NUL. */
  function CString(b: seq<Byte>): (s: seq<Byte>)
    requires 0 in b
    ensures |s| < |b| && s == b[..|s|] && b[|s|] == 0 && 0 !in s
  {
    if b[0] == 0 then [] else [b[0]] + CString(b[1..])
  }

  lemma {:induction false} CStringIs(b: seq<Byte>, s: seq<Byte>)
    requires |s| < |b| && b[..|s|] == s && b[|s|] == 0 && 0 !in s
    ensures 0 in b && CString(b) == s
  {
    if s != [] {
      assert b[0] == s[0];
      assert b[1..][..|s| - 1] == s[1..] && b[1..][|s| - 1] == 0;
      CStringIs(b[1..], s[1..]);
      assert s == [s[0]] + s[1..];
    }
  }

  method StrLen(str: array<Byte>) returns (n: nat)
    requires 0 in str[..]
    ensures n < str.Length && CString(str[..]) == str[..n]
  {
    n := 0;
    while str[n] != 0
      invariant n < str.Length && 0 !in str[..n]
      decreases str.Length - n
    {
      assert 0 in str[n..] by {
        assert str[..] == str[..n] + str[n..];
      }
      n := n + 1;
    }
    CStringIs(str[..], str[..n]);
  }

  /** Three exclusive ORs exchange two bytes. */
  lemma XorExchanges(x: Byte, y: Byte)
    ensures var a := Xor(x, y); var b := Xor(y, a); a < 256 && b == x && Xor(a, b) == y
  {
    hide Xor;
    Pow2Constants();
    Bounded(x, y, 8);
    XorCommutes(y, Xor(x, y));
    XorTwice(x, y);
    XorCommutes(x, y);
    XorTwice(y, x);
  }

  method Exchange(str: array<Byte>, p1: nat, p2: nat)
    requires p1 < p2 < str.Length
    modifies str
    ensures str[p1] == old(str[p2]) && str[p2] == old(str[p1])
    ensures forall k :: 0 <= k < str.Length && k != p1 && k != p2 ==> str[k] == old(str[k])
  {
    hide Xor;
    XorExchanges(str[p1], str[p2]);
    str[p1] := Xor(str[p1], str[p2]);
    str[p2] := Xor(str[p2], str[p1]);
    str[p1] := Xor(str[p1], str[p2]);
  }

  /** Reverses the string, not what follows it. */
  method ReverseString(str: array<Byte>)
    requires 0 in str[..]
    modifies str
    ensures var s := CString(old(str[..])); str[..] == Reversed(s) + old(str[..])[|s|..]
  {
    hide *;
    ghost var was := str[..];
    var n := StrLen(str);
    assert |CString(was)| == n;
    if str[0] == 0 {
      assert n == 0;
      EmptyReversed(was);
      return;
    }
    var p1, p2 := 0, n - 1;
    while p2 > p1
      invariant 0 <= p1 <= p2 + 1 && p1 + p2 == n - 1
      invariant forall k :: 0 <= k < n ==> str[k] == was[if p1 <= k <= p2 then k else n - 1 - k]
      invariant forall k :: n <= k < str.Length ==> str[k] == was[k]
    {
      Exchange(str, p1, p2);
      p1, p2 := p1 + 1, p2 - 1;
    }
    ReversedIs(was[..n], str[..n]);
    assert str[n..] == was[n..];
    assert str[..] == str[..n] + str[n..];
  }

  lemma ReversedIs(s: seq<Byte>, r: seq<Byte>)
    requires |r| == |s| && forall k :: 0 <= k < |s| ==> r[k] == s[|s| - 1 - k]
    ensures r == Reversed(s)
  {
    forall k | 0 <= k < |s|
      ensures r[k] == Reversed(s)[k]
    {
      ReversedAt(s, k);
    }
  }

  lemma EmptyReversed(s: seq<Byte>)
    requires 0 in s && s[0] == 0
    ensures Reversed(CString(s)) + s[|CString(s)|..] == s
  {
  }

  // ---------- grouping ----------

  /** Groups of three from the right, joined by commas. */
  function Grouped(s: seq<Byte>): (g: seq<Byte>) {
    if |s| <= 3 then s else Grouped(s[..|s| - 3]) + [COMMA] + s[|s| - 3..]
  }

  /** "1234567" becomes "1,234,567", and "123456" becomes "123,456". */
  lemma GroupedExamples()
    ensures Grouped([0x31, 0x32, 0x33, 0x34, 0x35, 0x36, 0x37])
         == [0x31, 0x2C, 0x32, 0x33, 0x34, 0x2C, 0x35, 0x36, 0x37]
    ensures Grouped([0x31, 0x32, 0x33, 0x34, 0x35, 0x36]) == [0x31, 0x32, 0x33, 0x2C, 0x34, 0x35, 0x36]
  {
    assert [0x31, 0x32, 0x33, 0x34, 0x35, 0x36, 0x37][..4] == [0x31, 0x32, 0x33, 0x34];
    assert [0x31, 0x32, 0x33, 0x34][..1] == [0x31];
    assert [0x31, 0x32, 0x33, 0x34, 0x35, 0x36][..3] == [0x31, 0x32, 0x33];
  }

  function DeleteCommas(s: seq<Byte>): (r: seq<Byte>)
    ensures COMMA !in r
  {
    if s == [] then [] else (if s[0] == COMMA then [] else [s[0]]) + DeleteCommas(s[1..])
  }

  /** The number of commas that a string of some length gets. */
  method HowmanyCommas(buf: array<Byte>) returns (n: int)
    requires 0 in buf[..]
    ensures |Grouped(CString(buf[..]))| == |CString(buf[..])| + n
  {
    GroupedLength(CString(buf[..]));
    if buf[0] == 0 {
      return 0;
    }
    var length := StrLen(buf);
    n := if length % 3 == 0 then length / 3 - 1 else length / 3;
    return if n < 0 then 0 else n;
  }

  lemma {:induction false} GroupedLength(s: seq<Byte>)
    ensures |Grouped(s)| == |s| + (if s == [] then 0 else (|s| - 1) / 3)
  {
    if |s| > 3 {
      GroupedLength(s[..|s| - 3]);
    }
  }

  lemma {:induction false} DeleteConcat(s: seq<Byte>, t: seq<Byte>)
    ensures DeleteCommas(s + t) == DeleteCommas(s) + DeleteCommas(t)
  {
    if s == [] {
      assert [] + t == t;
    } else {
      var first := if s[0] == COMMA then [] else [s[0]];
      assert (s + t)[0] == s[0] && (s + t)[1..] == s[1..] + t;
      DeleteConcat(s[1..], t);
      assert DeleteCommas(s + t) == first + DeleteCommas((s + t)[1..]);
      Associates(first, DeleteCommas(s[1..]), DeleteCommas(t));
    }
  }

  lemma {:induction false} DeleteNone(s: seq<Byte>)
    requires COMMA !in s
    ensures DeleteCommas(s) == s
  {
    if s != [] {
      DeleteNone(s[1..]);
    }
  }

  /** Deleting the commas gives the string back. */
  lemma {:induction false} DeleteGrouped(s: seq<Byte>)
    requires COMMA !in s
    ensures DeleteCommas(Grouped(s)) == s
  {
    hide DeleteCommas;
    if |s| <= 3 {
      DeleteNone(s);
    } else {
      var front, last := s[..|s| - 3], s[|s| - 3..];
      DeleteGrouped(front);
      DeleteConcat(Grouped(front) + [COMMA], last);
      DeleteConcat(Grouped(front), [COMMA]);
      DeleteNone(last);
      DeleteOne();
      assert s == front + last;
    }
  }

  lemma DeleteOne()
    ensures DeleteCommas([COMMA]) == []
  {
  }

  /** Counted from the right, exactly every fourth character is a comma, and none stands in front. */
  lemma {:induction false} CommasAt(s: seq<Byte>, k: nat)
    requires COMMA !in s && k < |Grouped(s)|
    ensures var g := Grouped(s);
            (g[|g| - 1 - k] == COMMA <==> k % 4 == 3) && (k == |g| - 1 ==> k % 4 != 3)
  {
    if |s| > 3 && k >= 4 {
      CommasAt(s[..|s| - 3], k - 4);
    }
  }

  /** What the loop writes: a comma after every third character that is not the last. */
  function Punctuated(t: seq<Byte>, at: nat): (r: seq<Byte>) {
    if t == [] then []
    else [t[0]] + (if (at + 1) % 3 == 0 && |t| > 1 then [COMMA] else []) + Punctuated(t[1..], at + 1)
  }

  lemma PunctuatedThree(t: seq<Byte>, at: nat)
    requires |t| > 3 && at % 3 == 0
    ensures Punctuated(t, at) == t[..3] + [COMMA] + Punctuated(t[3..], at + 3)
  {
    assert t[1..][1..] == t[2..] && t[2..][1..] == t[3..];
    assert Punctuated(t[2..], at + 2) == [t[2]] + [COMMA] + Punctuated(t[3..], at + 3);
    assert Punctuated(t[1..], at + 1) == [t[1]] + Punctuated(t[2..], at + 2);
  }

  lemma PunctuatedFew(t: seq<Byte>, at: nat)
    requires |t| <= 3 && at % 3 == 0
    ensures Punctuated(t, at) == t
  {
    if |t| == 2 {
      assert t[1..] == [t[1]] && Punctuated([t[1]], at + 1) == [t[1]];
    } else if |t| == 3 {
      assert t[1..][1..] == [t[2]] && Punctuated([t[2]], at + 2) == [t[2]];
      assert Punctuated(t[1..], at + 1) == [t[1]] + [t[2]];
    }
  }

  /** Between two reversals it is grouping from the right. */
  lemma {:induction false} PunctuatedReversed(s: seq<Byte>, at: nat)
    requires at % 3 == 0
    ensures Reversed(Punctuated(Reversed(s), at)) == Grouped(s)
    decreases |s|
  {
    hide Reversed, Punctuated;
    var t := Reversed(s);
    if |s| <= 3 {
      PunctuatedFew(t, at);
      ReversedTwice(s);
    } else {
      var front, last := s[..|s| - 3], s[|s| - 3..];
      assert s == front + last;
      ReversedConcat(front, last);
      assert t[..3] == Reversed(last) && t[3..] == Reversed(front);
      PunctuatedThree(t, at);
      PunctuatedReversed(front, at + 3);
      ReversedConcat(t[..3] + [COMMA], Punctuated(t[3..], at + 3));
      ReversedConcat(t[..3], [COMMA]);
      ReversedTwice(last);
      ReversedOne();
    }
  }

  lemma ReversedOne()
    ensures Reversed([COMMA]) == [COMMA]
  {
  }

  lemma {:induction false} NoNul(s: seq<Byte>)
    requires 0 !in s
    ensures 0 !in Grouped(s)
  {
    if |s| > 3 {
      NoNul(s[..|s| - 3]);
    }
  }

  lemma SameCharacters(s: seq<Byte>)
    ensures forall x :: x in Reversed(s) <==> x in s
  {
    forall x | x in s
      ensures x in Reversed(s)
    {
      var k :| 0 <= k < |s| && s[k] == x;
      ReversedAt(s, |s| - 1 - k);
    }
    forall x | x in Reversed(s)
      ensures x in s
    {
      var k :| 0 <= k < |s| && Reversed(s)[k] == x;
      ReversedAt(s, k);
    }
  }

  /** A copy with just enough room. */
  method StrDup(buf: array<Byte>) returns (copy: array<Byte>)
    requires 0 in buf[..]
    ensures fresh(copy) && copy[..] == CString(buf[..]) + [0]
  {
    var n := StrLen(buf);
    copy := new Byte[n + 1];
    forall i | 0 <= i <= n {
      copy[i] := buf[i];
    }
    assert copy[..] == buf[..n] + [buf[n]];
  }

  lemma PunctuatedNext(t: seq<Byte>, at: nat)
    requires at <= |t|
    ensures at == |t| ==> Punctuated(t[at..], at) == []
    ensures at < |t| ==>
      Punctuated(t[at..], at) == [t[at]] + (if (at + 1) % 3 == 0 && at + 1 < |t| then [COMMA] else [])
        + Punctuated(t[at + 1..], at + 1)
  {
    if at < |t| {
      assert t[at..][1..] == t[at + 1..];
    }
  }

  /** The loop between the reversals. */
  method Punctuate(pbuf: array<Byte>, buf: array<Byte>, ghost t: seq<Byte>)
    requires pbuf != buf && pbuf[..] == t + [0] && 0 !in t && |Punctuated(t, 0)| < buf.Length
    modifies buf
    ensures buf[..|Punctuated(t, 0)|] == Punctuated(t, 0) && buf[|Punctuated(t, 0)|] == 0
  {
    hide Punctuated;
    var bf, cm, tm := 0, 0, 0;
    ghost var all := Punctuated(t, 0);
    assert t[0..] == t;
    while true
      invariant 0 <= tm <= |t| && cm == tm && bf <= |all|
      invariant pbuf[..] == t + [0]
      invariant buf[..bf] + Punctuated(t[tm..], tm) == all
      decreases |t| - tm
    {
      PunctuatedNext(t, tm);
      ghost var written := buf[..bf];
      var c := pbuf[tm];
      assert c == (t + [0])[tm];
      buf[bf] := c;
      bf, tm := bf + 1, tm + 1;
      assert buf[..bf] == written + [c];
      if c == 0 {
        break;
      }
      cm := cm + 1;
      assert pbuf[tm] == (t + [0])[tm];
      if cm % 3 == 0 && pbuf[tm] != 0 {
        buf[bf] := COMMA;
        bf := bf + 1;
        assert buf[..bf] == written + [c] + [COMMA];
      }
    }
  }

  /** Rewrites the string in its own buffer, which must have room for the commas. */
  method Commaize(buf: array<Byte>)
    requires 0 in buf[..] && |Grouped(CString(buf[..]))| < buf.Length
    modifies buf
    ensures 0 in buf[..] && CString(buf[..]) == Grouped(CString(old(buf[..])))
  {
    hide *;
    ghost var s := CString(buf[..]);
    if buf[0] != 0 {
      var pbuf := StrDup(buf);
      CStringIs(pbuf[..], s);
      ReverseString(pbuf);
      ghost var t := Reversed(s);
      SameCharacters(s);
      NoNul(s);
      PunctuatedReversed(s, 0);
      SameCharacters(Punctuated(t, 0));
      assert pbuf[..] == t + [0];
      Punctuate(pbuf, buf, t);
      CStringIs(buf[..], Punctuated(t, 0));
      ReverseString(buf);
      CStringIs(buf[..], Grouped(s));
    } else {
      EmptyGrouped(buf[..]);
    }
  }

  lemma EmptyGrouped(b: seq<Byte>)
    requires 0 in b && b[0] == 0
    ensures CString(b) == Grouped(CString(b))
  {
  }
}
