/** Splitting a string at delimiters. */
module TokenSpec {
  import opened Bits
  import opened Sequences

  type Text = seq<Byte>

  /** The fields between the delimiters, empty ones included. */
  function Fields(s: Text, delim: Text): (fields: seq<Text>)
    ensures fields != []
  {
    if s == [] then [[]]
    else
      var rest := Fields(s[1..], delim);
      if s[0] in delim then [[]] + rest else [[s[0]] + rest[0]] + rest[1..]
  }

  function NonEmpty(fields: seq<Text>): (pieces: seq<Text>)
    ensures [] !in pieces
  {
    if fields == [] then [] else (if fields[0] == [] then [] else [fields[0]]) + NonEmpty(fields[1..])
  }

  /** The maximal nonempty runs without delimiters, in order. */
  function Pieces(s: Text, delim: Text): (pieces: seq<Text>) {
    NonEmpty(Fields(s, delim))
  }

  predicate Free(s: Text, delim: Text) {
    forall c :: c in s ==> c !in delim
  }

  /** A run up to a delimiter is the first field. */
  lemma {:induction false} FieldsRun(run: Text, rest: Text, delim: Text)
    requires Free(run, delim) && (rest == [] || rest[0] in delim)
    ensures Fields(run + rest, delim) == [run] + (if rest == [] then [] else Fields(rest[1..], delim))
  {
    var tail := if rest == [] then [] else Fields(rest[1..], delim);
    if run == [] {
      assert [] + rest == rest;
    } else {
      var s := run + rest;
      assert s[0] == run[0] && s[1..] == run[1..] + rest && [run[0]] + run[1..] == run;
      FieldsRun(run[1..], rest, delim);
      assert ([run[1..]] + tail)[1..] == tail;
    }
  }

  /** What one call of the tokenizer finds: after some delimiters, a run up to a delimiter or the end. */
  lemma PiecesRun(run: Text, rest: Text, delim: Text)
    requires Free(run, delim) && (rest == [] || rest[0] in delim)
    ensures Pieces(run + rest, delim) == (if run == [] then [] else [run]) +
              (if rest == [] then [] else Pieces(rest[1..], delim))
  {
    hide Fields;
    FieldsRun(run, rest, delim);
    var tail := if rest == [] then [] else Fields(rest[1..], delim);
    assert ([run] + tail)[1..] == tail;
    assert rest == [] ==> NonEmpty(tail) == [];
  }

  lemma PiecesSkip(s: Text, delim: Text)
    requires s != [] && s[0] in delim
    ensures Pieces(s, delim) == Pieces(s[1..], delim)
  {
    hide Fields;
    PiecesRun([], s, delim);
    assert [] + s == s;
  }

  /** Pieces joined by a delimiter. */
  function Joined(pieces: seq<Text>, d: Byte): Text {
    if pieces == [] then [] else if |pieces| == 1 then pieces[0] else pieces[0] + [d] + Joined(pieces[1..], d)
  }

  /** Joining and taking apart again. */
  lemma {:induction false} PiecesOfJoined(pieces: seq<Text>, d: Byte, delim: Text)
    requires d in delim && forall p :: p in pieces ==> p != [] && Free(p, delim)
    ensures Pieces(Joined(pieces, d), delim) == pieces
  {
    hide Pieces, Free, Fields;
    if pieces == [] {
      PiecesOfNothing(delim);
    } else if |pieces| == 1 {
      PiecesRun(pieces[0], [], delim);
      assert pieces[0] + [] == pieces[0];
    } else {
      var joined := Joined(pieces[1..], d);
      PiecesRun(pieces[0], [d] + joined, delim);
      Associates(pieces[0], [d], joined);
      assert ([d] + joined)[1..] == joined;
      assert forall p :: p in pieces[1..] ==> p in pieces;
      PiecesOfJoined(pieces[1..], d, delim);
      assert [pieces[0]] + pieces[1..] == pieces;
    }
  }

  lemma PiecesOfNothing(delim: Text)
    ensures Pieces([], delim) == []
  {
    assert Fields([], delim) == [[]] && NonEmpty([[]]) == NonEmpty([]) == [];
  }

  function Members(delim: Text): set<Byte> {
    set c | c in delim
  }

  function Concatenated(pieces: seq<Text>): Text {
    if pieces == [] then [] else pieces[0] + Concatenated(pieces[1..])
  }

  lemma {:induction false} FieldsFree(s: Text, delim: Text)
    ensures forall p :: p in Fields(s, delim) ==> Free(p, delim)
  {
    if s != [] {
      FieldsFree(s[1..], delim);
      var rest := Fields(s[1..], delim);
      assert Free(rest[0], delim);
    }
  }

  lemma {:induction false} FieldsHoldAll(s: Text, delim: Text)
    ensures Concatenated(Fields(s, delim)) == Without(s, Members(delim))
  {
    if s != [] {
      FieldsHoldAll(s[1..], delim);
      var rest := Fields(s[1..], delim);
      if s[0] in delim {
        assert ([[]] + rest)[1..] == rest;
      } else {
        assert ([[s[0]] + rest[0]] + rest[1..])[1..] == rest[1..];
        Associates([s[0]], rest[0], Concatenated(rest[1..]));
      }
    }
  }

  lemma {:induction false} EmptyFieldsAddNothing(fields: seq<Text>)
    ensures Concatenated(NonEmpty(fields)) == Concatenated(fields)
    ensures forall p :: p in NonEmpty(fields) <==> p in fields && p != []
  {
    if fields != [] {
      EmptyFieldsAddNothing(fields[1..]);
      var rest := NonEmpty(fields[1..]);
      assert fields == [fields[0]] + fields[1..];
      if fields[0] == [] {
        assert NonEmpty(fields) == rest && Concatenated(fields) == Concatenated(fields[1..]);
      } else {
        assert ([fields[0]] + rest)[1..] == rest;
      }
    }
  }

  /** The pieces are nonempty runs without delimiters, and hold all the other characters in order. */
  lemma PiecesAreRuns(s: Text, delim: Text)
    ensures Concatenated(Pieces(s, delim)) == Without(s, Members(delim))
    ensures forall p :: p in Pieces(s, delim) ==> p != [] && Free(p, delim)
  {
    hide Fields, Free;
    FieldsFree(s, delim);
    FieldsHoldAll(s, delim);
    EmptyFieldsAddNothing(Fields(s, delim));
  }
}

/** The tokenizer, which remembers where it stopped, and the list of recipients it feeds. */
module AddressList {
  import opened Bits
  import opened TokenSpec
  import opened Commas
  import opened Options
  import opened Sequences
  import opened Sll

  const HEADING_TO: Text := [84, 111]

  const COMMAS: Text := [COMMA]

  ghost function At(b: seq<Byte>, i: int): Text
    requires -1 <= i <= |b| && (i >= 0 ==> 0 in b[i..])
  {
    if i == -1 then [] else CString(b[i..])
  }

  lemma AtNext(b: seq<Byte>, i: nat)
    requires i < |b| && 0 in b[i..]
    ensures b[i] == 0 ==> At(b, i) == []
    ensures b[i] != 0 ==> i + 1 < |b| && 0 in b[i + 1..] && At(b, i) == [b[i]] + At(b, i + 1)
  {
    assert b[i..][0] == b[i] && b[i..][1..] == b[i + 1..];
    assert b[i..] == [b[i]] + b[i + 1..];
  }

  /** Is the character one of the delimiters? */
  method Spans(delim: Text, c: Byte) returns (found: bool)
    ensures found <==> c in delim
  {
    for i := 0 to |delim|
      invariant c !in delim[..i]
    {
      if delim[i] == c {
        return true;
      }
    }
    return false;
  }

  /** Steps over leading delimiters. */
  method SkipDelimiters(text: array<Byte>, start: nat, delim: Text) returns (s: nat)
    requires start < text.Length && 0 in text[start..] && 0 !in delim
    ensures start <= s < text.Length && 0 in text[s..] && text[s] !in delim
    ensures Pieces(At(text[..], s), delim) == Pieces(At(text[..], start), delim)
  {
    hide At, Pieces;
    s := start;
    AtNext(text[..], s);
    var spans := Spans(delim, text[s]);
    while spans
      invariant start <= s < text.Length && 0 in text[s..] && (spans <==> text[s] in delim)
      invariant Pieces(At(text[..], s), delim) == Pieces(At(text[..], start), delim)
      decreases text.Length - s
    {
      AtNext(text[..], s);
      PiecesSkip(At(text[..], s), delim);
      assert At(text[..], s)[1..] == At(text[..], s + 1);
      s := s + 1;
      spans := Spans(delim, text[s]);
    }
  }

  /** The position of the next delimiter or of the end. */
  method ScanToken(text: array<Byte>, tok: nat, delim: Text) returns (s: nat)
    requires tok < text.Length && 0 in text[tok..] && text[tok] != 0 && text[tok] !in delim
    ensures tok < s < text.Length && 0 in text[s..] && (text[s] == 0 || text[s] in delim)
    ensures 0 !in text[tok..s] && Free(text[tok..s], delim)
    ensures At(text[..], tok) == text[tok..s] + At(text[..], s)
  {
    hide At;
    s := tok + 1;
    ghost var was := text[..];
    AtNext(was, tok);
    while true
      invariant tok < s < text.Length && 0 in was[s..]
      invariant 0 !in was[tok..s] && Free(was[tok..s], delim)
      invariant At(was, tok) == was[tok..s] + At(was, s)
      decreases text.Length - s
    {
      AtNext(was, s);
      var c := text[s];
      var stop := Spans(delim, c);
      if c == 0 || stop {
        break;
      }
      assert was[tok..s + 1] == was[tok..s] + [c];
      s := s + 1;
    }
  }

  /** Runs to the next delimiter or the end and puts a NUL there. */
  method TakeToken(text: array<Byte>, tok: nat, delim: Text) returns (last: int)
    requires tok < text.Length && 0 in text[tok..] && 0 !in delim && text[tok] != 0 && text[tok] !in delim
    modifies text
    ensures -1 <= last < text.Length && (last >= 0 ==> 0 in text[last..]) && 0 in text[tok..]
    ensures Pieces(old(At(text[..], tok)), delim) == [At(text[..], tok)] + Pieces(At(text[..], last), delim)
    ensures text[..tok] == old(text[..tok])
  {
    hide At, Pieces, Free;
    var s := ScanToken(text, tok, delim);
    ghost var was, run := text[..], text[tok..s];
    AtNext(was, s);
    PiecesRun(run, At(was, s), delim);
    if text[s] == 0 {
      EndsHere(was, tok, run);
      NothingLeft(was, delim);
      return -1;
    }
    text[s] := 0;
    last := s + 1;
    assert text[last..] == was[last..] && At(was, s)[1..] == At(was, last);
    assert text[..][tok..s] == run;
    EndsHere(text[..], tok, run);
    SameAt(was, text[..], last);
  }

  lemma EndsHere(b: seq<Byte>, tok: nat, run: Text)
    requires tok + |run| < |b| && b[tok..tok + |run|] == run && b[tok + |run|] == 0 && 0 !in run
    ensures 0 in b[tok..] && At(b, tok) == run
  {
    CStringIs(b[tok..], run);
  }

  lemma SameAt(b: seq<Byte>, c: seq<Byte>, i: nat)
    requires i <= |b| && i <= |c| && b[i..] == c[i..] && 0 in b[i..]
    ensures At(b, i) == At(c, i)
  {
  }

  lemma NothingLeft(b: seq<Byte>, delim: Text)
    ensures Pieces(At(b, -1), delim) == []
  {
    PiecesOfNothing(delim);
  }

  class Tokenizer {
    /** The string being taken apart, and where to go on; -1 when there is nothing left. */
    var text: array<Byte>
    var last: int

    constructor ()
      ensures Valid() && Rest() == []
    {
      text, last := new Byte[0], -1;
    }

    ghost predicate Valid()
      reads this, text
    {
      -1 <= last < text.Length && (last >= 0 ==> 0 in text[..][last..])
    }

    /** What has not been looked at yet. */
    ghost function Rest(): Text
      reads this, text
      requires Valid()
    {
      At(text[..], last)
    }

    /** A first call names a string; further calls, with null, go on in it. */
    method Strtok(s: array?<Byte>, delim: Text) returns (tok: int)
      requires Valid() && 0 !in delim
      requires s != null ==> 0 in s[..]
      modifies this, text, s
      ensures Valid() && text == if s != null then s else old(text)
      ensures -1 <= tok < text.Length && (tok >= 0 ==> 0 in text[tok..])
      ensures var pieces := Pieces(if s != null then CString(old(s[..])) else old(Rest()), delim);
              if tok == -1 then pieces == [] && last == -1
              else pieces == [At(text[..], tok)] + Pieces(Rest(), delim)
      ensures s == null ==> forall k :: 0 <= k < old(last) ==> text[k] == old(text[k])
    {
      hide At, Pieces;
      if s != null {
        text, last := s, 0;
        Whole(s[..]);
      }
      if last == -1 {
        NothingLeft(text[..], delim);
        return -1;
      }
      var at := SkipDelimiters(text, last, delim);
      AtNext(text[..], at);
      if text[at] == 0 {
        PiecesOfNothing(delim);
        last := -1;
        return -1;
      }
      last := TakeToken(text, at, delim);
      return at;
    }
  }

  lemma Whole(b: seq<Byte>)
    requires 0 in b
    ensures 0 in b[0..] && At(b, 0) == CString(b)
  {
    assert b[0..] == b;
  }

  // ---------- the recipients ----------

  datatype Address = Address(heading: Text, address: Text)

  /** One entry per address, all with the same label. */
  function Labelled(heading: Text, addresses: seq<Text>): (r: seq<Address>)
    ensures |r| == |addresses| && forall i :: 0 <= i < |r| ==> r[i] == Address(heading, addresses[i])
  {
    seq(|addresses|, i requires 0 <= i < |addresses| => Address(heading, addresses[i]))
  }

  class Recipients {
    const addrHead: List<Address>
    const tokenizer: Tokenizer

    ghost predicate Valid()
      reads this, addrHead, addrHead.nodes, tokenizer, tokenizer.text
    {
      addrHead.Valid() && tokenizer.Valid()
    }

    constructor ()
      ensures Valid() && addrHead.nodes == []
    {
      addrHead := new List();
      tokenizer := new Tokenizer();
    }

    /** A copy of the token and a node for it at the end of the list. */
    method AppendAddress(heading: Text, p: nat)
      requires Valid() && p < tokenizer.text.Length && 0 in tokenizer.text[p..]
      modifies addrHead, addrHead.nodes`next
      ensures addrHead.Valid()
      ensures addrHead.Data() == old(addrHead.Data()) + [Address(heading, At(tokenizer.text[..], p))]
      ensures old(addrHead.nodes) <= addrHead.nodes
              && (forall i :: |old(addrHead.nodes)| <= i < |addrHead.nodes| ==> fresh(addrHead.nodes[i]))
    {
      var copy := CopyOf(tokenizer.text, p);
      var n := new Node(Address(heading, copy));
      addrHead.AppendNode(n);
    }

    /** Takes one token, of a new string or of the rest of the last one, into the list. */
    method AppendToken(a: array?<Byte>, heading: Text) returns (p: int)
      requires Valid() && (a != null ==> 0 in a[..])
      modifies tokenizer, tokenizer.text, a, addrHead, addrHead.nodes`next
      ensures Valid() && tokenizer.text == if a != null then a else old(tokenizer.text)
      ensures old(addrHead.nodes) <= addrHead.nodes
              && (forall i :: |old(addrHead.nodes)| <= i < |addrHead.nodes| ==> fresh(addrHead.nodes[i]))
      ensures var pieces := Pieces(if a != null then CString(old(a[..])) else old(tokenizer.Rest()), COMMAS);
              var rest := Pieces(tokenizer.Rest(), COMMAS);
              && addrHead.Data() + Labelled(heading, rest) == old(addrHead.Data()) + Labelled(heading, pieces)
              && (if p == -1 then pieces == rest == [] else |rest| < |pieces|)
    {
      hide Pieces, At, CString, Labelled;
      p := tokenizer.Strtok(a, COMMAS);
      ghost var rest := Pieces(tokenizer.Rest(), COMMAS);
      if p == -1 {
        NothingLeft(tokenizer.text[..], COMMAS);
      } else {
        LabelledFirst(heading, At(tokenizer.text[..], p), rest);
        AppendAddress(heading, p);
        Associates(old(addrHead.Data()), [Address(heading, At(tokenizer.text[..], p))], Labelled(heading, rest));
      }
    }

    /** -1 for no string or an empty one; an absent or empty heading stands for "To". */
    method AddAddressToList(a: array?<Byte>, heading: Option<Text>) returns (r: int)
      requires Valid() && (a != null ==> 0 in a[..])
      modifies tokenizer, tokenizer.text, a, addrHead, addrHead.nodes`next
      ensures Valid()
      ensures old(addrHead.nodes) <= addrHead.nodes
              && (forall i :: |old(addrHead.nodes)| <= i < |addrHead.nodes| ==> fresh(addrHead.nodes[i]))
      ensures if a == null || CString(old(a[..])) == [] then
                r == -1 && addrHead.nodes == old(addrHead.nodes) && addrHead.Data() == old(addrHead.Data())
              else
                var h: Text := if heading.None? || heading.value == [] then [0x54, 0x6F] else heading.value;
                r == 1 && addrHead.Data() == old(addrHead.Data()) + Labelled(h, Pieces(CString(old(a[..])), [0x2C]))
    {
      hide Pieces, At, CString, Labelled;
      if a == null {
        return -1;
      }
      FirstOf(a[..]);
      if a[0] == 0 {
        return -1;
      }
      var h := if heading.None? || heading.value == [] then HEADING_TO else heading.value;
      ghost var all := addrHead.Data() + Labelled(h, Pieces(CString(a[..]), COMMAS));
      var p := AppendToken(a, h);
      p := AppendToken(null, h);
      while p != -1
        invariant Valid() && tokenizer.text == a
        invariant old(addrHead.nodes) <= addrHead.nodes
                && (forall i :: |old(addrHead.nodes)| <= i < |addrHead.nodes| ==> fresh(addrHead.nodes[i]))
        invariant addrHead.Data() + Labelled(h, Pieces(tokenizer.Rest(), COMMAS)) == all
        invariant p == -1 ==> Pieces(tokenizer.Rest(), COMMAS) == []
        decreases |Pieces(tokenizer.Rest(), COMMAS)| + (if p == -1 then 0 else 1)
      {
        p := AppendToken(null, h);
      }
      return 1;
    }
  }

  lemma FirstOf(b: seq<Byte>)
    requires 0 in b
    ensures CString(b) == [] <==> b[0] == 0
  {
  }

  lemma LabelledFirst(h: Text, x: Text, xs: seq<Text>)
    ensures Labelled(h, [x] + xs) == [Address(h, x)] + Labelled(h, xs)
  {
  }

  method CopyOf(text: array<Byte>, p: nat) returns (copy: Text)
    requires p < text.Length && 0 in text[p..]
    ensures copy == At(text[..], p)
  {
    var n: nat := p;
    copy := [];
    ghost var b := text[..];
    while text[n] != 0
      invariant p <= n < text.Length && 0 in b[n..]
      invariant copy + At(b, n) == At(b, p)
      decreases text.Length - n
    {
      AtNext(b, n);
      copy := copy + [text[n]];
      n := n + 1;
    }
    AtNext(b, n);
  }
}
