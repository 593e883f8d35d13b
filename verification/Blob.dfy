/** Integers as byte strings of a fixed width, in either byte order. */
module BlobSpec {
  import opened Bits
  import opened ByteOrder

  datatype Kind = Byte8 | LsbShort | MsbShort | LsbLong | MsbLong

  datatype Field = Field(kind: Kind, value: int)

  function Width(k: Kind): nat {
    match k
    case Byte8 => 1
    case LsbShort => 2
    case MsbShort => 2
    case LsbLong => 4
    case MsbLong => 4
  }

  predicate LowFirst(k: Kind) {
    k.Byte8? || k.LsbShort? || k.LsbLong?
  }

  function Encode(f: Field): (b: seq<Byte>)
    ensures |b| == Width(f.kind)
  {
    if LowFirst(f.kind) then Digits(f.value, Width(f.kind)) else HighDigits(f.value, Width(f.kind))
  }

  function Decode(k: Kind, b: seq<Byte>): (v: nat)
    requires |b| == Width(k)
  {
    if LowFirst(k) then Number(b) else HighNumber(b)
  }

  /** What is left of a value at the width of a field. */
  function Truncated(f: Field): nat {
    f.value % Pow256(Width(f.kind))
  }

  /** A field reads back as its value, truncated to its width. */
  lemma DecodeEncode(f: Field)
    ensures Decode(f.kind, Encode(f)) == Truncated(f)
  {
    hide Digits, Number, HighDigits, HighNumber, Pow256;
    NumberOfDigits(f.value, Width(f.kind));
    HighNumberOfDigits(f.value, Width(f.kind));
  }

  function EncodeAll(fields: seq<Field>): seq<Byte> {
    if fields == [] then [] else Encode(fields[0]) + EncodeAll(fields[1..])
  }

  function TotalWidth(kinds: seq<Kind>): nat {
    if kinds == [] then 0 else Width(kinds[0]) + TotalWidth(kinds[1..])
  }

  function DecodeAll(kinds: seq<Kind>, b: seq<Byte>): (values: seq<nat>)
    requires TotalWidth(kinds) <= |b|
    ensures |values| == |kinds|
  {
    if kinds == [] then [] else
      [Decode(kinds[0], b[..Width(kinds[0])])] + DecodeAll(kinds[1..], b[Width(kinds[0])..])
  }

  function Kinds(fields: seq<Field>): (kinds: seq<Kind>)
    ensures |kinds| == |fields|
  {
    seq(|fields|, i requires 0 <= i < |fields| => fields[i].kind)
  }

  /** A list of fields reads back in order, whatever follows it. */
  lemma {:induction false} DecodeAllEncodeAll(fields: seq<Field>, rest: seq<Byte>)
    ensures |EncodeAll(fields)| == TotalWidth(Kinds(fields))
    ensures DecodeAll(Kinds(fields), EncodeAll(fields) + rest)
              == seq(|fields|, i requires 0 <= i < |fields| => Truncated(fields[i]))
  {
    hide Encode, Decode, Truncated, Width;
    if fields != [] {
      DecodeEncode(fields[0]);
      DecodeAllEncodeAll(fields[1..], rest);
      var b := EncodeAll(fields) + rest;
      assert Kinds(fields)[1..] == Kinds(fields[1..]);
      assert b[..Width(fields[0].kind)] == Encode(fields[0]);
      assert b[Width(fields[0].kind)..] == EncodeAll(fields[1..]) + rest;
    }
  }

  /** Bytes laid over a string from a position on, past its end if need be. */
  function Splice(s: seq<Byte>, at: nat, b: seq<Byte>): (r: seq<Byte>)
    requires at <= |s|
    ensures |r| == if at + |b| > |s| then at + |b| else |s|
  {
    s[..at] + b + if at + |b| <= |s| then s[at + |b|..] else []
  }

  /** The new bytes stand at the cursor, and around them what stood there before. */
  lemma SpliceAt(s: seq<Byte>, at: nat, b: seq<Byte>, k: nat)
    requires at <= |s| && k < |Splice(s, at, b)|
    ensures Splice(s, at, b)[k] == if at <= k < at + |b| then b[k - at] else s[k]
  {
  }

  /** Two writes in a row are one. */
  lemma SpliceTwice(s: seq<Byte>, at: nat, b: seq<Byte>, c: seq<Byte>)
    requires at <= |s|
    ensures Splice(Splice(s, at, b), at + |b|, c) == Splice(s, at, b + c)
  {
  }
}

/** The blob: bytes in memory that grow on demand, and a cursor. */
module Blob {
  import opened Bits
  import opened Sequences
  import opened BlobSpec
  import opened ByteOrder

  function Max(a: nat, b: nat): nat {
    if a > b then a else b
  }

  /** What the readers return when nothing could be read. */
  const NO_LONG: Word := 0xFFFF_FFFF
  const NO_SHORT: nat := 0xFFFF

  /** The shifts and ORs of the readers. */
  lemma NumberOfTwo(b0: Byte, b1: Byte)
    ensures Number([b0, b1]) == Or(b1 * 0x100, b0) <= NO_SHORT
  {
    hide Or;
    OrByte(b1, b0);
    assert Number([b1]) == b1;
  }

  lemma NumberOfFour(b0: Byte, b1: Byte, b2: Byte, b3: Byte)
    ensures Number([b0, b1, b2, b3]) == Or(Or(Or(b3 * 0x100_0000, b2 * 0x1_0000), b1 * 0x100), b0) <= NO_LONG
  {
    hide Or;
    OrFour(b3, b2, b1, b0);
    assert Number([b3]) == b3;
    assert Number([b2, b3]) == b2 + 256 * b3;
    assert Number([b1, b2, b3]) == b1 + 256 * Number([b2, b3]);
    assert [b0, b1, b2, b3][1..] == [b1, b2, b3];
  }

  class Blob {
    var data: array?<Byte>
    var length: nat
    var offset: nat

    ghost predicate Valid()
      reads this
    {
      && offset <= length
      && (data == null ==> length == 0)
      && (data != null ==> length <= data.Length)
    }

    /** The bytes the blob stands for. */
    ghost function Contents(): (s: seq<Byte>)
      reads this, data
      requires Valid()
      ensures |s| == length
    {
      if data == null then [] else data[..length]
    }

    /** Takes over memory of which the first `length` bytes are in use. */
    constructor Attach(data: array<Byte>, length: nat)
      requires length <= data.Length
      ensures Valid() && this.data == data && offset == 0 && Contents() == data[..length]
    {
      this.data, this.length, offset := data, length, 0;
    }

    static method Allocate(dataLen: int) returns (blob: Blob?)
      ensures blob == null <==> dataLen <= 0
      ensures blob != null ==> fresh(blob) && blob.Valid() && blob.data != null && fresh(blob.data)
                               && blob.length == dataLen && blob.offset == 0
    {
      if dataLen <= 0 {
        return null;
      }
      var data := new Byte[dataLen + 1];
      blob := new Blob.Attach(data, dataLen);
    }

    method Rewind()
      requires Valid()
      modifies `offset
      ensures Valid() && offset == 0
    {
      offset := 0;
    }

    method Detach()
      modifies this
      ensures Valid() && data == null && Contents() == []
    {
      length, offset, data := 0, 0, null;
    }

    method Size() returns (n: int)
      requires Valid()
      ensures n == if data == null then -1 else |Contents()|
    {
      n := if data != null then length else -1;
    }

    method Tell() returns (n: int)
      requires Valid()
      ensures data == null <==> n == -1
      ensures data != null ==> 0 <= n <= |Contents()| && n == offset
    {
      n := if data != null then offset else -1;
    }

    /** Copies as many bytes as there are, at most `count`, and moves the cursor behind them. */
    method Read(count: nat, buffer: array<Byte>) returns (n: int)
      requires Valid() && count <= buffer.Length && buffer != data
      modifies `offset, buffer
      ensures Valid()
      ensures n == if data == null then -1
                   else if count <= length - old(offset) then count else length - old(offset)
      ensures offset == old(offset) + (if n < 0 then 0 else n)
      ensures n >= 0 ==> buffer[..n] == Contents()[old(offset)..offset] && buffer[n..] == old(buffer[n..])
    {
      if data == null {
        return -1;
      }
      n := if count > length - offset then length - offset else count;
      if n > 0 {
        forall i | 0 <= i < n {
          buffer[i] := data[offset + i];
        }
        offset := offset + n;
      }
    }

    /** Lays `count` bytes over the contents at the cursor; the length grows by exactly what is missing. */
    method Write(count: nat, src: array<Byte>) returns (n: int)
      requires Valid() && count <= src.Length && src != data
      modifies this, data
      ensures Valid() && (old(data) != null ==> data != null) && (data == old(data) || fresh(data))
      ensures old(data) == null ==> n == -1 && data == null && offset == old(offset)
      ensures old(data) != null ==> n == count && offset == old(offset) + count
                                    && Contents() == Splice(old(Contents()), old(offset), src[..count])
      ensures old(data) != null ==> data[old(offset)..offset] == src[..count]
    {
      if data == null {
        return -1;
      }
      if count > length - offset {
        Reacquire(length + (count - (length - offset)));
      }
      ghost var before := data[..length];
      forall i | 0 <= i < count {
        data[offset + i] := src[i];
      }
      offset := offset + count;
      assert data[..length] == before[..old(offset)] + src[..count] + before[offset..];
      length := Max(offset, length);
      return count;
    }

    /** Memory of the new length that starts with the old bytes. */
    method Reacquire(newLength: nat)
      requires Valid() && data != null && newLength >= length
      modifies `data, `length
      ensures Valid() && data != null && fresh(data) && length == data.Length == newLength
      ensures data[..old(length)] == old(data[..length])
    {
      var d := new Byte[newLength];
      forall i | 0 <= i < length {
        d[i] := data[i];
      }
      data, length := d, newLength;
    }

    /** What a writer of one field does to a blob that held `before` with the cursor at `at`. */
    ghost predicate Wrote(f: Field, memory: array?<Byte>, before: seq<Byte>, at: nat, n: int)
      reads this, data
      requires Valid() && at <= |before|
    {
      if memory == null then n == -1 && data == null && offset == at
      else data != null && n == Width(f.kind) && offset == at + n && Contents() == Splice(before, at, Encode(f))
    }


    method WriteByte(value: int) returns (n: int)
      requires Valid()
      modifies this, data
      ensures Valid() && Wrote(Field(Byte8, value), old(data), old(Contents()), old(offset), n)
      ensures data == old(data) || fresh(data)
    {
      LittleFour(value);
      var buffer := new Byte[1];
      buffer[0] := value % 256;
      assert buffer[..1] == Encode(Field(Byte8, value));
      n := Write(1, buffer);
    }

    method WriteLsbLong(value: int) returns (n: int)
      requires Valid()
      modifies this, data
      ensures Valid() && Wrote(Field(LsbLong, value), old(data), old(Contents()), old(offset), n)
      ensures n >= 0 ==> data != null && old(offset) <= offset <= data.Length
      ensures n >= 0 ==> data[old(offset)..offset] ==
                         [value % 256, value / 0x100 % 256, value / 0x1_0000 % 256, value / 0x100_0000 % 256]
      ensures data == old(data) || fresh(data)
    {
      LittleFour(value);
      var buffer := new Byte[4];
      buffer[0] := value % 256;
      buffer[1] := value / 0x100 % 256;
      buffer[2] := value / 0x1_0000 % 256;
      buffer[3] := value / 0x100_0000 % 256;
      assert buffer[..4] == Encode(Field(LsbLong, value));
      n := Write(4, buffer);
    }

    method WriteLsbShort(value: int) returns (n: int)
      requires Valid()
      modifies this, data
      ensures Valid() && Wrote(Field(LsbShort, value), old(data), old(Contents()), old(offset), n)
      ensures n >= 0 ==> data != null && old(offset) <= offset <= data.Length
      ensures n >= 0 ==> data[old(offset)..offset] ==
                         [value % 256, value / 0x100 % 256]
      ensures data == old(data) || fresh(data)
    {
      LittleFour(value);
      var buffer := new Byte[2];
      buffer[0] := value % 256;
      buffer[1] := value / 0x100 % 256;
      assert buffer[..2] == Encode(Field(LsbShort, value));
      n := Write(2, buffer);
    }

    method WriteMsbLong(value: int) returns (n: int)
      requires Valid()
      modifies this, data
      ensures Valid() && Wrote(Field(MsbLong, value), old(data), old(Contents()), old(offset), n)
      ensures n >= 0 ==> data != null && old(offset) <= offset <= data.Length
      ensures n >= 0 ==> data[old(offset)..offset] ==
                         [value / 0x100_0000 % 256, value / 0x1_0000 % 256, value / 0x100 % 256, value % 256]
      ensures data == old(data) || fresh(data)
    {
      LittleFour(value);
      ReversedFour(Digits(value, 4));
      var buffer := new Byte[4];
      buffer[0] := value / 0x100_0000 % 256;
      buffer[1] := value / 0x1_0000 % 256;
      buffer[2] := value / 0x100 % 256;
      buffer[3] := value % 256;
      assert buffer[..4] == Encode(Field(MsbLong, value));
      n := Write(4, buffer);
    }

    method WriteMsbShort(value: int) returns (n: int)
      requires Valid()
      modifies this, data
      ensures Valid() && Wrote(Field(MsbShort, value), old(data), old(Contents()), old(offset), n)
      ensures n >= 0 ==> data != null && old(offset) <= offset <= data.Length
      ensures n >= 0 ==> data[old(offset)..offset] ==
                         [value / 0x100 % 256, value % 256]
      ensures data == old(data) || fresh(data)
    {
      LittleFour(value);
      ReversedFour(Digits(value, 2));
      var buffer := new Byte[2];
      buffer[0] := value / 0x100 % 256;
      buffer[1] := value % 256;
      assert buffer[..2] == Encode(Field(MsbShort, value));
      n := Write(2, buffer);
    }

    /** What a reader of one field gives: its value when all of it is there, the error value when nothing
        is, and something arbitrary in between; the cursor stops at the end. */
    ghost predicate DidRead(k: Kind, at: nat, v: int, nothing: int)
      reads this, data
      requires Valid() && data != null
    {
      && (at + Width(k) <= length ==> offset == at + Width(k) && v == Decode(k, Contents()[at..at + Width(k)]))
      && (at + Width(k) > length ==> offset == length)
      && (at == length ==> v == nothing)
    }

    method ReadByte() returns (v: int)
      requires Valid()
      modifies `offset
      ensures Valid() && -1 <= v < 256
      ensures data != null ==> DidRead(Byte8, old(offset), v, -1)
      ensures data == null ==> offset == old(offset)
    {
      var buffer := new Byte[1];
      var count := Read(1, buffer);
      if count == 0 {
        return -1;
      }
      assert count == 1 ==> buffer[..1] == [buffer[0]] && Number(buffer[..1]) == buffer[0];
      return buffer[0];
    }

    method ReadLsbLong() returns (value: Word)
      requires Valid()
      modifies `offset
      ensures Valid() && (data == null ==> offset == old(offset))
      ensures data != null ==> DidRead(LsbLong, old(offset), value, NO_LONG)
    {
      hide Or;
      var buffer := new Byte[4];
      var count := Read(4, buffer);
      if count == 0 {
        return NO_LONG;
      }
      var b0: int, b1: int, b2: int, b3: int := buffer[0], buffer[1], buffer[2], buffer[3];
      NumberOfFour(b0, b1, b2, b3);
      assert count == 4 ==> buffer[..4] == [b0, b1, b2, b3];
      var joined := b3 * 0x100_0000;
      joined := Or(joined, b2 * 0x1_0000);
      joined := Or(joined, b1 * 0x100);
      joined := Or(joined, b0);
      value := joined;
    }

    method ReadLsbShort() returns (value: nat)
      requires Valid()
      modifies `offset
      ensures Valid() && (data == null ==> offset == old(offset))
      ensures value <= NO_SHORT
      ensures data != null ==> DidRead(LsbShort, old(offset), value, NO_SHORT)
    {
      hide Or;
      var buffer := new Byte[2];
      var count := Read(2, buffer);
      if count == 0 {
        return NO_SHORT;
      }
      var b0: int, b1: int := buffer[0], buffer[1];
      NumberOfTwo(b0, b1);
      assert count == 2 ==> buffer[..2] == [b0, b1];
      var joined := b1 * 0x100;
      joined := Or(joined, b0);
      value := joined;
    }

    method ReadMsbLong() returns (value: Word, errNo: int)
      requires Valid()
      modifies `offset
      ensures Valid() && (data == null ==> offset == old(offset))
      ensures data != null ==> DidRead(MsbLong, old(offset), value, NO_LONG)
      ensures data != null ==> (errNo == -1 <==> old(offset) == length)
      ensures errNo in {0, -1}
    {
      hide Or;
      errNo := 0;
      var buffer := new Byte[4];
      var count := Read(4, buffer);
      if count == 0 {
        return NO_LONG, -1;
      }
      var b0: int, b1: int, b2: int, b3: int := buffer[0], buffer[1], buffer[2], buffer[3];
      NumberOfFour(b3, b2, b1, b0);
      ReversedFour([b0, b1, b2, b3]);
      assert count == 4 ==> buffer[..4] == [b0, b1, b2, b3];
      var joined := b0 * 0x100_0000;
      joined := Or(joined, b1 * 0x1_0000);
      joined := Or(joined, b2 * 0x100);
      joined := Or(joined, b3);
      value := joined;
    }

    method ReadMsbShort() returns (value: nat, errNo: int)
      requires Valid()
      modifies `offset
      ensures Valid() && (data == null ==> offset == old(offset))
      ensures value <= NO_SHORT
      ensures data != null ==> DidRead(MsbShort, old(offset), value, NO_SHORT)
      ensures data != null ==> (errNo == -1 <==> old(offset) == length)
      ensures errNo in {0, -1}
    {
      hide Or;
      errNo := 0;
      var buffer := new Byte[2];
      var count := Read(2, buffer);
      if count == 0 {
        return NO_SHORT, -1;
      }
      var b0: int, b1: int := buffer[0], buffer[1];
      NumberOfTwo(b1, b0);
      ReversedFour([b0, b1]);
      assert count == 2 ==> buffer[..2] == [b0, b1];
      var joined := b0 * 0x100;
      joined := Or(joined, b1);
      value := joined;
    }
  }

  // ---------- a client: whole records ----------

  method WriteField(blob: Blob, f: Field)
    requires blob.Valid() && blob.data != null
    modifies blob, blob.data
    ensures blob.Valid() && blob.data != null && (blob.data == old(blob.data) || fresh(blob.data))
    ensures blob.offset == old(blob.offset) + Width(f.kind)
    ensures blob.Contents() == Splice(old(blob.Contents()), old(blob.offset), Encode(f))
  {
    hide Encode, Splice;
    match f.kind
    case Byte8 => var _ := blob.WriteByte(f.value);
    case LsbShort => var _ := blob.WriteLsbShort(f.value);
    case MsbShort => var _ := blob.WriteMsbShort(f.value);
    case LsbLong => var _ := blob.WriteLsbLong(f.value);
    case MsbLong => var _ := blob.WriteMsbLong(f.value);
  }

  method ReadField(blob: Blob, k: Kind) returns (v: nat)
    requires blob.Valid() && blob.data != null && blob.offset + Width(k) <= blob.length
    modifies blob`offset
    ensures blob.Valid() && blob.offset == old(blob.offset) + Width(k) && blob.Contents() == old(blob.Contents())
    ensures v == Decode(k, blob.Contents()[old(blob.offset)..blob.offset])
  {
    hide Decode;
    var errNo;
    match k
    case Byte8 => v := blob.ReadByte();
    case LsbShort => v := blob.ReadLsbShort();
    case MsbShort => v, errNo := blob.ReadMsbShort();
    case LsbLong => v := blob.ReadLsbLong();
    case MsbLong => v, errNo := blob.ReadMsbLong();
  }

  lemma {:induction false} EncodeAllSnoc(fields: seq<Field>, f: Field)
    ensures EncodeAll(fields + [f]) == EncodeAll(fields) + Encode(f)
  {
    hide Encode;
    if fields == [] {
      assert EncodeAll([f]) == Encode(f) + EncodeAll([]);
    } else {
      assert (fields + [f])[1..] == fields[1..] + [f];
      EncodeAllSnoc(fields[1..], f);
    }
  }

  /** Writing field after field lays their bytes over the contents as one string. */
  method WriteAll(blob: Blob, fields: seq<Field>)
    requires blob.Valid() && blob.data != null
    modifies blob, blob.data
    ensures blob.Valid() && blob.data != null && (blob.data == old(blob.data) || fresh(blob.data))
    ensures blob.offset == old(blob.offset) + |EncodeAll(fields)|
    ensures blob.Contents() == Splice(old(blob.Contents()), old(blob.offset), EncodeAll(fields))
  {
    hide Encode, Splice;
    ghost var before, start := blob.Contents(), blob.offset;
    SpliceNothing(before, start);
    for i := 0 to |fields|
      invariant blob.Valid() && blob.data != null && (blob.data == old(blob.data) || fresh(blob.data))
      invariant blob.offset == start + |EncodeAll(fields[..i])|
      invariant blob.Contents() == Splice(before, start, EncodeAll(fields[..i]))
    {
      SpliceTwice(before, start, EncodeAll(fields[..i]), Encode(fields[i]));
      EncodeAllSnoc(fields[..i], fields[i]);
      assert fields[..i + 1] == fields[..i] + [fields[i]];
      WriteField(blob, fields[i]);
    }
    assert fields[..|fields|] == fields;
  }

  lemma SpliceNothing(s: seq<Byte>, at: nat)
    requires at <= |s|
    ensures Splice(s, at, []) == s
  {
  }

  lemma DecodeNext(kinds: seq<Kind>, i: nat, s: seq<Byte>, at: nat)
    requires i < |kinds| && at + TotalWidth(kinds[i..]) <= |s|
    ensures var next := at + Width(kinds[i]);
            && next + TotalWidth(kinds[i + 1..]) == at + TotalWidth(kinds[i..])
            && DecodeAll(kinds[i..], s[at..]) == [Decode(kinds[i], s[at..next])] + DecodeAll(kinds[i + 1..], s[next..])
  {
    hide Decode, Width;
    var w := Width(kinds[i]);
    assert kinds[i..][0] == kinds[i] && kinds[i..][1..] == kinds[i + 1..];
    assert s[at..][..w] == s[at..at + w] && s[at..][w..] == s[at + w..];
  }

  method ReadAll(blob: Blob, kinds: seq<Kind>) returns (values: seq<nat>)
    requires blob.Valid() && blob.data != null && blob.offset + TotalWidth(kinds) <= blob.length
    modifies blob`offset
    ensures blob.Valid() && blob.offset == old(blob.offset) + TotalWidth(kinds)
    ensures values == DecodeAll(kinds, blob.Contents()[old(blob.offset)..])
  {
    hide *;
    values := [];
    ghost var s, start := blob.Contents(), blob.offset;
    assert kinds[0..] == kinds;
    for i := 0 to |kinds|
      invariant blob.Valid() && blob.Contents() == s
      invariant blob.offset + TotalWidth(kinds[i..]) == start + TotalWidth(kinds) <= |s|
      invariant values + DecodeAll(kinds[i..], s[blob.offset..]) == DecodeAll(kinds, s[start..])
    {
      DecodeNext(kinds, i, s, blob.offset);
      var v := ReadField(blob, kinds[i]);
      values := values + [v];
    }
    NoKinds(kinds[|kinds|..], s[blob.offset..]);
  }

  lemma NoKinds(kinds: seq<Kind>, s: seq<Byte>)
    requires kinds == []
    ensures TotalWidth(kinds) == 0 && DecodeAll(kinds, s) == []
  {
  }

  lemma ReadBack(before: seq<Byte>, fields: seq<Field>)
    ensures var s := Splice(before, 0, EncodeAll(fields));
            && TotalWidth(Kinds(fields)) == |EncodeAll(fields)| <= |s| == Max(|before|, |EncodeAll(fields)|)
            && DecodeAll(Kinds(fields), s[0..]) == seq(|fields|, i requires 0 <= i < |fields| => Truncated(fields[i]))
  {
    hide Truncated, DecodeAll, EncodeAll, TotalWidth, Kinds;
    var b, s := EncodeAll(fields), Splice(before, 0, EncodeAll(fields));
    DecodeAllEncodeAll(fields, s[|b|..]);
    assert s[0..] == s == b + s[|b|..];
  }

  /** What is written as a record is read as a record, each value truncated to the width of its field. */
  method StoreAndLoad(blob: Blob, fields: seq<Field>) returns (values: seq<nat>)
    requires blob.Valid() && blob.data != null && blob.offset == 0
    modifies blob, blob.data
    ensures blob.Valid() && blob.offset == |EncodeAll(fields)|
    ensures |blob.Contents()| == Max(|old(blob.Contents())|, |EncodeAll(fields)|)
    ensures values == seq(|fields|, i requires 0 <= i < |fields| => Truncated(fields[i]))
  {
    hide *;
    ghost var before := blob.Contents();
    WriteAll(blob, fields);
    blob.Rewind();
    ReadBack(before, fields);
    values := ReadAll(blob, Kinds(fields));
  }
}
