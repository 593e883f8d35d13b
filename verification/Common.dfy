/** A value that may be absent. */
module Options {
  datatype Option<T> = None | Some(value: T)
}

/** Facts about sequences that several components use. */
module Sequences {

  function Reversed<T>(s: seq<T>): (r: seq<T>)
    ensures |r| == |s|
  {
    if s == [] then [] else Reversed(s[1..]) + [s[0]]
  }

  lemma {:induction false} ReversedConcat<T>(s: seq<T>, t: seq<T>)
    ensures Reversed(s + t) == Reversed(t) + Reversed(s)
  {
    if s == [] {
      assert [] + t == t;
    } else {
      assert (s + t)[1..] == s[1..] + t;
      ReversedConcat(s[1..], t);
    }
  }

  lemma {:induction false} ReversedTwice<T>(s: seq<T>)
    ensures Reversed(Reversed(s)) == s
  {
    if s != [] {
      ReversedTwice(s[1..]);
      ReversedConcat(Reversed(s[1..]), [s[0]]);
    }
  }

  lemma {:induction false} ReversedAt<T>(s: seq<T>, k: nat)
    requires k < |s|
    ensures Reversed(s)[k] == s[|s| - 1 - k]
  {
    if k < |s| - 1 {
      ReversedAt(s[1..], k);
    }
  }

  lemma Associates<T>(a: seq<T>, b: seq<T>, c: seq<T>)
    ensures a + b + c == a + (b + c)
  {
  }

  ghost predicate Distinct<T>(s: seq<T>) {
    forall i, j :: 0 <= i < j < |s| ==> s[i] != s[j]
  }

  /** `s` without the elements of `gone`, order kept. */
  ghost function Without<T>(s: seq<T>, gone: set<T>): seq<T>
  {
    if s == [] then [] else (if s[0] in gone then [] else [s[0]]) + Without(s[1..], gone)
  }

  lemma {:induction false} WithoutMembers<T>(s: seq<T>, gone: set<T>)
    ensures forall x :: x in Without(s, gone) <==> x in s && x !in gone
  {
    if s != [] { WithoutMembers(s[1..], gone); }
  }

  lemma {:induction false} WithoutConcat<T>(a: seq<T>, b: seq<T>, gone: set<T>)
    ensures Without(a + b, gone) == Without(a, gone) + Without(b, gone)
  {
    if a == [] {
      assert a + b == b;
    } else {
      assert (a + b)[1..] == a[1..] + b;
      WithoutConcat(a[1..], b, gone);
    }
  }

  lemma {:induction false} WithoutNone<T>(s: seq<T>, gone: set<T>)
    requires forall x :: x in s ==> x !in gone
    ensures Without(s, gone) == s
  {
    if s != [] { WithoutNone(s[1..], gone); }
  }

  lemma {:induction false} WithoutTwice<T>(s: seq<T>, a: set<T>, b: set<T>)
    requires a <= b
    ensures Without(Without(s, a), b) == Without(s, b)
  {
    if s != [] {
      WithoutTwice(s[1..], a, b);
      var head := if s[0] in a then [] else [s[0]];
      WithoutConcat(head, Without(s[1..], a), b);
      assert Without(head, b) == if s[0] in b then [] else [s[0]];
    }
  }

  /** Taking the one element at `k` out of a duplicate-free sequence. */
  lemma WithoutOne<T>(s: seq<T>, k: nat, gone: set<T>)
    requires k < |s| && s[k] in gone
    requires forall i :: 0 <= i < |s| && i != k ==> s[i] !in gone
    ensures Without(s, gone) == s[..k] + s[k + 1..]
  {
    var before, after := s[..k], s[k + 1..];
    assert s == before + ([s[k]] + after);
    WithoutConcat(before, [s[k]] + after, gone);
    WithoutConcat([s[k]], after, gone);
    assert Without([s[k]], gone) == [];
    WithoutNone(before, gone);
    WithoutNone(after, gone);
    assert [] + after == after;
  }

  lemma RemovedAt<T>(s: seq<T>, k: nat, gone: set<T>)
    requires k < |s|
    requires forall x :: x in s ==> x !in gone
    requires Distinct(s)
    ensures var r := s[..k] + s[k + 1..];
            && r == Without(s, gone + {s[k]})
            && (forall x :: x in r <==> x in s && x != s[k])
            && Distinct(r)
  {
    WithoutOne(s, k, gone + {s[k]});
    WithoutMembers(s, gone + {s[k]});
  }

  /** The list `p0` became `p` by losing elements only, all of them now in the cancelled set,
      which grew from `c0` to `c` by elements of `p0` only. */
  ghost predicate Shrunk<T>(p0: seq<T>, c0: set<T>, p: seq<T>, c: set<T>) {
    && c0 <= c
    && p == Without(p0, c)
    && (forall x :: x in c ==> x in c0 || x in p0)
  }

  lemma ShrunkMembers<T>(p0: seq<T>, c0: set<T>, p: seq<T>, c: set<T>)
    requires Shrunk(p0, c0, p, c)
    ensures forall x :: x in p ==> x in p0
  {
    WithoutMembers(p0, c);
  }

  lemma ShrunkSame<T>(p: seq<T>, c: set<T>)
    requires forall x :: x in p ==> x !in c
    ensures Shrunk(p, c, p, c)
  {
    WithoutNone(p, c);
  }

  lemma {:induction false} WithoutShortens<T>(s: seq<T>, gone: set<T>)
    ensures |Without(s, gone)| <= |s|
  {
    if s != [] { WithoutShortens(s[1..], gone); }
  }

  lemma {:induction false} WithoutDistinct<T>(s: seq<T>, gone: set<T>)
    requires Distinct(s)
    ensures Distinct(Without(s, gone))
  {
    if s != [] {
      WithoutDistinct(s[1..], gone);
      WithoutMembers(s[1..], gone);
      assert forall x :: x in s[1..] ==> x != s[0];
    }
  }

  /** If `done` and the rest of the list make up what is left of `p0`, they still do so, after
      the rest has shrunk, of what is left then. */
  lemma ShrunkBehind<T>(p0: seq<T>, done: seq<T>, p1: seq<T>, c1: set<T>, p2: seq<T>, c2: set<T>)
    requires Distinct(p0) && done + p1 == Without(p0, c1)
    requires Shrunk(p1, c1, p2, c2)
    ensures done + p2 == Without(p0, c2) && |p2| <= |p1|
  {
    WithoutTwice(p0, c1, c2);
    WithoutConcat(done, p1, c2);
    WithoutDistinct(p0, c1);
    WithoutMembers(p0, c1);
    forall x | x in done
      ensures x !in c2
    {
      var i :| 0 <= i < |done| && done[i] == x;
      assert x == (done + p1)[i];
      assert forall j :: 0 <= j < |p1| ==> p1[j] == (done + p1)[|done| + j];
    }
    WithoutNone(done, c2);
    WithoutShortens(p1, c2);
  }

  lemma ShrunkTwice<T>(p0: seq<T>, c0: set<T>, p1: seq<T>, c1: set<T>, p2: seq<T>, c2: set<T>)
    requires Shrunk(p0, c0, p1, c1) && Shrunk(p1, c1, p2, c2)
    ensures Shrunk(p0, c0, p2, c2)
  {
    WithoutTwice(p0, c1, c2);
    WithoutMembers(p0, c1);
  }

  lemma SameMembers<T>(a: set<T>, b: set<T>)
    requires forall x :: x in a <==> x in b
    ensures a == b
  {
  }
}

/** Numbers as byte strings, in either byte order. */
module ByteOrder {
  import opened Bits
  import opened Sequences

  function Pow256(n: nat): (p: nat)
    ensures p > 0
  {
    if n == 0 then 1 else 256 * Pow256(n - 1)
  }

  /** The n lowest base-256 digits, lowest first. */
  function Digits(v: int, n: nat): (b: seq<Byte>)
    ensures |b| == n
    decreases n
  {
    if n == 0 then [] else [v % 256] + Digits(v / 256, n - 1)
  }

  function Number(b: seq<Byte>): (v: nat) {
    if b == [] then 0 else b[0] + 256 * Number(b[1..])
  }

  /** The same, highest first. */
  function HighDigits(v: int, n: nat): (b: seq<Byte>)
    ensures |b| == n
  {
    Reversed(Digits(v, n))
  }

  function HighNumber(b: seq<Byte>): (v: nat) {
    Number(Reversed(b))
  }

  lemma {:induction false} NumberOfDigits(v: int, n: nat)
    ensures Number(Digits(v, n)) == v % Pow256(n)
    decreases n
  {
    if n > 0 {
      NumberOfDigits(v / 256, n - 1);
      assert Digits(v, n)[1..] == Digits(v / 256, n - 1);
      RemainderStep(v, Pow256(n - 1));
    }
  }

  /** The remainder, one base-256 digit at a time; v may be negative. */
  lemma RemainderStep(v: int, d: nat)
    requires d > 0
    ensures v % (256 * d) == 256 * (v / 256 % d) + v % 256
  {
    var a, low, m := v / 256, v % 256, 256 * d;
    var q, r := a / d, a % d;
    var p, s := v / m, v % m;
    assert q * m == 256 * (q * d);
    assert v == 256 * a + low && a == q * d + r && v == p * m + s;
    assert (q - p) * m == q * m - p * m;
    SmallMultiple(q - p, m);
  }

  lemma SmallMultiple(k: int, m: nat)
    ensures k > 0 ==> k * m >= m
    ensures k < 0 ==> k * m + m <= 0
  {
    if k > 0 {
      MulLess(0, k, m);
    } else if k < 0 {
      MulLess(0, -k, m);
    }
  }

  lemma HighNumberOfDigits(v: int, n: nat)
    ensures HighNumber(HighDigits(v, n)) == v % Pow256(n)
  {
    NumberOfDigits(v, n);
    ReversedTwice(Digits(v, n));
  }

  lemma LittleFour(v: int)
    ensures Digits(v, 4) == [v % 256, v / 0x100 % 256, v / 0x1_0000 % 256, v / 0x100_0000 % 256]
    ensures Digits(v, 2) == [v % 256, v / 0x100 % 256]
    ensures Digits(v, 1) == [v % 256]
  {
    assert v / 256 / 256 == v / 0x1_0000 && v / 256 / 256 / 256 == v / 0x100_0000;
    assert Digits(v / 256 / 256, 2) == [v / 0x1_0000 % 256, v / 0x100_0000 % 256];
  }

  lemma ReversedFour(b: seq<Byte>)
    ensures |b| == 2 ==> Reversed(b) == [b[1], b[0]]
    ensures |b| == 4 ==> Reversed(b) == [b[3], b[2], b[1], b[0]]
  {
    if |b| == 4 {
      assert Reversed(b[2..]) == [b[3], b[2]];
    }
  }
}
