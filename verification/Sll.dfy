/** Sorted insertion as a pure operation: what a comparison function that is a total preorder gives. */
module SllSpec {
  import opened Sequences

  /** The list is kept so that no element compares greater than a later one. */
  predicate Greater<T>(comp: (T, T) -> int, x: T, y: T) {
    comp(x, y) > 0
  }

  ghost predicate TotalPreorder<T(!new)>(comp: (T, T) -> int) {
    && (forall x, y :: !(Greater(comp, x, y) && Greater(comp, y, x)))
    && (forall x, y, z :: !Greater(comp, x, y) && !Greater(comp, y, z) ==> !Greater(comp, x, z))
  }

  ghost predicate Sorted<T>(s: seq<T>, comp: (T, T) -> int) {
    forall i, j :: 0 <= i < j < |s| ==> !Greater(comp, s[i], s[j])
  }

  /** Before the first element that compares greater. */
  function Place<T>(s: seq<T>, x: T, comp: (T, T) -> int): (k: nat)
    ensures k <= |s|
    ensures forall i :: 0 <= i < k ==> !Greater(comp, s[i], x)
    ensures k < |s| ==> Greater(comp, s[k], x)
  {
    if s == [] || Greater(comp, s[0], x) then 0 else 1 + Place(s[1..], x, comp)
  }

  lemma {:induction false} PlaceIs<T>(s: seq<T>, x: T, comp: (T, T) -> int, k: nat)
    requires k <= |s| && (forall i :: 0 <= i < k ==> !Greater(comp, s[i], x))
    requires k < |s| ==> Greater(comp, s[k], x)
    ensures Place(s, x, comp) == k
  {
  }

  function Inserted<T>(s: seq<T>, x: T, comp: (T, T) -> int): (r: seq<T>) {
    var k := Place(s, x, comp);
    s[..k] + [x] + s[k..]
  }

  /** Everything from the place on is greater. */
  lemma BehindIsGreater<T(!new)>(s: seq<T>, x: T, comp: (T, T) -> int)
    requires TotalPreorder(comp) && Sorted(s, comp)
    ensures forall i :: Place(s, x, comp) <= i < |s| ==> Greater(comp, s[i], x)
  {
    var k := Place(s, x, comp);
    forall i | k <= i < |s|
      ensures Greater(comp, s[i], x)
    {
      if i > k {
        assert !Greater(comp, s[k], s[i]);
      }
    }
  }

  /** The new element keeps the order exactly when there was one. */
  lemma InsertedSorted<T(!new)>(s: seq<T>, x: T, comp: (T, T) -> int)
    requires TotalPreorder(comp)
    ensures Sorted(s, comp) <==> Sorted(Inserted(s, x, comp), comp)
  {
    var k, r := Place(s, x, comp), Inserted(s, x, comp);
    if Sorted(s, comp) {
      BehindIsGreater(s, x, comp);
      assert forall i :: k < i < |r| ==> r[i] == s[i - 1];
    }
    if Sorted(r, comp) {
      forall i, j | 0 <= i < j < |s|
        ensures !Greater(comp, s[i], s[j])
      {
        var i', j' := if i < k then i else i + 1, if j < k then j else j + 1;
        assert s[i] == r[i'] && s[j] == r[j'];
      }
    }
  }

  predicate Same<T>(comp: (T, T) -> int, x: T, y: T) {
    !Greater(comp, x, y) && !Greater(comp, y, x)
  }

  /** The elements that compare equal to one, in their order. */
  function Alike<T>(s: seq<T>, x: T, comp: (T, T) -> int): seq<T> {
    if s == [] then [] else (if Same(comp, s[0], x) then [s[0]] else []) + Alike(s[1..], x, comp)
  }

  lemma {:induction false} AlikeConcat<T>(s: seq<T>, t: seq<T>, x: T, comp: (T, T) -> int)
    ensures Alike(s + t, x, comp) == Alike(s, x, comp) + Alike(t, x, comp)
  {
    hide Same;
    if s == [] {
      assert [] + t == t;
    } else {
      assert (s + t)[1..] == s[1..] + t && (s + t)[0] == s[0];
      AlikeConcat(s[1..], t, x, comp);
      var first := if Same(comp, s[0], x) then [s[0]] else [];
      assert Alike(s + t, x, comp) == first + Alike((s + t)[1..], x, comp);
      Associates(first, Alike(s[1..], x, comp), Alike(t, x, comp));
    }
  }

  lemma {:induction false} NoneAlike<T>(s: seq<T>, x: T, comp: (T, T) -> int)
    requires forall y :: y in s ==> !Same(comp, y, x)
    ensures Alike(s, x, comp) == []
  {
    if s != [] {
      NoneAlike(s[1..], x, comp);
    }
  }

  lemma GreaterIsNotSame<T(!new)>(comp: (T, T) -> int, z: T, y: T, x: T)
    requires TotalPreorder(comp) && Greater(comp, z, y) && Same(comp, y, x)
    ensures !Same(comp, z, x)
  {
    assert !Greater(comp, x, y);
  }

  lemma NoneBehind<T(!new)>(s: seq<T>, y: T, x: T, comp: (T, T) -> int)
    requires TotalPreorder(comp) && Sorted(s, comp) && Same(comp, y, x)
    ensures Alike(s[Place(s, y, comp)..], x, comp) == []
  {
    hide TotalPreorder, Sorted, Greater, Same, Alike;
    var k := Place(s, y, comp);
    BehindIsGreater(s, y, comp);
    forall z | z in s[k..]
      ensures !Same(comp, z, x)
    {
      GreaterIsNotSame(comp, z, y, x);
    }
    NoneAlike(s[k..], x, comp);
  }

  /** The new element comes after all that compare equal. */
  lemma InsertedStable<T(!new)>(s: seq<T>, y: T, x: T, comp: (T, T) -> int)
    requires TotalPreorder(comp) && Sorted(s, comp)
    ensures Alike(Inserted(s, y, comp), x, comp) == Alike(s + [y], x, comp)
  {
    hide TotalPreorder, Sorted, Greater, Same, Alike, Place;
    var k := Place(s, y, comp);
    assert s == s[..k] + s[k..];
    AlikeConcat(s[..k], s[k..], x, comp);
    AlikeConcat(s[..k] + [y], s[k..], x, comp);
    AlikeConcat(s[..k], [y], x, comp);
    AlikeConcat(s, [y], x, comp);
    AlikeOne(y, x, comp);
    if Same(comp, y, x) {
      NoneBehind(s, y, x, comp);
    }
  }

  lemma AlikeOne<T>(y: T, x: T, comp: (T, T) -> int)
    ensures Alike([y], x, comp) == if Same(comp, y, x) then [y] else []
  {
  }

  /** One insertion after another, from the empty list. */
  function InsertAll<T>(xs: seq<T>, comp: (T, T) -> int): seq<T> {
    if xs == [] then [] else Inserted(InsertAll(xs[..|xs| - 1], comp), xs[|xs| - 1], comp)
  }

  lemma {:induction false} InsertAllPermutes<T>(xs: seq<T>, comp: (T, T) -> int)
    ensures multiset(InsertAll(xs, comp)) == multiset(xs)
  {
    hide Place;
    if xs != [] {
      var front, last := xs[..|xs| - 1], xs[|xs| - 1];
      var s := InsertAll(front, comp);
      InsertAllPermutes(front, comp);
      assert xs == front + [last];
      InsertedPermutes(s, Place(s, last, comp), last);
    }
  }

  lemma InsertedPermutes<T>(s: seq<T>, k: nat, x: T)
    requires k <= |s|
    ensures multiset(s[..k] + [x] + s[k..]) == multiset(s) + multiset{x}
  {
    assert s == s[..k] + s[k..];
  }

  /** A list filled by sorted insertion is the stable sort of what was put in. */
  lemma {:induction false} InsertAllSortsStably<T(!new)>(xs: seq<T>, comp: (T, T) -> int)
    requires TotalPreorder(comp)
    ensures Sorted(InsertAll(xs, comp), comp)
    ensures forall x :: Alike(InsertAll(xs, comp), x, comp) == Alike(xs, x, comp)
  {
    hide TotalPreorder, Sorted, Greater, Same, Alike, Place, Inserted;
    if xs == [] {
      NothingIsSorted(comp);
    } else {
      var front, last := xs[..|xs| - 1], xs[|xs| - 1];
      var s := InsertAll(front, comp);
      InsertAllSortsStably(front, comp);
      InsertedSorted(s, last, comp);
      assert xs == front + [last];
      forall x
        ensures Alike(InsertAll(xs, comp), x, comp) == Alike(xs, x, comp)
      {
        OneMoreStable(front, s, last, x, comp);
      }
    }
  }

  lemma OneMoreStable<T(!new)>(front: seq<T>, s: seq<T>, last: T, x: T, comp: (T, T) -> int)
    requires TotalPreorder(comp) && Sorted(s, comp) && Alike(s, x, comp) == Alike(front, x, comp)
    ensures Alike(Inserted(s, last, comp), x, comp) == Alike(front + [last], x, comp)
  {
    hide *;
    InsertedStable(s, last, x, comp);
    AlikeConcat(s, [last], x, comp);
    AlikeConcat(front, [last], x, comp);
  }

  lemma NothingIsSorted<T(!new)>(comp: (T, T) -> int)
    ensures Sorted([], comp)
  {
  }
}

/** The singly linked list. */
module Sll {
  import opened SllSpec

  class Node<T> {
    var data: T
    var next: Node?<T>

    /** A node of its own. */
    constructor (data: T)
      ensures this.data == data && next == null
    {
      this.data, next := data, null;
    }
  }

  /** A list variable: the head pointer, and as a ghost the nodes reached from it. */
  class List<T> {
    var head: Node?<T>
    ghost var nodes: seq<Node<T>>

    ghost predicate Linked(i: nat)
      requires i < |nodes|
      reads `nodes, nodes`next
    {
      nodes[i].next == if i + 1 < |nodes| then nodes[i + 1] else null
    }

    ghost predicate Valid()
      reads `head, `nodes, nodes`next
    {
      && head == (if nodes == [] then null else nodes[0])
      && (forall i :: 0 <= i < |nodes| ==> Linked(i))
      && (forall i, j :: 0 <= i < j < |nodes| ==> nodes[i] != nodes[j])
    }

    ghost function Data(): (s: seq<T>)
      reads this, nodes
      ensures |s| == |nodes|
    {
      seq(|nodes|, i requires 0 <= i < |nodes| reads this, nodes => nodes[i].data)
    }

    constructor ()
      ensures Valid() && nodes == []
    {
      head, nodes := null, [];
    }

    method AppendNode(n: Node<T>)
      requires Valid() && n !in nodes && n.next == null
      modifies this, nodes`next
      ensures Valid() && nodes == old(nodes) + [n]
      ensures Data() == old(Data()) + [n.data]
    {
      if head == null {
        head, nodes := n, [n];
      } else {
        var tmp := head;
        ghost var k := 0;
        while tmp.next != null
          invariant 0 <= k < |nodes| && tmp == nodes[k]
          decreases |nodes| - k
        {
          assert Linked(k);
          tmp, k := tmp.next, k + 1;
        }
        assert Linked(k);
        tmp.next := n;
        nodes := nodes + [n];
        assert forall i {:trigger Linked(i)} :: 0 <= i < k ==> old(Linked(i));
      }
    }

    method InsertNode(n: Node<T>)
      requires Valid() && n !in nodes
      modifies this, n`next
      ensures Valid() && nodes == [n] + old(nodes)
      ensures Data() == [n.data] + old(Data())
    {
      n.next := head;
      head := n;
      nodes := [n] + nodes;
      assert forall i {:trigger Linked(i)} :: 0 < i < |nodes| ==> old(Linked(i - 1));
    }

    method NumNodes() returns (n: nat)
      requires Valid()
      ensures n == |nodes|
    {
      n := 0;
      var lp := head;
      while lp != null
        invariant n <= |nodes| && lp == if n < |nodes| then nodes[n] else null
        decreases |nodes| - n
      {
        assert Linked(n);
        n, lp := n + 1, lp.next;
      }
    }

    /** Positions start at 1. */
    method GetNthNode(n: int) returns (r: Node?<T>)
      requires Valid()
      ensures r == if 1 <= n <= |nodes| then nodes[n - 1] else null
    {
      var j := 0;
      var lp := head;
      while lp != null
        invariant 0 <= j <= |nodes| && lp == if j < |nodes| then nodes[j] else null
        invariant !(1 <= n <= j)
        decreases |nodes| - j
      {
        j := j + 1;
        if j == n {
          return lp;
        }
        assert Linked(j - 1);
        lp := lp.next;
      }
      return null;
    }

    /** Unlinks every node in turn; `freed` are the nodes released. */
    method DestroyNodes() returns (freed: seq<Node<T>>)
      requires Valid()
      modifies this
      ensures Valid() && head == null && nodes == []
      ensures freed == old(nodes)
    {
      freed := [];
      ghost var k := 0;
      while head != null
        invariant 0 <= k <= |nodes| && head == if k < |nodes| then nodes[k] else null
        invariant freed == nodes[..k]
        decreases |nodes| - k
        modifies `head
      {
        var lp := head;
        assert Linked(k);
        head := head.next;
        freed, k := freed + [lp], k + 1;
      }
      nodes := [];
    }

    /** Before the first node whose data compares greater; the comparison is asked as often as needed. */
    method AppendNodeSorted(n: Node<T>, comp: (T, T) -> int)
      requires Valid() && n !in nodes && n.next == null
      modifies this, nodes`next, n`next
      ensures Valid()
      ensures var k := Place(old(Data()), n.data, comp); nodes == old(nodes)[..k] + [n] + old(nodes)[k..]
      ensures Data() == Inserted(old(Data()), n.data, comp)
    {
      if head == null {
        head, nodes := n, [n];
      } else if comp(head.data, n.data) > 0 {
        InsertNode(n);
      } else {
        var tmp := head;
        ghost var k := 0;
        while tmp.next != null
          invariant 0 <= k < |nodes| && tmp == nodes[k]
          invariant forall i :: 0 <= i <= k ==> !Greater(comp, nodes[i].data, n.data)
          decreases |nodes| - k
        {
          assert Linked(k);
          if comp(tmp.next.data, n.data) > 0 {
            break;
          }
          tmp, k := tmp.next, k + 1;
        }
        assert Linked(k);
        PlaceIs(Data(), n.data, comp, k + 1);
        InsertAfter(tmp, n, k);
      }
    }

    /** Links a node behind the k-th. */
    method InsertAfter(tmp: Node<T>, n: Node<T>, ghost k: nat)
      requires Valid() && n !in nodes && k < |nodes| && tmp == nodes[k]
      modifies `nodes, tmp`next, n`next
      ensures Valid() && nodes == old(nodes)[..k + 1] + [n] + old(nodes)[k + 1..]
      ensures Data() == old(Data())[..k + 1] + [n.data] + old(Data())[k + 1..]
    {
      assert Linked(k);
      n.next := tmp.next;
      tmp.next := n;
      nodes := nodes[..k + 1] + [n] + nodes[k + 1..];
      assert forall i {:trigger Linked(i)} :: 0 <= i < k ==> old(Linked(i));
      assert forall i {:trigger Linked(i)} :: k + 1 < i < |nodes| ==> old(Linked(i - 1));
    }

    /** Unlinks the node if it is on the list. */
    method DelNode(node: Node<T>)
      requires Valid()
      modifies this, nodes`next
      ensures Valid()
      ensures node !in old(nodes) ==> nodes == old(nodes) && Data() == old(Data())
      ensures node in old(nodes) ==> exists k ::
        && 0 <= k < |old(nodes)| && old(nodes)[k] == node
        && nodes == old(nodes)[..k] + old(nodes)[k + 1..]
        && Data() == old(Data())[..k] + old(Data())[k + 1..]
    {
      if head == null {
        return;
      }
      if head == node {
        assert Linked(0);
        head := head.next;
        nodes := nodes[1..];
        assert forall i {:trigger Linked(i)} :: 0 <= i < |nodes| ==> old(Linked(i + 1));
      } else {
        var l := head;
        ghost var k := 0;
        while l != null && l.next != node
          invariant 0 <= k <= |nodes| && l == if k < |nodes| then nodes[k] else null
          invariant forall i :: 0 <= i <= k && i < |nodes| ==> nodes[i] != node
          decreases |nodes| - k
        {
          assert Linked(k);
          l, k := l.next, k + 1;
        }
        if l == null {
          return;
        }
        assert Linked(k);
        UnlinkAfter(l, node, k);
      }
    }

    /** Unlinks the node behind the k-th. */
    method UnlinkAfter(l: Node<T>, node: Node<T>, ghost k: nat)
      requires Valid() && k + 1 < |nodes| && l == nodes[k] && node == nodes[k + 1]
      modifies `nodes, l`next
      ensures Valid() && nodes == old(nodes)[..k + 1] + old(nodes)[k + 2..]
      ensures Data() == old(Data())[..k + 1] + old(Data())[k + 2..]
    {
      assert Linked(k) && Linked(k + 1);
      l.next := node.next;
      nodes := nodes[..k + 1] + nodes[k + 2..];
      assert forall i {:trigger Linked(i)} :: 0 <= i < k ==> old(Linked(i));
      assert forall i {:trigger Linked(i)} :: k < i < |nodes| ==> old(Linked(i + 1));
    }
  }

  /** A list filled by sorted insertion, with the comparison written out: no element compares greater than
      a later one, and elements that compare equal keep their order. */
  method FillSorted<T(!new)>(xs: seq<T>, comp: (T, T) -> int) returns (l: List<T>)
    requires forall x, y :: !(comp(x, y) > 0 && comp(y, x) > 0)
    requires forall x, y, z :: !(comp(x, y) > 0) && !(comp(y, z) > 0) ==> !(comp(x, z) > 0)
    ensures l.Valid() && multiset(l.Data()) == multiset(xs)
    ensures forall i, j :: 0 <= i < j < |l.Data()| ==> !(comp(l.Data()[i], l.Data()[j]) > 0)
    ensures forall x :: Alike(l.Data(), x, comp) == Alike(xs, x, comp)
  {
    hide Place, Inserted, Alike;
    l := new List<T>();
    assert l.Data() == [];
    var i := 0;
    while i < |xs|
      invariant 0 <= i <= |xs| && l.Valid() && fresh(l) && fresh(l.nodes)
      invariant l.Data() == InsertAll(xs[..i], comp)
    {
      var n := new Node(xs[i]);
      assert xs[..i + 1] == xs[..i] + [xs[i]];
      l.AppendNodeSorted(n, comp);
      i := i + 1;
    }
    assert xs[..|xs|] == xs;
    InsertAllPermutes(xs, comp);
    InsertAllSortsStably(xs, comp);
    assert Sorted(l.Data(), comp);
  }
}
