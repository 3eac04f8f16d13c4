/**
 * Doubly-linked lists stored in an arena.
 *
 * A node is an element of a sequence (the arena); its `next`, `prev` and
 * `link` fields hold arena indices, with -1 standing for NULL. The ghost
 * `order` lists the arena indices of the nodes reachable from `head`, in list
 * order; `Chain` ties the pointers to that order. Both worlds of the map use
 * these lists (Zona_mondoreale and Zona_soprasotto differ only in payload),
 * and nodes that were unlinked stay in the arena, unreachable, as freed
 * memory would.
 */
module Chains {

  datatype Node<Z> = Node(zone: Z, next: int, prev: int, link: int)

  const NULL := -1

  /** Every index of the order names a node of an arena of size n. */
  ghost predicate InArena(n: int, order: seq<nat>)
  {
    forall k :: 0 <= k < |order| ==> order[k] < n
  }

  ghost predicate Distinct(order: seq<nat>)
  {
    forall i, j :: 0 <= i < j < |order| ==> order[i] != order[j]
  }

  /** Indexing into a sequence with one element inserted at position i. */
  lemma InsertIndex<T>(s: seq<T>, i: nat, x: T)
    requires i <= |s|
    ensures |s[..i] + [x] + s[i..]| == |s| + 1
    ensures forall k :: 0 <= k < |s| + 1 ==>
      (s[..i] + [x] + s[i..])[k] == (if k < i then s[k] else if k == i then x else s[k - 1])
  {
    var t := s[..i] + [x] + s[i..];
    forall k | 0 <= k < |s| + 1
      ensures t[k] == (if k < i then s[k] else if k == i then x else s[k - 1])
    {
      if k < i { assert t[k] == s[..i][k]; }
      else if k > i { assert t[k] == s[i..][k - i - 1]; }
    }
  }

  /** Inserting at the end is appending. */
  lemma InsertAtEnd<T>(s: seq<T>, x: T)
    ensures s[..|s|] + [x] + s[|s|..] == s + [x]
  {
    assert s[..|s|] == s;
  }

  /** Indexing into a sequence with the element at position i removed. */
  lemma RemoveIndex<T>(s: seq<T>, i: nat)
    requires i < |s|
    ensures |s[..i] + s[i + 1..]| == |s| - 1
    ensures forall k :: 0 <= k < |s| - 1 ==>
      (s[..i] + s[i + 1..])[k] == (if k < i then s[k] else s[k + 1])
  {
    var t := s[..i] + s[i + 1..];
    forall k | 0 <= k < |s| - 1
      ensures t[k] == (if k < i then s[k] else s[k + 1])
    {
      if k < i { assert t[k] == s[..i][k]; }
      else { assert t[k] == s[i + 1..][k - i]; }
    }
  }

  /** The list starting at `head` visits exactly the nodes `order`, in turn. */
  ghost predicate Chain<Z>(nodes: seq<Node<Z>>, order: seq<nat>, head: int)
  {
    && InArena(|nodes|, order)
    && Distinct(order)
    && head == (if |order| == 0 then NULL else order[0])
    && (forall k :: 0 <= k < |order| ==> nodes[order[k]].next == (if k + 1 < |order| then order[k + 1] else NULL))
    && (forall k :: 0 <= k < |order| ==> nodes[order[k]].prev == (if k > 0 then order[k - 1] else NULL))
  }

  /** The links of the node at position k of a chain. */
  lemma ChainStep<Z>(nodes: seq<Node<Z>>, order: seq<nat>, head: int, k: int)
    requires Chain(nodes, order, head) && 0 <= k < |order|
    ensures order[k] < |nodes|
    ensures nodes[order[k]].next == (if k + 1 < |order| then order[k + 1] else NULL)
    ensures nodes[order[k]].prev == (if k > 0 then order[k - 1] else NULL)
  {
  }

  /** The payloads of the list, in list order. */
  ghost function Project<Z>(nodes: seq<Node<Z>>, order: seq<nat>): (zs: seq<Z>)
    requires InArena(|nodes|, order)
    ensures |zs| == |order|
    ensures forall k :: 0 <= k < |order| ==> zs[k] == nodes[order[k]].zone
  {
    seq(|order|, k requires 0 <= k < |order| => nodes[order[k]].zone)
  }

  /** The position of arena index x in the order, or -1 when x is not on the list. */
  ghost function IndexOf(order: seq<nat>, x: int): (k: int)
    ensures -1 <= k < |order|
    ensures 0 <= k ==> order[k] == x
    ensures k == -1 <==> x !in order
  {
    if |order| == 0 then -1
    else if order[0] == x then 0
    else var r := IndexOf(order[1..], x); if r < 0 then -1 else r + 1
  }

  lemma {:induction false} IndexOfAt(order: seq<nat>, k: int)
    requires Distinct(order)
    requires 0 <= k < |order|
    ensures IndexOf(order, order[k]) == k
  {
    if k > 0 {
      assert order[0] != order[k];
      assert order[1..][k - 1] == order[k];
      IndexOfAt(order[1..], k - 1);
    }
  }

  /** Chain plus one more node, linked in between pred and succ (either may be NULL):
      the new node goes at the end of the arena, succ's prev and pred's next point to it. */
  function SpliceIn<Z>(nodes: seq<Node<Z>>, pred: int, succ: int, z: Z, link: int): (r: seq<Node<Z>>)
    requires pred == NULL || 0 <= pred < |nodes|
    requires succ == NULL || 0 <= succ < |nodes|
    ensures |r| == |nodes| + 1
  {
    var m := |nodes|;
    var n1 := nodes + [Node(z, succ, pred, link)];
    var n2 := if succ == NULL then n1 else n1[succ := n1[succ].(prev := m)];
    if pred == NULL then n2 else n2[pred := n2[pred].(next := m)]
  }

  /** What SpliceIn does to each node of the arena. */
  lemma SpliceInAt<Z>(nodes: seq<Node<Z>>, pred: int, succ: int, z: Z, link: int)
    requires pred == NULL || 0 <= pred < |nodes|
    requires succ == NULL || 0 <= succ < |nodes|
    requires pred == NULL || pred != succ
    ensures var r := SpliceIn(nodes, pred, succ, z, link);
            && r[|nodes|] == Node(z, succ, pred, link)
            && (pred != NULL ==> r[pred] == nodes[pred].(next := |nodes|))
            && (succ != NULL ==> r[succ] == nodes[succ].(prev := |nodes|))
            && (forall j :: 0 <= j < |nodes| && j != pred && j != succ ==> r[j] == nodes[j])
  {
  }

  /** The links of the node at position k of the list after an insertion at position i. */
  lemma ChainInsertAt<Z>(nodes: seq<Node<Z>>, order: seq<nat>, head: int, i: nat, z: Z, link: int, k: nat)
    requires Chain(nodes, order, head)
    requires i <= |order| && k <= |order|
    ensures var pred := if i > 0 then order[i - 1] else NULL;
            var succ := if i < |order| then order[i] else NULL;
            var r := SpliceIn(nodes, pred, succ, z, link);
            var o := order[..i] + [|nodes|] + order[i..];
            && o[k] < |r|
            && r[o[k]].next == (if k + 1 < |o| then o[k + 1] else NULL)
            && r[o[k]].prev == (if k > 0 then o[k - 1] else NULL)
  {
    var m := |nodes|;
    var pred := if i > 0 then order[i - 1] else NULL;
    var succ := if i < |order| then order[i] else NULL;
    var r := SpliceIn(nodes, pred, succ, z, link);
    var o := order[..i] + [m] + order[i..];
    assert pred == NULL || pred != succ by {
      if i > 0 && i < |order| { assert order[i - 1] != order[i]; }
    }
    InsertIndex(order, i, m);
    SpliceInAt(nodes, pred, succ, z, link);
    if k < i {
      var x := order[k];
      assert o[k] == x;
      assert nodes[x].prev == (if k > 0 then order[k - 1] else NULL);
      if k + 1 < i {
        assert x != order[i - 1];
        if succ != NULL { assert x != order[i]; }
        assert r[x] == nodes[x];
        assert nodes[x].next == order[k + 1];
      } else {
        assert x == pred;
      }
    } else if k == i {
      assert o[k] == m;
    } else {
      var x := order[k - 1];
      assert o[k] == x;
      assert nodes[x].next == (if k < |order| then order[k] else NULL);
      if k - 1 == i {
        assert x == succ;
      } else {
        assert x != order[i];
        if pred != NULL { assert x != order[i - 1]; }
        assert r[x] == nodes[x];
        assert nodes[x].prev == order[k - 2];
      }
    }
  }

  /** Inserting a node at position i of a list keeps it a list, with the new
      node at position i, and changes no payload or cross-link. */
  lemma ChainInsert<Z>(nodes: seq<Node<Z>>, order: seq<nat>, head: int, i: nat, z: Z, link: int)
    requires Chain(nodes, order, head)
    requires i <= |order|
    ensures var pred := if i > 0 then order[i - 1] else NULL;
            var succ := if i < |order| then order[i] else NULL;
            var r := SpliceIn(nodes, pred, succ, z, link);
            && Chain(r, order[..i] + [|nodes|] + order[i..], if i == 0 then |nodes| else head)
            && r[|nodes|].link == link && r[|nodes|].zone == z
            && (forall j :: 0 <= j < |nodes| ==> r[j].zone == nodes[j].zone && r[j].link == nodes[j].link)
  {
    var m := |nodes|;
    var pred := if i > 0 then order[i - 1] else NULL;
    var succ := if i < |order| then order[i] else NULL;
    var r := SpliceIn(nodes, pred, succ, z, link);
    var o := order[..i] + [m] + order[i..];
    assert pred == NULL || pred != succ by {
      if i > 0 && i < |order| { assert order[i - 1] != order[i]; }
    }
    InsertIndex(order, i, m);
    SpliceInAt(nodes, pred, succ, z, link);
    forall k | 0 <= k < |o|
      ensures o[k] < |r|
      ensures r[o[k]].next == (if k + 1 < |o| then o[k + 1] else NULL)
      ensures r[o[k]].prev == (if k > 0 then o[k - 1] else NULL)
    {
      ChainInsertAt(nodes, order, head, i, z, link, k);
    }
    forall a, b | 0 <= a < b < |o| ensures o[a] != o[b] {
      if b < i { } else if b == i { } else if a < i { } else if a == i { } else { }
    }
    assert InArena(|r|, o);
    assert Distinct(o);
    assert (if i == 0 then m else head) == (if |o| == 0 then NULL else o[0]);
    assert Chain(r, o, if i == 0 then m else head);
  }

  /** The list with the node at position i unlinked: its predecessor's next
      and its successor's prev skip it (the head moves when i is 0). */
  function SpliceOut<Z>(nodes: seq<Node<Z>>, x: nat): (r: seq<Node<Z>>)
    requires x < |nodes|
    requires nodes[x].prev == NULL || 0 <= nodes[x].prev < |nodes|
    requires nodes[x].next == NULL || 0 <= nodes[x].next < |nodes|
    ensures |r| == |nodes|
  {
    var p := nodes[x].prev;
    var n := nodes[x].next;
    var n1 := if p == NULL then nodes else nodes[p := nodes[p].(next := n)];
    if n == NULL then n1 else n1[n := n1[n].(prev := p)]
  }

  /** What SpliceOut does to each node of the arena. */
  lemma SpliceOutAt<Z>(nodes: seq<Node<Z>>, x: nat)
    requires x < |nodes|
    requires nodes[x].prev == NULL || 0 <= nodes[x].prev < |nodes|
    requires nodes[x].next == NULL || 0 <= nodes[x].next < |nodes|
    requires nodes[x].prev == NULL || nodes[x].prev != nodes[x].next
    ensures var p := nodes[x].prev;
            var n := nodes[x].next;
            var r := SpliceOut(nodes, x);
            && (p != NULL ==> r[p] == nodes[p].(next := n))
            && (n != NULL ==> r[n] == nodes[n].(prev := p))
            && (forall j :: 0 <= j < |nodes| && j != p && j != n ==> r[j] == nodes[j])
  {
  }

  /** The links of the node at position k of the list after unlinking position i. */
  lemma ChainRemoveAt<Z>(nodes: seq<Node<Z>>, order: seq<nat>, head: int, i: nat, k: nat)
    requires Chain(nodes, order, head)
    requires i < |order| && k + 1 < |order|
    ensures nodes[order[i]].prev == NULL || 0 <= nodes[order[i]].prev < |nodes|
    ensures nodes[order[i]].next == NULL || 0 <= nodes[order[i]].next < |nodes|
    ensures var r := SpliceOut(nodes, order[i]);
            var o := order[..i] + order[i + 1..];
            && o[k] < |r|
            && r[o[k]].next == (if k + 1 < |o| then o[k + 1] else NULL)
            && r[o[k]].prev == (if k > 0 then o[k - 1] else NULL)
  {
    var x := order[i];
    var p := nodes[x].prev;
    var n := nodes[x].next;
    assert p == (if i > 0 then order[i - 1] else NULL);
    assert n == (if i + 1 < |order| then order[i + 1] else NULL);
    assert p == NULL || p != n by {
      if i > 0 && i + 1 < |order| { assert order[i - 1] != order[i + 1]; }
    }
    var r := SpliceOut(nodes, x);
    var o := order[..i] + order[i + 1..];
    RemoveIndex(order, i);
    SpliceOutAt(nodes, x);
    if k < i {
      var y := order[k];
      assert o[k] == y;
      assert 0 <= k < |order|;
      assert k > 0 ==> nodes[order[k]].prev == order[k - 1];
      assert k == 0 ==> nodes[order[k]].prev == NULL;
      if k + 1 < i {
        assert y != order[i - 1];
        if n != NULL { assert y != order[i + 1]; }
        assert r[y] == nodes[y];
        assert nodes[y].next == order[k + 1];
      } else {
        assert y == p;
      }
    } else {
      var y := order[k + 1];
      assert o[k] == y;
      assert nodes[y].next == (if k + 2 < |order| then order[k + 2] else NULL);
      if k == i {
        assert y == n;
      } else {
        assert y != order[i + 1];
        if p != NULL { assert y != order[i - 1]; }
        assert r[y] == nodes[y];
        assert nodes[y].prev == order[k];
      }
    }
  }

  /** Unlinking the node at position i keeps the rest a list, in the same
      order, and changes no payload or cross-link. */
  lemma ChainRemove<Z>(nodes: seq<Node<Z>>, order: seq<nat>, head: int, i: nat)
    requires Chain(nodes, order, head)
    requires i < |order|
    ensures nodes[order[i]].prev == NULL || 0 <= nodes[order[i]].prev < |nodes|
    ensures nodes[order[i]].next == NULL || 0 <= nodes[order[i]].next < |nodes|
    ensures var r := SpliceOut(nodes, order[i]);
            && Chain(r, order[..i] + order[i + 1..], if i == 0 then nodes[order[i]].next else head)
            && (forall j :: 0 <= j < |nodes| ==> r[j].zone == nodes[j].zone && r[j].link == nodes[j].link)
  {
    var x := order[i];
    var p := nodes[x].prev;
    var n := nodes[x].next;
    assert p == (if i > 0 then order[i - 1] else NULL);
    assert n == (if i + 1 < |order| then order[i + 1] else NULL);
    assert p == NULL || p != n by {
      if i > 0 && i + 1 < |order| { assert order[i - 1] != order[i + 1]; }
    }
    var r := SpliceOut(nodes, x);
    var o := order[..i] + order[i + 1..];
    RemoveIndex(order, i);
    SpliceOutAt(nodes, x);
    forall k | 0 <= k < |o|
      ensures o[k] < |r|
      ensures r[o[k]].next == (if k + 1 < |o| then o[k + 1] else NULL)
      ensures r[o[k]].prev == (if k > 0 then o[k - 1] else NULL)
    {
      ChainRemoveAt(nodes, order, head, i, k);
    }
    forall a, b | 0 <= a < b < |o| ensures o[a] != o[b] {
      if b < i { } else if a < i { } else { }
    }
    assert InArena(|r|, o);
    assert Distinct(o);
    assert (if i == 0 then n else head) == (if |o| == 0 then NULL else o[0]);
    assert Chain(r, o, if i == 0 then n else head);
  }

  /** The arena with the payload of node x replaced. */
  lemma ChainSetZone<Z>(nodes: seq<Node<Z>>, order: seq<nat>, head: int, k: nat, z: Z)
    requires Chain(nodes, order, head)
    requires k < |order|
    ensures var r := nodes[order[k] := nodes[order[k]].(zone := z)];
            && Chain(r, order, head)
            && Project(r, order) == Project(nodes, order)[k := z]
            && (forall j :: 0 <= j < |nodes| ==> r[j].link == nodes[j].link)
  {
    var r := nodes[order[k] := nodes[order[k]].(zone := z)];
    forall j | 0 <= j < |order| && j != k ensures order[j] != order[k] {
      if j < k { } else { }
    }
  }

  /** A projection depends only on the payloads of the nodes on the list. */
  lemma ProjectInsert<Z>(nodes: seq<Node<Z>>, r: seq<Node<Z>>, order: seq<nat>, i: nat, z: Z)
    requires InArena(|nodes|, order) && i <= |order|
    requires |r| == |nodes| + 1 && r[|nodes|].zone == z
    requires forall j :: 0 <= j < |nodes| ==> r[j].zone == nodes[j].zone
    ensures InArena(|r|, order[..i] + [|nodes|] + order[i..])
    ensures Project(r, order[..i] + [|nodes|] + order[i..]) ==
            Project(nodes, order)[..i] + [z] + Project(nodes, order)[i..]
  {
    InsertIndex(order, i, |nodes|);
  }

  lemma ProjectRemove<Z>(nodes: seq<Node<Z>>, r: seq<Node<Z>>, order: seq<nat>, i: nat)
    requires InArena(|nodes|, order) && i < |order|
    requires |r| == |nodes|
    requires forall j :: 0 <= j < |nodes| ==> r[j].zone == nodes[j].zone
    ensures InArena(|r|, order[..i] + order[i + 1..])
    ensures Project(r, order[..i] + order[i + 1..]) ==
            Project(nodes, order)[..i] + Project(nodes, order)[i + 1..]
  {
    RemoveIndex(order, i);
  }

  /** Position-aligned mutual cross-links between the lists a and b: the k-th node
      of each links to the k-th node of the other. */
  ghost predicate Linked<A, B>(a: seq<Node<A>>, ao: seq<nat>, b: seq<Node<B>>, bo: seq<nat>)
  {
    && |ao| == |bo|
    && InArena(|a|, ao)
    && InArena(|b|, bo)
    && (forall k :: 0 <= k < |ao| ==> a[ao[k]].link == bo[k] && b[bo[k]].link == ao[k])
  }

  /** Cross-links survive an insertion of a linked pair at the same position. */
  lemma LinkedInsert<A, B>(a: seq<Node<A>>, ao: seq<nat>, b: seq<Node<B>>, bo: seq<nat>,
                           a': seq<Node<A>>, b': seq<Node<B>>, i: nat)
    requires Linked(a, ao, b, bo)
    requires i <= |ao|
    requires |a'| == |a| + 1 && |b'| == |b| + 1
    requires a'[|a|].link == |b| && b'[|b|].link == |a|
    requires forall j :: 0 <= j < |a| ==> a'[j].link == a[j].link
    requires forall j :: 0 <= j < |b| ==> b'[j].link == b[j].link
    ensures Linked(a', ao[..i] + [|a|] + ao[i..], b', bo[..i] + [|b|] + bo[i..])
  {
    InsertIndex(ao, i, |a|);
    InsertIndex(bo, i, |b|);
  }

  lemma LinkedRemove<A, B>(a: seq<Node<A>>, ao: seq<nat>, b: seq<Node<B>>, bo: seq<nat>,
                           a': seq<Node<A>>, b': seq<Node<B>>, i: nat)
    requires Linked(a, ao, b, bo)
    requires i < |ao|
    requires |a'| == |a| && |b'| == |b|
    requires forall j :: 0 <= j < |a| ==> a'[j].link == a[j].link
    requires forall j :: 0 <= j < |b| ==> b'[j].link == b[j].link
    ensures Linked(a', ao[..i] + ao[i + 1..], b', bo[..i] + bo[i + 1..])
  {
    RemoveIndex(ao, i);
    RemoveIndex(bo, i);
  }
}
