/**
  The intrusive circular lists of lib/kernel/list.c and the queue built on them.

  A ring is a cycle of nodes joined both ways; the sequence that describes it starts at a chosen
  node. A list is a ring whose first node is the list head. A queue has no head node: `front` points
  at its first element.
 */
module List {

  /** struct kernel_list; `entry` is what list_entry subtracts its way back to: the structure the node lies in. */
  class Node {
    var prev: Node?
    var next: Node?
    const entry: nat

    constructor (entry: nat)
      ensures prev == next == null && this.entry == entry
    {
      prev, next := null, null;
      this.entry := entry;
    }
  }

  predicate Distinct<T(==)>(s: seq<T>)
  {
    forall i, j :: 0 <= i < j < |s| ==> s[i] != s[j]
  }

  function After(i: nat, n: nat): nat
  {
    if i + 1 == n then 0 else i + 1
  }

  function Before(i: nat, n: nat): nat
    requires i < n
  {
    if i == 0 then n - 1 else i - 1
  }

  function PrevOf(s: seq<Node>, k: nat): Node
    requires k < |s|
  {
    s[Before(k, |s|)]
  }

  function NextOf(s: seq<Node>, k: nat): Node
    requires k < |s|
  {
    s[After(k, |s|)]
  }

  /** The nodes of `s`, in this order, form a cycle in both directions. */
  ghost predicate Ring(s: seq<Node>)
    reads s
  {
    && |s| > 0
    && Distinct(s)
    && forall i :: 0 <= i < |s| ==> s[i].next == s[After(i, |s|)] && s[After(i, |s|)].prev == s[i]
  }

  /** A ring may be read from any of its nodes; here, from its last one. */
  lemma RotateRing(s: seq<Node>, x: Node)
    requires Ring(s + [x])
    ensures Ring([x] + s)
  {
    var r, r' := s + [x], [x] + s;
    assert forall i :: 0 <= i < |r'| ==> r'[i] == r[if i == 0 then |s| else i - 1];
    forall i | 0 <= i < |r'|
      ensures r'[i].next == r'[After(i, |r'|)] && r'[After(i, |r'|)].prev == r'[i]
    {
      var j := if i == 0 then |s| else i - 1;
      assert r'[i] == r[j] && r'[After(i, |r'|)] == r[After(j, |r|)];
    }
  }

  /** list_init */
  method ListInit(list: Node)
    modifies list
    ensures Ring([list])
  {
    list.next := list;
    list.prev := list;
  }

  /** __list_add: the four pointer writes, in the order of the source. */
  method AddBetween(new_: Node, prev: Node, next: Node)
    requires new_ != prev && new_ != next
    modifies new_, prev`next, next`prev
    ensures prev.next == new_ && next.prev == new_ && new_.next == next && new_.prev == prev
  {
    prev.next := new_;
    new_.next := next;
    next.prev := new_;
    new_.prev := prev;
  }

  /** list_add: `new_` becomes the second node of the ring read from `head`. */
  method ListAdd(head: Node, new_: Node, ghost s: seq<Node>)
    requires Ring([head] + s) && new_ !in [head] + s
    modifies new_, head, head.next
    ensures Ring([head, new_] + s)
  {
    ghost var r := [head] + s;
    assert head.next == r[After(0, |r|)];
    AddBetween(new_, head, head.next);
    ghost var r' := [head, new_] + s;
    assert forall i :: 2 <= i < |r'| ==> r'[i] == r[i - 1];
    forall i | 0 <= i < |r'|
      ensures r'[i].next == r'[After(i, |r'|)] && r'[After(i, |r'|)].prev == r'[i]
    {
      if 2 <= i {
        assert r[After(i - 1, |r|)] == r'[After(i, |r'|)];
      }
    }
  }

  /** list_add_prev: `new_` becomes the last node of the ring read from `head`. */
  method ListAddPrev(head: Node, new_: Node, ghost s: seq<Node>)
    requires Ring([head] + s) && new_ !in [head] + s
    modifies new_, head, head.prev
    ensures Ring([head] + s + [new_])
  {
    ghost var r := [head] + s;
    assert r[|r| - 1].next == r[After(|r| - 1, |r|)];
    AddBetween(new_, head.prev, head);
    ghost var r' := [head] + s + [new_];
    assert forall i :: 0 <= i < |r| ==> r'[i] == r[i];
    forall i | 0 <= i < |r'|
      ensures r'[i].next == r'[After(i, |r'|)] && r'[After(i, |r'|)].prev == r'[i]
    {
      if i < |r| - 1 {
        assert r[After(i, |r|)] == r'[i + 1];
      }
    }
  }

  function Without<T>(s: seq<T>, k: nat): (r: seq<T>)
    requires k < |s|
    ensures |r| == |s| - 1
    ensures forall i :: 0 <= i < |r| ==> r[i] == s[if i < k then i else i + 1]
  {
    s[..k] + s[k + 1..]
  }

  lemma NeighboursInRing(s: seq<Node>, k: nat)
    requires Ring(s) && k < |s|
    ensures s[k].next == s[After(k, |s|)]
    ensures s[k].prev == s[Before(k, |s|)]
  {
    assert After(Before(k, |s|), |s|) == k;
  }

  /** __list_del: the two neighbours of s[k] skip it; s[k] itself is left as it is. */
  method Unlink(node: Node, ghost s: seq<Node>, ghost k: nat)
    requires Ring(s) && k < |s| && s[k] == node
    modifies PrevOf(s, k)`next, NextOf(s, k)`prev
    ensures |s| > 1 ==> Ring(Without(s, k))
    ensures |s| == 1 ==> node.next == node && node.prev == node
  {
    NeighboursInRing(s, k);
    var prev, next := node.prev, node.next;
    next.prev := prev;
    prev.next := next;
    ghost var r := Without(s, k);
    forall i | 0 <= i < |r|
      ensures r[i].next == r[After(i, |r|)] && r[After(i, |r|)].prev == r[i]
    {
      var j := if i < k then i else i + 1;
      assert old(s[j].next) == s[After(j, |s|)] && old(s[After(j, |s|)].prev) == s[j];
      if After(j, |s|) == k {
        assert r[i] == prev && r[After(i, |r|)] == next;
      } else {
        assert r[After(i, |r|)] == s[After(j, |s|)];
      }
    }
  }

  /** list_del: the node leaves its ring and points nowhere. */
  method ListDel(node: Node, ghost s: seq<Node>, ghost k: nat) returns (r: Node)
    requires Ring(s) && k < |s| && s[k] == node
    modifies node, PrevOf(s, k)`next, NextOf(s, k)`prev
    ensures r == node && node.next == null && node.prev == null
    ensures |s| > 1 ==> Ring(Without(s, k))
  {
    NeighboursInRing(s, k);
    Unlink(node, s, k);
    node.next := null;
    node.prev := null;
    r := node;
  }

  /** list_del of the first node of a ring. */
  method DelFirst(node: Node, ghost s: seq<Node>) returns (r: Node)
    requires Ring(s) && s[0] == node
    modifies s[0], s[|s| - 1], s[if |s| == 1 then 0 else 1]
    ensures r == node && node.next == null && node.prev == null
    ensures |s| > 1 ==> Ring(s[1..])
  {
    assert PrevOf(s, 0) == s[|s| - 1] && NextOf(s, 0) == s[if |s| == 1 then 0 else 1];
    assert Without(s, 0) == s[1..];
    r := ListDel(node, s, 0);
  }

  /** list_del_safe: the node leaves its ring and becomes a ring of its own. */
  method ListDelSafe(node: Node, ghost s: seq<Node>, ghost k: nat)
    requires Ring(s) && k < |s| && s[k] == node
    modifies node, PrevOf(s, k)`next, NextOf(s, k)`prev
    ensures Ring([node])
    ensures |s| > 1 ==> Ring(Without(s, k))
  {
    NeighboursInRing(s, k);
    Unlink(node, s, k);
    ListInit(node);
  }

  /** list_pop: the first element after the head leaves the list. */
  method ListPop(list: Node, ghost s: seq<Node>) returns (r: Node)
    requires Ring([list] + s) && |s| > 0
    modifies s[0], list, s[0].next
    ensures r == s[0] && r.next == null && r.prev == null
    ensures Ring([list] + s[1..])
  {
    ghost var ring := [list] + s;
    NeighboursInRing(ring, 0);
    NeighboursInRing(ring, 1);
    r := ListDel(list.next, ring, 1);
    assert Without(ring, 1) == [list] + s[1..];
  }

  /** list_len: the number of nodes after the given one. */
  method ListLen(node: Node, ghost s: seq<Node>) returns (len: nat)
    requires Ring([node] + s)
    ensures len == |s|
  {
    ghost var ring := [node] + s;
    var p := node;
    len := 0;
    while p.next != node
      invariant len < |ring| && p == ring[len]
      invariant p.next != null
      decreases |ring| - len
    {
      assert p.next == ring[After(len, |ring|)];
      len := len + 1;
      p := p.next;
      assert ring[len].next == ring[After(len, |ring|)];
    }
    assert p.next == ring[After(len, |ring|)];
  }

  /** list_empty */
  method ListEmpty(list: Node, ghost s: seq<Node>) returns (empty: bool)
    requires Ring([list] + s)
    ensures empty <==> s == []
  {
    var len := ListLen(list, s);
    empty := !(len > 0);
  }

  /**
    list_find_item: the walk stops before it looks at the last node of the ring, so a node is found
    exactly when it is in the ring and is not the last one, counted from `list`.
   */
  method ListFindItem(list: Node?, node: Node?, ghost s: seq<Node>) returns (found: bool)
    requires list != null ==> |s| > 0 && s[0] == list && Ring(s)
    ensures list == null || node == null ==> !found
    ensures list != null && node != null ==> (found <==> node in s[..|s| - 1])
  {
    if list == null || node == null {
      return false;
    }
    var p: Node := list;
    ghost var i := 0;
    assert s[0].next == s[After(0, |s|)];
    while p.next != list
      invariant 0 <= i < |s| && p == s[i] && p.next == s[After(i, |s|)]
      invariant node !in s[..i]
      decreases |s| - i
    {
      if p == node {
        assert s[..|s| - 1][i] == node;
        return true;
      }
      p, i := p.next, i + 1;
      assert s[i].next == s[After(i, |s|)];
    }
    found := false;
  }

  // ---------------------------------------------------------------------------
  // The queue
  // ---------------------------------------------------------------------------

  class Queue {
    var front: Node?
    var queueLen: nat
    ghost var items: seq<Node>

    ghost predicate Valid()
      reads this, items
    {
      && queueLen == |items|
      && (front == null <==> items == [])
      && (items != [] ==> front == items[0] && Ring(items))
    }

    /** queue_init */
    constructor ()
      ensures Valid() && items == []
    {
      front, queueLen, items := null, 0, [];
    }

    method Empty() returns (empty: bool)
      requires Valid()
      ensures empty <==> items == []
    {
      empty := queueLen == 0;
    }

    /** queue_in: the node becomes the last element. Only it and the two ends of the queue are written. */
    method In(node: Node)
      requires Valid() && node !in items
      modifies this, node, if items == [] then {} else {items[0], items[|items| - 1]}
      ensures Valid() && items == old(items) + [node]
    {
      if queueLen == 0 {
        front := node;
        node.next := node;
        node.prev := node;
        queueLen := queueLen + 1;
      } else {
        NeighboursInRing(items, 0);
        assert items == [front] + items[1..];
        ListAddPrev(front, node, items[1..]);
        assert [front] + items[1..] + [node] == items + [node];
        queueLen := queueLen + 1;
      }
      items := items + [node];
    }

    /** queue_push: the node becomes the first element. */
    method Push(node: Node)
      requires Valid() && node !in items
      modifies this, node, if items == [] then {} else {items[0], items[|items| - 1]}
      ensures Valid() && items == [node] + old(items)
    {
      if queueLen == 0 {
        front := node;
        node.next := node;
        node.prev := node;
        queueLen := queueLen + 1;
      } else {
        NeighboursInRing(items, 0);
        assert items == [front] + items[1..];
        ListAddPrev(front, node, items[1..]);
        assert [front] + items[1..] + [node] == items + [node];
        RotateRing(items, node);
        front := node;
        queueLen := queueLen + 1;
      }
      items := [node] + items;
    }

    /** queue_out: the first element leaves the queue and points nowhere. */
    method Out() returns (r: Node?)
      requires Valid()
      modifies this, if items == [] then {} else {items[0], items[|items| - 1], items[if |items| == 1 then 0 else 1]}
      ensures Valid()
      ensures old(items) == [] ==> r == null && items == []
      ensures old(items) != [] ==> r == old(items)[0] && items == old(items)[1..] && r.next == null && r.prev == null
    {
      if queueLen == 0 {
        return null;
      }
      NeighboursInRing(items, 0);
      ghost var s := items;
      var p: Node := front;
      if queueLen == 1 {
        front := null;
      } else {
        front := front.next;
      }
      r := DelFirst(p, s);
      queueLen := queueLen - 1;
      items := s[1..];
    }
  }
}
