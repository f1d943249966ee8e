/**
  Words of memory, and the circular lists of lib/kernel/list.c whose nodes are pairs of words at addresses.

  A word is known by the address of its first byte.
 */
module HeapWords {
  import opened List
  import opened Heap

  // ---------------------------------------------------------------------------
  // Words and nodes
  // ---------------------------------------------------------------------------

  /** Words that are not there are zero. */
  type Memory = map<nat, nat>

  function Load(m: Memory, a: nat): nat
  {
    if a in m then m[a] else 0
  }

  /** memset(a, 0, n) */
  function Cleared(m: Memory, a: nat, n: nat): (r: Memory)
    ensures forall k: nat :: Load(r, k) == if a <= k < a + n then 0 else Load(m, k)
  {
    map k: nat | k in m && !(a <= k < a + n) :: m[k]
  }

  /** struct kernel_list: `prev`, then `next`. */
  predicate Linked(m: Memory, a: nat, b: nat)
  {
    Load(m, a + 4) == b && Load(m, b) == a
  }

  /** The nodes at these addresses form a ring, in this order. */
  predicate RingAt(m: Memory, s: seq<nat>)
  {
    |s| > 0 && forall i :: 0 <= i < |s| ==> Linked(m, s[i], s[After(i, |s|)])
  }

  /** Two nodes, or headers, of eight bytes each. */
  predicate Clear(a: nat, b: nat)
  {
    Apart(a, 8, b, 8)
  }

  predicate Spaced(s: seq<nat>)
  {
    forall i, j :: 0 <= i < j < |s| ==> Clear(s[i], s[j])
  }

  /** Both words at `a` are what they were. */
  predicate Same(m: Memory, m': Memory, a: nat)
  {
    Load(m', a) == Load(m, a) && Load(m', a + 4) == Load(m, a + 4)
  }

  lemma RingStays(m: Memory, m': Memory, s: seq<nat>)
    requires RingAt(m, s) && forall i :: 0 <= i < |s| ==> Same(m, m', s[i])
    ensures RingAt(m', s)
  {
    forall i | 0 <= i < |s|
      ensures Linked(m', s[i], s[After(i, |s|)])
    {
      assert Linked(m, s[i], s[After(i, |s|)]) && Same(m, m', s[i]) && Same(m, m', s[After(i, |s|)]);
    }
  }

  /** list_add_prev */
  function AddPrev(m: Memory, head: nat, x: nat): Memory
  {
    var prev := Load(m, head);
    m[prev + 4 := x][x + 4 := head][head := x][x := prev]
  }

  lemma AddPrevRing(m: Memory, s: seq<nat>, x: nat)
    requires RingAt(m, s) && Spaced(s + [x])
    ensures RingAt(AddPrev(m, s[0], x), s + [x])
    ensures forall a :: (Clear(a, x) && forall i :: 0 <= i < |s| ==> Clear(a, s[i])) ==> Same(m, AddPrev(m, s[0], x), a)
  {
    var n, s', m' := |s|, s + [x], AddPrev(m, s[0], x);
    assert s'[n] == x && forall i :: 0 <= i < n ==> s'[i] == s[i];
    assert forall i :: 0 <= i < n ==> Clear(s'[i], s'[n]);
    assert Linked(m, s[n - 1], s[After(n - 1, n)]);
    forall i | 0 <= i < |s'|
      ensures Linked(m', s'[i], s'[After(i, |s'|)])
    {
      if i < n - 1 {
        assert Linked(m, s[i], s[After(i, n)]);
        assert Clear(s'[i], s'[n - 1]) && Clear(s'[i], x) && Clear(s'[i + 1], x);
        if i > 0 { assert Clear(s'[0], s'[i]); }
        assert Clear(s'[0], s'[i + 1]);
        if i + 1 < n - 1 { assert Clear(s'[i + 1], s'[n - 1]); }
      } else {
        assert Clear(s'[n - 1], x) && Clear(s'[0], x);
        if n > 1 { assert Clear(s'[0], s'[n - 1]); }
      }
    }
  }

  /** __list_del on the neighbours of the node at x */
  function Unhooked(m: Memory, x: nat): Memory
  {
    var prev, next := Load(m, x), Load(m, x + 4);
    m[next := prev][prev + 4 := next]
  }

  lemma UnhookedRing(m: Memory, s: seq<nat>, k: nat)
    requires RingAt(m, s) && Spaced(s) && 0 < k < |s|
    ensures RingAt(Unhooked(m, s[k]), Without(s, k))
    ensures forall a :: (forall i :: 0 <= i < |s| ==> Clear(a, s[i])) ==> Same(m, Unhooked(m, s[k]), a)
  {
    var n, r, m' := |s|, Without(s, k), Unhooked(m, s[k]);
    assert Linked(m, s[k], s[After(k, n)]) && Linked(m, s[k - 1], s[After(k - 1, n)]);
    forall i | 0 <= i < |r|
      ensures Linked(m', r[i], r[After(i, |r|)])
    {
      var j := if i < k then i else i + 1;
      assert Linked(m, s[j], s[After(j, n)]);
      UnhookedWord(s, k, j);
    }
  }

  /** Which of the two words of node j the unlinking of node k writes. */
  lemma UnhookedWord(s: seq<nat>, k: nat, j: nat)
    requires Spaced(s) && 0 < k < |s| && j < |s|
    ensures s[j] + 4 == s[k - 1] + 4 <==> j == k - 1
    ensures s[j] == s[After(k, |s|)] <==> j == After(k, |s|)
    ensures s[j] != s[k - 1] + 4 && s[j] + 4 != s[After(k, |s|)]
  {
    var a := After(k, |s|);
    if j < a { assert Clear(s[j], s[a]); } else if a < j { assert Clear(s[a], s[j]); }
    if j < k - 1 { assert Clear(s[j], s[k - 1]); } else if k - 1 < j { assert Clear(s[k - 1], s[j]); }
  }

  /** Clear of every node of `s`. */
  predicate ClearOf(s: seq<nat>, a: nat)
  {
    forall i :: 0 <= i < |s| ==> Clear(a, s[i])
  }

  /** list_del_safe */
  function DelSafe(m: Memory, x: nat): Memory
  {
    Unhooked(m, x)[x + 4 := x][x := x]
  }

  /** A ring without one of its nodes. */
  lemma WithoutSpaced(s: seq<nat>, k: nat)
    requires Spaced(s) && k < |s|
    ensures Spaced(Without(s, k))
    ensures forall j :: 0 <= j < |s| - 1 ==> Clear(s[k], Without(s, k)[j])
    ensures forall a: nat :: ClearOf(s, a) ==> ClearOf(Without(s, k), a) && Clear(a, s[k])
  {
    var r := Without(s, k);
    forall i, j | 0 <= i < j < |r|
      ensures Clear(r[i], r[j])
    {
      assert Clear(s[if i < k then i else i + 1], s[if j < k then j else j + 1]);
    }
    forall j | 0 <= j < |r|
      ensures Clear(s[k], r[j])
    {
      if j < k { assert Clear(s[j], s[k]); } else { assert Clear(s[k], s[j + 1]); }
    }
  }

  lemma DelSafeAt(m: Memory, all: seq<nat>, k: nat)
    requires RingAt(m, all) && Spaced(all) && 0 < k < |all|
    ensures RingAt(DelSafe(m, all[k]), Without(all, k))
    ensures forall a: nat :: ClearOf(all, a) ==> Same(m, DelSafe(m, all[k]), a)
  {
    var x, m1, m' := all[k], Unhooked(m, all[k]), DelSafe(m, all[k]);
    UnhookedRing(m, all, k);
    WithoutSpaced(all, k);
    RingStays(m1, m', Without(all, k));
    forall a: nat | ClearOf(all, a)
      ensures Same(m, m', a)
    {
      assert Clear(a, x) && Same(m, m1, a);
    }
  }
}
