/**
  The heap's own state where it really is: the links of a free list in the first words of the free blocks,
  the header of an arena in the first words of its page, both in the memory that sys_malloc hands out. Each
  part of sys_malloc and sys_free, on words, does to them what module Heap says it does; and whatever the
  owners of live memory write there, the words go on saying it.
 */
module HeapMemory {
  import opened Machine
  import opened Bitmap
  import opened List
  import opened Heap
  import opened HeapSafety
  import opened HeapRuns
  import opened HeapWords

  // ---------------------------------------------------------------------------
  // The words of the heap
  // ---------------------------------------------------------------------------

  /** The descriptors stand one after the other from `d` on; each holds two words and the head of its free list. */
  function HeadAt(d: nat, c: nat): nat
  {
    d + 16 * c + 8
  }

  function DescWord(d: nat, desc: Desc): nat
  {
    match desc
    case NullDesc => 0
    case SizeDesc(c) => d + 16 * c
  }

  /** Nothing of the heap overlaps the descriptors, and none of them stands at NULL. */
  predicate DescsAt(d: nat)
  {
    0 < d && d + 16 * SIZES <= HEAP_BASE
  }

  function ListNodes(d: nat, h: Heap, c: nat): seq<nat>
    requires c < |h.free|
  {
    [HeadAt(d, c)] + h.free[c]
  }

  /** The header words of page p say what the model says. */
  predicate HeaderIn(m: Memory, d: nat, h: Heap, p: nat)
  {
    && p in h.headers && Load(m, PageAddr(p)) == DescWord(d, h.headers[p].desc)
    && Load(m, PageAddr(p) + 4) == h.headers[p].cnt
  }

  /** Pages whose first words are a header in use. */
  predicate IsArena(w: World, p: nat)
  {
    p in w.owner && (w.owner[p].Small? || w.owner[p].Head?)
  }

  predicate ListsIn(m: Memory, d: nat, h: Heap)
    requires |h.free| == SIZES
  {
    forall c :: 0 <= c < SIZES ==> RingAt(m, ListNodes(d, h, c))
  }

  predicate HeadersIn(m: Memory, d: nat, w: World)
  {
    forall p :: p in w.owner && IsArena(w, p) ==> HeaderIn(m, d, w.h, p)
  }

  /** Memory says what the model says. */
  predicate Refines(m: Memory, d: nat, w: World)
    requires Shape(w.h)
  {
    DescsAt(d) && ListsIn(m, d, w.h) && HeadersIn(m, d, w)
  }

  // ---------------------------------------------------------------------------
  // Nothing of it overlaps
  // ---------------------------------------------------------------------------

  lemma BlockBounds(owner: map<nat, Owner>, c: nat, x: nat)
    requires c < SIZES && IsBlock(owner, c, x)
    ensures PageAddr(PageOf(x)) + ARENA_HEADER <= x && x + BlockSize(c) <= PageAddr(PageOf(x)) + PAGE_SIZE
  {
    BlockRoundTrip(PageOf(x), c, IndexOf(x, c));
  }

  /** Different free or live blocks, of whatever sizes, do not overlap. */
  lemma BlocksClear(owner: map<nat, Owner>, c: nat, x: nat, c': nat, x': nat)
    requires c < SIZES && c' < SIZES && IsBlock(owner, c, x) && IsBlock(owner, c', x') && x != x'
    ensures x + BlockSize(c) <= x' || x' + BlockSize(c') <= x
    ensures Clear(x, x')
  {
    BlockBounds(owner, c, x);
    BlockBounds(owner, c', x');
    if PageOf(x) == PageOf(x') {
      BlocksApart(PageOf(x), IndexOf(x, c), PageOf(x'), IndexOf(x', c), c);
    }
  }

  lemma HeaderClear(owner: map<nat, Owner>, c: nat, x: nat, p: nat)
    requires c < SIZES && IsBlock(owner, c, x)
    ensures Apart(PageAddr(p), 8, x, BlockSize(c)) && Clear(PageAddr(p), x)
  {
    BlockBounds(owner, c, x);
    PagesOrdered(p, PageOf(x));
  }

  lemma PagesOrdered(p: nat, p': nat)
    ensures p < p' ==> PageAddr(p) + PAGE_SIZE <= PageAddr(p')
    ensures p' < p ==> PageAddr(p') + PAGE_SIZE <= PageAddr(p)
  {
  }

  /** A list with its head: no two nodes overlap. */
  lemma ListSpaced(d: nat, w: World, c: nat)
    requires Shape(w.h) && DescsAt(d) && InvFree(w) && c < SIZES
    ensures Spaced(ListNodes(d, w.h, c))
  {
    var s := ListNodes(d, w.h, c);
    forall i, j | 0 <= i < j < |s|
      ensures Clear(s[i], s[j])
    {
      assert s[j] == w.h.free[c][j - 1] && s[j] in w.h.free[c];
      if i > 0 {
        assert s[i] == w.h.free[c][i - 1] && s[i] in w.h.free[c];
        assert Distinct(w.h.free[c]);
        BlocksClear(w.owner, c, s[i], c, s[j]);
      }
    }
  }

  // ---------------------------------------------------------------------------
  // What owners write
  // ---------------------------------------------------------------------------

  /** Only words that overlap some live extent have changed. */
  ghost predicate OnlyClientsWrote(m: Memory, m': Memory, w: World)
    requires InvLive(w)
  {
    LivePagesOwned(w);
    forall a: nat :: (forall q :: q in w.live ==> Apart(a, 4, q, Capacity(w.h, q))) ==> Load(m', a) == Load(m, a)
  }

  /** What no live extent reaches is untouched. */
  lemma ClientsMiss(m: Memory, m': Memory, w: World, a: nat)
    requires InvLive(w) && OnlyClientsWrote(m, m', w)
    requires forall q :: q in w.live && HEAP_BASE <= q ==> Apart(a, 8, q, Capacity(w.h, q))
    ensures Same(m, m', a)
  {
    LivePagesOwned(w);
    forall q | q in w.live
      ensures Apart(a, 4, q, Capacity(w.h, q)) && Apart(a + 4, 4, q, Capacity(w.h, q))
    {
    }
  }

  lemma ClientsMissNode(m: Memory, m': Memory, d: nat, w: World, form: Form, c: nat, a: nat)
    requires Inv(w, form) && DescsAt(d) && OnlyClientsWrote(m, m', w) && c < SIZES && a in ListNodes(d, w.h, c)
    ensures Same(m, m', a)
  {
    if a in w.h.free[c] { ClientsMissBlock(m, m', w, form, c, a); } else { ClientsMiss(m, m', w, a); }
  }

  lemma ClientsMissBlock(m: Memory, m': Memory, w: World, form: Form, c: nat, a: nat)
    requires Inv(w, form) && OnlyClientsWrote(m, m', w) && c < SIZES && a in w.h.free[c]
    ensures Same(m, m', a)
  {
    BlockOffExtents(w, form, c, a);
    ClientsMiss(m, m', w, a);
  }

  lemma BlockOffExtents(w: World, form: Form, c: nat, a: nat)
    requires Inv(w, form) && c < SIZES && a in w.h.free[c]
    ensures forall q :: q in w.live && HEAP_BASE <= q ==> Apart(a, 8, q, Capacity(w.h, q))
  {
    forall q | q in w.live && HEAP_BASE <= q
      ensures Apart(a, 8, q, Capacity(w.h, q))
    {
      BlockOffExtent(w, form, c, a, q);
    }
  }

  lemma BlockOffExtent(w: World, form: Form, c: nat, a: nat, q: nat)
    requires Inv(w, form) && c < SIZES && a in w.h.free[c] && q in w.live && HEAP_BASE <= q
    ensures Apart(a, 8, q, Capacity(w.h, q))
  {
    ExtentMissesFreeBlock(w, q, c, a, form);
    FirstWordsApart(q, Capacity(w.h, q), a, c);
  }

  lemma FirstWordsApart(q: int, n: int, a: int, c: nat)
    requires c < SIZES && Apart(q, n, a, BlockSize(c))
    ensures Apart(a, 8, q, n)
  {
  }

  lemma ClientsMissHeader(m: Memory, m': Memory, w: World, form: Form, p: nat)
    requires Inv(w, form) && OnlyClientsWrote(m, m', w) && IsArena(w, p)
    ensures Same(m, m', PageAddr(p))
  {
    forall q | q in w.live && HEAP_BASE <= q
      ensures Apart(PageAddr(p), 8, q, Capacity(w.h, q))
    {
      ExtentMissesHeader(w, q, p, form);
    }
    ClientsMiss(m, m', w, PageAddr(p));
  }

  /** Whatever the owners of live memory write into it, the heap's own words are untouched. */
  lemma ClientsCannotDamage(m: Memory, m': Memory, d: nat, w: World, form: Form)
    requires Inv(w, form) && Refines(m, d, w) && OnlyClientsWrote(m, m', w)
    ensures Refines(m', d, w)
  {
    forall c | 0 <= c < SIZES
      ensures RingAt(m', ListNodes(d, w.h, c))
    {
      var s := ListNodes(d, w.h, c);
      forall i | 0 <= i < |s|
        ensures Same(m, m', s[i])
      {
        ClientsMissNode(m, m', d, w, form, c, s[i]);
      }
      RingStays(m, m', s);
    }
    forall p | p in w.owner && IsArena(w, p)
      ensures HeaderIn(m', d, w.h, p)
    {
      ClientsMissHeader(m, m', w, form, p);
    }
  }

  // ---------------------------------------------------------------------------
  // What one list operation spares
  // ---------------------------------------------------------------------------

  /** Eight bytes apart from the head and from every block of list c. */
  predicate OffList(d: nat, h: Heap, c: nat, a: nat)
    requires c < |h.free| == SIZES
  {
    Clear(a, HeadAt(d, c)) && forall x :: x in h.free[c] ==> Apart(a, 8, x, BlockSize(c))
  }

  /** Nothing has changed outside list c and the n bytes from `lo` on. */
  ghost predicate Spares(m: Memory, m': Memory, d: nat, h: Heap, c: nat, lo: nat, n: nat)
    requires c < |h.free| == SIZES
  {
    forall a: nat :: OffList(d, h, c, a) && Apart(a, 8, lo, n) ==> Same(m, m', a)
  }

  lemma OtherListOff(d: nat, w: World, c: nat, c': nat, a: nat)
    requires Shape(w.h) && DescsAt(d) && InvFree(w) && c < SIZES && c' < SIZES && c != c' && a in ListNodes(d, w.h, c')
    ensures OffList(d, w.h, c, a)
  {
    if a in w.h.free[c'] { BlockBounds(w.owner, c', a); }
    forall x | x in w.h.free[c]
      ensures Apart(a, 8, x, BlockSize(c))
    {
      BlockBounds(w.owner, c, x);
      if a in w.h.free[c'] {
        assert IsBlock(w.owner, c', a) && IsBlock(w.owner, c, x);
        BlocksClear(w.owner, c, x, c', a);
      }
    }
  }

  lemma HeaderOff(d: nat, w: World, c: nat, p: nat)
    requires Shape(w.h) && DescsAt(d) && InvFree(w) && c < SIZES
    ensures OffList(d, w.h, c, PageAddr(p))
  {
    forall x | x in w.h.free[c]
      ensures Apart(PageAddr(p), 8, x, BlockSize(c))
    {
      HeaderClear(w.owner, c, x, p);
    }
  }

  /** The other lists are as they were. */
  lemma OtherRings(m: Memory, m': Memory, d: nat, w: World, c: nat, lo: nat, n: nat)
    requires Shape(w.h) && DescsAt(d) && InvFree(w) && c < SIZES && Spares(m, m', d, w.h, c, lo, n)
    requires forall c' :: 0 <= c' < SIZES && c' != c ==> RingAt(m, ListNodes(d, w.h, c'))
    requires forall c', a :: 0 <= c' < SIZES && c' != c && a in ListNodes(d, w.h, c') ==> Apart(a, 8, lo, n)
    ensures forall c' :: 0 <= c' < SIZES && c' != c ==> RingAt(m', ListNodes(d, w.h, c'))
  {
    forall c' | 0 <= c' < SIZES && c' != c
      ensures RingAt(m', ListNodes(d, w.h, c'))
    {
      var s := ListNodes(d, w.h, c');
      forall i | 0 <= i < |s|
        ensures Same(m, m', s[i])
      {
        OtherListOff(d, w, c, c', s[i]);
      }
      RingStays(m, m', s);
    }
  }

  /** So is every header apart from the changed bytes. */
  lemma OtherHeader(m: Memory, m': Memory, d: nat, w: World, h: Heap, h': Heap, c: nat, lo: nat, n: nat, p: nat)
    requires Shape(w.h) && DescsAt(d) && InvFree(w) && c < SIZES && Spares(m, m', d, w.h, c, lo, n)
    requires HeaderIn(m, d, h, p) && Apart(PageAddr(p), 8, lo, n) && p in h'.headers && h'.headers[p] == h.headers[p]
    ensures HeaderIn(m', d, h', p)
  {
    HeaderOff(d, w, c, p);
    assert Same(m, m', PageAddr(p));
  }

  /** No list has a node in the header of a page. */
  lemma NodesOffHeader(d: nat, w: World, p: nat)
    requires Shape(w.h) && DescsAt(d) && InvFree(w)
    ensures forall c, a :: 0 <= c < SIZES && a in ListNodes(d, w.h, c) ==> Apart(a, 8, PageAddr(p), 8)
  {
    forall c, a | 0 <= c < SIZES && a in ListNodes(d, w.h, c)
      ensures Apart(a, 8, PageAddr(p), 8)
    {
      if a in w.h.free[c] { HeaderClear(w.owner, c, a, p); }
    }
  }

  // ---------------------------------------------------------------------------
  // sys_malloc takes a block
  // ---------------------------------------------------------------------------

  /** `cnt--` and `++cnt` on a uint32_t */
  function Plus(v: nat, change: int): nat
    requires change == 1 || change == -1
  {
    (v + TWO_32 + change) % TWO_32
  }

  /** What follows the unlinking: the block loses its links and is cleared, its arena has one free block less. */
  function Detached(m: Memory, x: nat, c: nat): Memory
    requires c < SIZES
  {
    var cleared := Cleared(m[x + 4 := 0][x := 0], x, BlockSize(c));
    cleared[BlockToArena(x) + 4 := Plus(Load(cleared, BlockToArena(x) + 4), -1)]
  }

  /** list_pop, memset and the counter */
  function PopBlock(m: Memory, d: nat, c: nat): (Memory, nat)
    requires c < SIZES
  {
    var x := Load(m, HeadAt(d, c) + 4);
    (Detached(Unhooked(m, x), x, c), x)
  }

  lemma DetachedSpares(m: Memory, x: nat, c: nat, p: nat)
    requires c < SIZES && BlockToArena(x) == PageAddr(p) && PageAddr(p) + 8 <= x
    ensures var m' := Detached(m, x, c);
            && (forall a: nat :: Apart(a, 8, x, BlockSize(c)) && Apart(a, 8, PageAddr(p), 8) ==> Same(m, m', a))
            && Load(m', PageAddr(p)) == Load(m, PageAddr(p))
            && Load(m', PageAddr(p) + 4) == Plus(Load(m, PageAddr(p) + 4), -1)
  {
  }

  /** Off the list is off its nodes. */
  lemma OffIsClear(d: nat, h: Heap, c: nat, a: nat)
    requires c < |h.free| == SIZES && OffList(d, h, c, a)
    ensures forall i :: 0 <= i < |ListNodes(d, h, c)| ==> Clear(a, ListNodes(d, h, c)[i])
  {
    var s := ListNodes(d, h, c);
    forall i | 0 <= i < |s|
      ensures Clear(a, s[i])
    {
      if i > 0 { assert s[i] == h.free[c][i - 1] && s[i] in h.free[c]; }
    }
  }

  /** The first block of a list, found through its head. */
  lemma FirstOf(m: Memory, d: nat, w: World, c: nat)
    requires Shape(w.h) && DescsAt(d) && InvFree(w) && c < SIZES && RingAt(m, ListNodes(d, w.h, c)) && w.h.free[c] != []
    ensures var x := w.h.free[c][0];
            && x in w.h.free[c] && IsBlock(w.owner, c, x) && Load(m, HeadAt(d, c) + 4) == x == ListNodes(d, w.h, c)[1]
            && BlockToArena(x) == PageAddr(PageOf(x)) && PageAddr(PageOf(x)) + 8 <= x
  {
    var s, x := ListNodes(d, w.h, c), w.h.free[c][0];
    assert x in w.h.free[c] && IsBlock(w.owner, c, x);
    assert Linked(m, s[0], s[After(0, |s|)]);
    BlockRoundTrip(PageOf(x), c, IndexOf(x, c));
  }

  /** On one list: the first block is gone. */
  lemma PopRing(m: Memory, d: nat, w: World, c: nat, m': Memory)
    requires Shape(w.h) && DescsAt(d) && InvFree(w) && c < SIZES && RingAt(m, ListNodes(d, w.h, c)) && w.h.free[c] != []
    requires m' == PopBlock(m, d, c).0
    ensures PopBlock(m, d, c).1 == w.h.free[c][0]
    ensures RingAt(m', [HeadAt(d, c)] + w.h.free[c][1..])
  {
    var s, x := ListNodes(d, w.h, c), w.h.free[c][0];
    FirstOf(m, d, w, c);
    ListSpaced(d, w, c);
    UnhookedRing(m, s, 1);
    assert Without(s, 1) == [HeadAt(d, c)] + w.h.free[c][1..];
    DetachedKeepsRing(Unhooked(m, x), d, w, c);
  }

  lemma DetachedKeepsRing(m: Memory, d: nat, w: World, c: nat)
    requires Shape(w.h) && DescsAt(d) && InvFree(w) && c < SIZES && w.h.free[c] != []
    requires RingAt(m, [HeadAt(d, c)] + w.h.free[c][1..])
    ensures RingAt(Detached(m, w.h.free[c][0], c), [HeadAt(d, c)] + w.h.free[c][1..])
  {
    var x, r := w.h.free[c][0], [HeadAt(d, c)] + w.h.free[c][1..];
    assert x in w.h.free[c] && IsBlock(w.owner, c, x);
    var p := PageOf(x);
    BlockRoundTrip(p, c, IndexOf(x, c));
    DetachedSpares(m, x, c, p);
    NodesOffHeader(d, w, p);
    forall i | 0 <= i < |r|
      ensures Same(m, Detached(m, x, c), r[i])
    {
      PoppedIsApart(d, w, c, i);
    }
    RingStays(m, Detached(m, x, c), r);
  }

  /** Everything else is the same, but for the counter. */
  lemma PopSpares(m: Memory, d: nat, w: World, c: nat, m': Memory)
    requires Shape(w.h) && DescsAt(d) && InvFree(w) && c < SIZES && RingAt(m, ListNodes(d, w.h, c)) && w.h.free[c] != []
    requires m' == PopBlock(m, d, c).0
    ensures w.h.free[c][0] in w.h.free[c]
    ensures var p := PageOf(w.h.free[c][0]);
            && Spares(m, m', d, w.h, c, PageAddr(p), 8)
            && Load(m', PageAddr(p)) == Load(m, PageAddr(p))
            && Load(m', PageAddr(p) + 4) == Plus(Load(m, PageAddr(p) + 4), -1)
  {
    var x := w.h.free[c][0];
    FirstOf(m, d, w, c);
    ListSpaced(d, w, c);
    UnhookedRing(m, ListNodes(d, w.h, c), 1);
    DetachedSpares(Unhooked(m, x), x, c, PageOf(x));
    assert PopBlock(m, d, c).0 == Detached(Unhooked(m, x), x, c);
    HeaderOff(d, w, c, PageOf(x));
    OffIsClear(d, w.h, c, PageAddr(PageOf(x)));
    assert Same(m, Unhooked(m, x), PageAddr(PageOf(x)));
    forall a: nat | OffList(d, w.h, c, a) && Apart(a, 8, PageAddr(PageOf(x)), 8)
      ensures Same(m, Detached(Unhooked(m, x), x, c), a)
    {
      OffIsClear(d, w.h, c, a);
      assert Same(m, Unhooked(m, x), a);
    }
  }

  /** The nodes that stay on the list are apart from the block that leaves. */
  lemma PoppedIsApart(d: nat, w: World, c: nat, i: nat)
    requires Shape(w.h) && DescsAt(d) && InvFree(w) && c < SIZES && w.h.free[c] != []
    requires i < |w.h.free[c]|
    ensures var a := ([HeadAt(d, c)] + w.h.free[c][1..])[i];
            Apart(a, 8, w.h.free[c][0], BlockSize(c)) && a in ListNodes(d, w.h, c)
  {
    var x := w.h.free[c][0];
    assert x in w.h.free[c];
    BlockBounds(w.owner, c, x);
    if i > 0 {
      var a := w.h.free[c][i];
      assert a in w.h.free[c] && Distinct(w.h.free[c]) && a != x;
      BlocksClear(w.owner, c, x, c, a);
    }
  }

  /** A listed block is counted, and the counter is a small number. */
  lemma CounterBounds(w: World, c: nat, p: nat)
    requires Shape(w.h) && c < SIZES
    ensures |FreeIndices(w.h, p, c)| <= Blocks(c) < TWO_32 - 1
    ensures forall x :: x in w.h.free[c] && IsBlock(w.owner, c, x) && PageOf(x) == p ==> |FreeIndices(w.h, p, c)| > 0
  {
    assert FreeIndices(w.h, p, c) <= Span(0, Blocks(c));
    SubsetIsSmaller(FreeIndices(w.h, p, c), Span(0, Blocks(c)));
    forall x | x in w.h.free[c] && IsBlock(w.owner, c, x) && PageOf(x) == p
      ensures |FreeIndices(w.h, p, c)| > 0
    {
      assert IndexOf(x, c) in FreeIndices(w.h, p, c);
    }
  }

  lemma SubsetIsSmaller(a: set<nat>, b: set<nat>)
    requires a <= b
    ensures |a| <= |b|
  {
    assert |b - a| == |b| - |a|;
  }

  /** One list has changed, the others have not. */
  lemma OneListChanged(m: Memory, m': Memory, d: nat, w: World, h': Heap, c: nat, lo: nat, n: nat)
    requires Shape(w.h) && DescsAt(d) && InvFree(w) && c < SIZES && Spares(m, m', d, w.h, c, lo, n)
    requires forall c' :: 0 <= c' < SIZES && c' != c ==> RingAt(m, ListNodes(d, w.h, c'))
    requires forall c', a :: 0 <= c' < SIZES && c' != c && a in ListNodes(d, w.h, c') ==> Apart(a, 8, lo, n)
    requires |h'.free| == SIZES && RingAt(m', ListNodes(d, h', c))
    requires forall c' :: 0 <= c' < SIZES && c' != c ==> h'.free[c'] == w.h.free[c']
    ensures ListsIn(m', d, h')
  {
    OtherRings(m, m', d, w, c, lo, n);
    forall c' | 0 <= c' < SIZES
      ensures RingAt(m', ListNodes(d, h', c'))
    {
      if c' != c { assert ListNodes(d, h', c') == ListNodes(d, w.h, c'); }
    }
  }

  lemma TakeRefines(m: Memory, d: nat, w: World, c: nat, size: nat, form: Form)
    requires Inv(w, form) && Refines(m, d, w) && c < SIZES && w.h.free[c] != [] && size <= BlockSize(c)
    ensures PopBlock(m, d, c).1 == w.h.free[c][0]
    ensures Shape(TakeWorld(w, c, size).h) && Refines(PopBlock(m, d, c).0, d, TakeWorld(w, c, size))
  {
    PopRing(m, d, w, c, PopBlock(m, d, c).0);
    TakeRefinesTo(m, d, w, c, size, form, PopBlock(m, d, c).0, TakeWorld(w, c, size));
  }

  lemma TakeRefinesTo(m: Memory, d: nat, w: World, c: nat, size: nat, form: Form, m': Memory, w': World)
    requires Inv(w, form) && Refines(m, d, w) && c < SIZES && w.h.free[c] != []
    requires m' == PopBlock(m, d, c).0 && w' == TakeWorld(w, c, size)
    ensures Shape(w'.h) && Refines(m', d, w')
  {
    PopFacts(m, d, w, c, m', w.h.free[c][0]);
    TakeRefinesFrom(m, d, w, c, size, form, m', w', w.h.free[c][0]);
  }

  lemma PopFacts(m: Memory, d: nat, w: World, c: nat, m': Memory, x: nat)
    requires Shape(w.h) && DescsAt(d) && InvFree(w) && c < SIZES && ListsIn(m, d, w.h) && w.h.free[c] != []
    requires m' == PopBlock(m, d, c).0 && x == w.h.free[c][0]
    ensures HEAP_BASE <= x && RingAt(m', [HeadAt(d, c)] + w.h.free[c][1..])
    ensures Spares(m, m', d, w.h, c, PageAddr(PageOf(x)), 8)
    ensures Load(m', PageAddr(PageOf(x))) == Load(m, PageAddr(PageOf(x)))
    ensures Load(m', PageAddr(PageOf(x)) + 4) == Plus(Load(m, PageAddr(PageOf(x)) + 4), -1)
  {
    assert RingAt(m, ListNodes(d, w.h, c));
    PopRing(m, d, w, c, m');
    PopSpares(m, d, w, c, m');
  }

  lemma TakeRefinesFrom(m: Memory, d: nat, w: World, c: nat, size: nat, form: Form, m': Memory, w': World, x: nat)
    requires Inv(w, form) && Refines(m, d, w) && c < SIZES && w.h.free[c] != [] && x == w.h.free[c][0] && HEAP_BASE <= x
    requires RingAt(m', [HeadAt(d, c)] + w.h.free[c][1..])
    requires Spares(m, m', d, w.h, c, PageAddr(PageOf(x)), 8)
    requires Load(m', PageAddr(PageOf(x))) == Load(m, PageAddr(PageOf(x)))
    requires Load(m', PageAddr(PageOf(x)) + 4) == Plus(Load(m, PageAddr(PageOf(x)) + 4), -1)
    requires w' == TakeWorld(w, c, size)
    ensures Shape(w'.h) && Refines(m', d, w')
  {
    TakeEffect(w, c, size, form);
    TakeDeltaRefines(m, m', d, w, w', c, x);
  }

  lemma TakeDeltaRefines(m: Memory, m': Memory, d: nat, w: World, w': World, c: nat, x: nat)
    requires Shape(w.h) && Shape(w'.h) && Refines(m, d, w) && InvFree(w) && InvSmall(w) && c < SIZES
    requires x in w.h.free[c] && IsBlock(w.owner, c, x) && w'.owner == w.owner
    requires w.h.free[c] != [] && RingAt(m', [HeadAt(d, c)] + w.h.free[c][1..])
    requires Spares(m, m', d, w.h, c, PageAddr(PageOf(x)), 8)
    requires Load(m', PageAddr(PageOf(x))) == Load(m, PageAddr(PageOf(x)))
    requires Load(m', PageAddr(PageOf(x)) + 4) == Plus(Load(m, PageAddr(PageOf(x)) + 4), -1)
    requires w'.h.headers == w.h.headers[PageOf(x) := Header(SizeDesc(c), |FreeIndices(w.h, PageOf(x), c)| - 1)]
    requires w'.h.free == w.h.free[c := w.h.free[c][1..]]
    ensures Refines(m', d, w')
  {
    NodesOffHeader(d, w, PageOf(x));
    assert ListNodes(d, w'.h, c) == [HeadAt(d, c)] + w.h.free[c][1..];
    OneListChanged(m, m', d, w, w'.h, c, PageAddr(PageOf(x)), 8);
    assert SmallOk(w, PageOf(x));
    CounterBounds(w, c, PageOf(x));
    CountHeaders(m, m', d, w, w, w', c, PageOf(x), -1);
  }

  /** The counter of arena p has changed by one, in memory and in the model; the other headers are as they were. */
  lemma CountHeaders(m: Memory, m': Memory, d: nat, off: World, w: World, w': World, c: nat, p: nat, change: int)
    requires Shape(off.h) && DescsAt(d) && InvFree(off) && HeadersIn(m, d, w) && Shape(w.h) && c < SIZES
    requires p in w.owner && w.owner[p] == Small(c) && SmallOk(w, p) && w'.owner == w.owner
    requires (change == 1 || change == -1) && 0 <= |FreeIndices(w.h, p, c)| + change
    requires Spares(m, m', d, off.h, c, PageAddr(p), 8) && Load(m', PageAddr(p)) == Load(m, PageAddr(p))
    requires Load(m', PageAddr(p) + 4) == Plus(Load(m, PageAddr(p) + 4), change)
    requires w'.h.headers == w.h.headers[p := Header(SizeDesc(c), |FreeIndices(w.h, p, c)| + change)]
    ensures HeadersIn(m', d, w')
  {
    assert HeaderIn(m, d, w.h, p);
    CounterBounds(w, c, p);
    forall q | q in w'.owner && IsArena(w', q)
      ensures HeaderIn(m', d, w'.h, q)
    {
      assert HeaderIn(m, d, w.h, q);
      if q != p {
        PagesOrdered(q, p);
        OtherHeader(m, m', d, off, w.h, w'.h, c, PageAddr(p), 8, q);
      }
    }
  }

  // ---------------------------------------------------------------------------
  // sys_free puts a block back
  // ---------------------------------------------------------------------------

  /** list_add_prev and the counter of the arena */
  function PutBlock(m: Memory, d: nat, c: nat, x: nat, arena: nat): Memory
  {
    var linked := AddPrev(m, HeadAt(d, c), x);
    linked[arena + 4 := Plus(Load(linked, arena + 4), 1)]
  }

  /** A list that a block is put on: the ring is one longer, and nothing off the longer list is touched. */
  lemma AddRing(m: Memory, d: nat, w': World, c: nat, x: nat, before: seq<nat>)
    requires Shape(w'.h) && DescsAt(d) && InvFree(w') && c < SIZES && w'.h.free[c] == before + [x]
    requires RingAt(m, [HeadAt(d, c)] + before)
    ensures RingAt(AddPrev(m, HeadAt(d, c), x), ListNodes(d, w'.h, c))
    ensures Spares(m, AddPrev(m, HeadAt(d, c), x), d, w'.h, c, 0, 0)
  {
    var s, s' := [HeadAt(d, c)] + before, ListNodes(d, w'.h, c);
    assert s' == s + [x];
    ListSpaced(d, w', c);
    AddPrevRing(m, s, x);
    forall a: nat | OffList(d, w'.h, c, a)
      ensures Same(m, AddPrev(m, HeadAt(d, c), x), a)
    {
      OffIsClear(d, w'.h, c, a);
      assert s'[|s|] == x && forall i :: 0 <= i < |s| ==> s'[i] == s[i];
    }
  }

  lemma PutRefines(m: Memory, d: nat, w: World, ptr: nat, c: nat, arena: nat, form: Form)
    requires Inv(w, form) && Refines(m, d, w) && ptr in w.live && HEAP_BASE <= ptr && PageOf(ptr) in w.owner
    requires w.owner[PageOf(ptr)] == Small(c) && arena == PageAddr(PageOf(ptr))
    ensures Freeable(w.h, ptr) && c < SIZES && HeaderAt(w.h, PageOf(ptr)).desc == SizeDesc(c)
    ensures Shape(PutWorld(w, ptr).h) && Refines(PutBlock(m, d, c, ptr, arena), d, PutWorld(w, ptr))
  {
    PutEffect(w, ptr, form);
    PutKeeps(w, ptr, form);
    PutDeltaRefines(m, d, w, PutWorld(w, ptr), c, ptr, arena);
  }

  /** The counter of a page is on no list. */
  lemma CounterSpares(m: Memory, p: nat, v: nat)
    ensures forall a: nat :: Apart(a, 8, PageAddr(p), 8) ==> Same(m, m[PageAddr(p) + 4 := v], a)
  {
  }

  lemma CounterKeepsRing(m: Memory, d: nat, w: World, c: nat, p: nat, v: nat)
    requires Shape(w.h) && DescsAt(d) && InvFree(w) && c < SIZES && RingAt(m, ListNodes(d, w.h, c))
    ensures RingAt(m[PageAddr(p) + 4 := v], ListNodes(d, w.h, c))
  {
    var s, m' := ListNodes(d, w.h, c), m[PageAddr(p) + 4 := v];
    NodesOffHeader(d, w, p);
    CounterSpares(m, p, v);
    forall i | 0 <= i < |s|
      ensures Same(m, m', s[i])
    {
      assert s[i] in s && Apart(s[i], 8, PageAddr(p), 8);
    }
    RingStays(m, m', s);
  }

  lemma PutDeltaRefines(m: Memory, d: nat, w: World, w': World, c: nat, x: nat, arena: nat)
    requires Shape(w.h) && Shape(w'.h) && Refines(m, d, w) && InvSmall(w) && InvFree(w') && c < SIZES
    requires IsBlock(w.owner, c, x) && w'.owner == w.owner && arena == PageAddr(PageOf(x))
    requires w'.h.headers == w.h.headers[PageOf(x) := Header(SizeDesc(c), |FreeIndices(w.h, PageOf(x), c)| + 1)]
    requires w'.h.free == w.h.free[c := w.h.free[c] + [x]]
    ensures Refines(PutBlock(m, d, c, x, arena), d, w')
  {
    var p := PageOf(x);
    var m1, m' := AddPrev(m, HeadAt(d, c), x), PutBlock(m, d, c, x, arena);
    BlockRoundTrip(p, c, IndexOf(x, c));
    assert RingAt(m, ListNodes(d, w.h, c));
    AddRing(m, d, w', c, x, w.h.free[c]);
    CounterSpares(m1, p, Plus(Load(m1, PageAddr(p) + 4), 1));
    CounterKeepsRing(m1, d, w', c, p, Plus(Load(m1, PageAddr(p) + 4), 1));
    HeaderOff(d, w', c, p);
    assert Same(m, m1, PageAddr(p));
    PutSpares(m, m1, m', d, w', c, p);
    NodesOffHeader(d, w', p);
    assert forall c' :: 0 <= c' < SIZES && c' != c ==> ListNodes(d, w'.h, c') == ListNodes(d, w.h, c');
    OneListChanged(m, m', d, w', w'.h, c, PageAddr(p), 8);
    assert SmallOk(w, p);
    CountHeaders(m, m', d, w', w, w', c, p, 1);
  }

  lemma PutSpares(m: Memory, m1: Memory, m': Memory, d: nat, w: World, c: nat, p: nat)
    requires Shape(w.h) && c < SIZES && Spares(m, m1, d, w.h, c, 0, 0)
    requires forall a: nat :: Apart(a, 8, PageAddr(p), 8) ==> Same(m1, m', a)
    ensures Spares(m, m', d, w.h, c, PageAddr(p), 8)
  {
    forall a: nat | OffList(d, w.h, c, a) && Apart(a, 8, PageAddr(p), 8)
      ensures Same(m, m', a)
    {
      assert Same(m, m1, a) && Same(m1, m', a);
    }
  }

  // ---------------------------------------------------------------------------
  // sys_malloc cuts a page
  // ---------------------------------------------------------------------------

  /** list_add_prev of the first k blocks, in order */
  function LinkedFirst(m: Memory, d: nat, c: nat, arena: nat, k: nat): Memory
    requires c < SIZES
  {
    if k == 0 then m else AddPrev(LinkedFirst(m, d, c, arena, k - 1), HeadAt(d, c), ArenaToBlock(arena, c, k - 1))
  }

  /** memset and the header of a new arena */
  function NewArena(m: Memory, arena: nat, pages: nat, desc: nat, cnt: nat): Memory
  {
    Cleared(m, arena, pages * PAGE_SIZE)[arena := desc][arena + 4 := cnt]
  }

  function CutPage(m: Memory, d: nat, c: nat, arena: nat): Memory
    requires c < SIZES
  {
    LinkedFirst(NewArena(m, arena, 1, DescWord(d, SizeDesc(c)), Blocks(c)), d, c, arena, Blocks(c))
  }

  lemma NewArenaSpares(m: Memory, arena: nat, pages: nat, desc: nat, cnt: nat)
    requires pages >= 1
    ensures forall a: nat :: Apart(a, 8, arena, pages * PAGE_SIZE) ==> Same(m, NewArena(m, arena, pages, desc, cnt), a)
    ensures Load(NewArena(m, arena, pages, desc, cnt), arena) == desc
    ensures Load(NewArena(m, arena, pages, desc, cnt), arena + 4) == cnt
  {
  }

  lemma {:induction false} LinkedRing(m: Memory, d: nat, c: nat, p: nat, k: nat, s: seq<nat>)
    requires c < SIZES && k <= Blocks(c) && RingAt(m, s) && s[0] == HeadAt(d, c)
    requires Spaced(s + FirstBlocks(p, c, Blocks(c)))
    ensures RingAt(LinkedFirst(m, d, c, PageAddr(p), k), s + FirstBlocks(p, c, k))
    ensures forall a: nat :: ClearOf(s + FirstBlocks(p, c, Blocks(c)), a) ==> Same(m, LinkedFirst(m, d, c, PageAddr(p), k), a)
    decreases k
  {
    if k == 0 {
      assert s + FirstBlocks(p, c, 0) == s;
    } else {
      LinkedRing(m, d, c, p, k - 1, s);
      LinkOne(LinkedFirst(m, d, c, PageAddr(p), k - 1), d, c, p, k, s);
      forall a: nat | ClearOf(s + FirstBlocks(p, c, Blocks(c)), a)
        ensures Same(m, LinkedFirst(m, d, c, PageAddr(p), k), a)
      {
        assert Same(m, LinkedFirst(m, d, c, PageAddr(p), k - 1), a);
      }
    }
  }

  lemma LinkOne(m: Memory, d: nat, c: nat, p: nat, k: nat, s: seq<nat>)
    requires c < SIZES && 0 < k <= Blocks(c) && |s| > 0 && s[0] == HeadAt(d, c)
    requires RingAt(m, s + FirstBlocks(p, c, k - 1)) && Spaced(s + FirstBlocks(p, c, Blocks(c)))
    ensures RingAt(AddPrev(m, HeadAt(d, c), Block(p, c, k - 1)), s + FirstBlocks(p, c, k))
    ensures forall a: nat :: ClearOf(s + FirstBlocks(p, c, Blocks(c)), a) ==>
            Same(m, AddPrev(m, HeadAt(d, c), Block(p, c, k - 1)), a)
  {
    var all, now, x := s + FirstBlocks(p, c, Blocks(c)), s + FirstBlocks(p, c, k - 1), Block(p, c, k - 1);
    assert now + [x] == s + FirstBlocks(p, c, k);
    assert forall i :: 0 <= i < |now + [x]| ==> (now + [x])[i] == all[i];
    AddPrevRing(m, now, x);
    forall a: nat | ClearOf(all, a)
      ensures Same(m, AddPrev(m, HeadAt(d, c), x), a)
    {
      assert all[|now|] == x && forall i :: 0 <= i < |now| ==> now[i] == all[i];
    }
  }

  /** No list has a node in pages that are nobody's. */
  lemma NodesOffPages(d: nat, w: World, b: nat, n: nat)
    requires Shape(w.h) && DescsAt(d) && InvFree(w) && forall q :: b <= q < b + n ==> q !in w.owner
    ensures forall c, a :: 0 <= c < SIZES && a in ListNodes(d, w.h, c) ==> Apart(a, 8, PageAddr(b), n * PAGE_SIZE)
  {
    forall c, a | 0 <= c < SIZES && a in ListNodes(d, w.h, c)
      ensures Apart(a, 8, PageAddr(b), n * PAGE_SIZE)
    {
      if a in w.h.free[c] {
        BlockBounds(w.owner, c, a);
        PagesApart(b, n, PageOf(a));
      }
    }
  }

  lemma PagesApart(b: nat, n: nat, p: nat)
    requires !(b <= p < b + n)
    ensures Apart(PageAddr(p), PAGE_SIZE, PageAddr(b), n * PAGE_SIZE)
  {
  }

  lemma RefillRefines(m: Memory, d: nat, w: World, c: nat, form: Form)
    requires Inv(w, form) && Refines(m, d, w) && c < SIZES && ApplyOutcome(w.h.vm, 1).Found?
    ensures Shape(RefillWorld(w, c, form).h)
    ensures Refines(CutPage(m, d, c, PageAddr(ApplyOutcome(w.h.vm, 1).base)), d, RefillWorld(w, c, form))
  {
    RefillEffect(w, c, form);
    RefillKeeps(w, c, form);
    RefillDeltaRefines(m, d, w, RefillWorld(w, c, form), c, ApplyOutcome(w.h.vm, 1).base);
  }

  lemma RefillDeltaRefines(m: Memory, d: nat, w: World, w': World, c: nat, b: nat)
    requires Shape(w.h) && Shape(w'.h) && Refines(m, d, w) && InvFree(w) && InvFree(w') && c < SIZES && b !in w.owner
    requires w'.owner == w.owner[b := Small(c)] && w'.h.headers == w.h.headers[b := Header(SizeDesc(c), Blocks(c))]
    requires w'.h.free == w.h.free[c := w.h.free[c] + FirstBlocks(b, c, Blocks(c))]
    ensures Refines(CutPage(m, d, c, PageAddr(b)), d, w')
  {
    var m0, m' := NewArena(m, PageAddr(b), 1, DescWord(d, SizeDesc(c)), Blocks(c)), CutPage(m, d, c, PageAddr(b));
    var s := ListNodes(d, w.h, c);
    NewArenaSpares(m, PageAddr(b), 1, DescWord(d, SizeDesc(c)), Blocks(c));
    NodesOffPages(d, w, b, 1);
    assert RingAt(m, s) && forall i :: 0 <= i < |s| ==> s[i] in s;
    RingStays(m, m0, s);
    ListSpaced(d, w', c);
    assert ListNodes(d, w'.h, c) == s + FirstBlocks(b, c, Blocks(c));
    LinkedRing(m0, d, c, b, Blocks(c), s);
    CutSpares(m, m0, m', d, w', c, b);
    assert forall c' :: 0 <= c' < SIZES && c' != c ==> ListNodes(d, w'.h, c') == ListNodes(d, w.h, c');
    OneListChanged(m, m', d, w', w'.h, c, PageAddr(b), PAGE_SIZE);
    CutHeaders(m, m0, m', d, w, w', c, b);
  }

  lemma CutSpares(m: Memory, m0: Memory, m': Memory, d: nat, w': World, c: nat, b: nat)
    requires Shape(w'.h) && c < SIZES && forall a: nat :: Apart(a, 8, PageAddr(b), PAGE_SIZE) ==> Same(m, m0, a)
    requires forall a: nat :: ClearOf(ListNodes(d, w'.h, c), a) ==> Same(m0, m', a)
    ensures Spares(m, m', d, w'.h, c, PageAddr(b), PAGE_SIZE)
    ensures Spares(m0, m', d, w'.h, c, 0, 0)
  {
    forall a: nat | OffList(d, w'.h, c, a)
      ensures Same(m0, m', a) && (Apart(a, 8, PageAddr(b), PAGE_SIZE) ==> Same(m, m', a))
    {
      OffIsClear(d, w'.h, c, a);
      assert ClearOf(ListNodes(d, w'.h, c), a);
      assert Apart(a, 8, PageAddr(b), PAGE_SIZE) ==> Same(m, m0, a);
    }
  }

  lemma CutHeaders(m: Memory, m0: Memory, m': Memory, d: nat, w: World, w': World, c: nat, b: nat)
    requires Shape(w.h) && Shape(w'.h) && DescsAt(d) && HeadersIn(m, d, w) && InvFree(w') && c < SIZES
    requires Spares(m, m', d, w'.h, c, PageAddr(b), PAGE_SIZE) && Spares(m0, m', d, w'.h, c, 0, 0)
    requires Load(m0, PageAddr(b)) == DescWord(d, SizeDesc(c)) && Load(m0, PageAddr(b) + 4) == Blocks(c)
    requires w'.owner == w.owner[b := Small(c)] && w'.h.headers == w.h.headers[b := Header(SizeDesc(c), Blocks(c))]
    ensures HeadersIn(m', d, w')
  {
    forall q | q in w'.owner && IsArena(w', q)
      ensures HeaderIn(m', d, w'.h, q)
    {
      if q == b {
        HeaderOff(d, w', c, b);
        assert Same(m0, m', PageAddr(b));
      } else {
        assert HeaderIn(m, d, w.h, q);
        PagesOrdered(q, b);
        OtherHeader(m, m', d, w', w.h, w'.h, c, PageAddr(b), PAGE_SIZE, q);
      }
    }
  }

  // ---------------------------------------------------------------------------
  // sys_free returns an arena
  // ---------------------------------------------------------------------------

  /** The loop over the first k blocks of a page */
  function UnlinkedAll(m: Memory, c: nat, arena: nat, k: nat): Memory
    requires c < SIZES
  {
    if k == 0 then m else DelSafe(UnlinkedAll(m, c, arena, k - 1), ArenaToBlock(arena, c, k - 1))
  }

  lemma {:induction false} RemoveIsWithout(s: seq<nat>, i: nat)
    requires Distinct(s) && i < |s|
    ensures Remove(s, s[i]) == Without(s, i)
    decreases |s|
  {
    if i == 0 {
      assert Without(s, 0) == s[1..];
    } else {
      var t := s[1..];
      assert s[0] != s[i] && t[i - 1] == s[i];
      assert Distinct(t);
      RemoveIsWithout(t, i - 1);
      assert Without(s, i) == [s[0]] + Without(t, i - 1);
    }
  }

  lemma DelSafeRing(m: Memory, head: nat, s: seq<nat>, x: nat)
    requires Distinct(s) && x in s && RingAt(m, [head] + s) && Spaced([head] + s)
    ensures RingAt(DelSafe(m, x), [head] + Remove(s, x)) && Spaced([head] + Remove(s, x))
    ensures forall a: nat :: ClearOf([head] + s, a) ==> Same(m, DelSafe(m, x), a) && ClearOf([head] + Remove(s, x), a)
  {
    var i :| 0 <= i < |s| && s[i] == x;
    RemovedIsWithout(head, s, i);
    DelSafeAt(m, [head] + s, i + 1);
    WithoutSpaced([head] + s, i + 1);
  }

  lemma RemovedIsWithout(head: nat, s: seq<nat>, i: nat)
    requires Distinct(s) && i < |s|
    ensures ([head] + s)[i + 1] == s[i] && [head] + Remove(s, s[i]) == Without([head] + s, i + 1)
  {
    RemoveIsWithout(s, i);
    WithoutBehind(head, s, i);
  }

  lemma WithoutBehind(head: nat, s: seq<nat>, i: nat)
    requires i < |s|
    ensures [head] + Without(s, i) == Without([head] + s, i + 1)
  {
    var a, b := [head] + Without(s, i), Without([head] + s, i + 1);
    assert |a| == |b|;
    forall j | 0 <= j < |a|
      ensures a[j] == b[j]
    {
    }
  }

  /** The list has lost some blocks, and nothing off the list it was has changed. */
  ghost predicate Shrunk(m: Memory, m': Memory, head: nat, s: seq<nat>, s': seq<nat>)
  {
    && RingAt(m', [head] + s') && Spaced([head] + s')
    && forall a: nat :: ClearOf([head] + s, a) ==> Same(m, m', a) && ClearOf([head] + s', a)
  }

  lemma {:induction false} UnlinkedRing(m: Memory, head: nat, c: nat, p: nat, k: nat, s: seq<nat>)
    requires c < SIZES && k <= Blocks(c) && Distinct(s) && RingAt(m, [head] + s) && Spaced([head] + s)
    requires forall i: nat :: i < Blocks(c) ==> Block(p, c, i) in s
    ensures Shrunk(m, UnlinkedAll(m, c, PageAddr(p), k), head, s, Unlinked(s, p, c, k))
    decreases k
  {
    if k == 0 {
      ShrunkByNothing(m, head, s);
    } else {
      UnlinkedRing(m, head, c, p, k - 1, s);
      UnlinkedStep(m, head, c, p, k, s);
    }
  }

  lemma ShrunkByNothing(m: Memory, head: nat, s: seq<nat>)
    requires RingAt(m, [head] + s) && Spaced([head] + s)
    ensures Shrunk(m, m, head, s, s)
  {
  }

  lemma UnlinkedStep(m: Memory, head: nat, c: nat, p: nat, k: nat, s: seq<nat>)
    requires c < SIZES && 0 < k <= Blocks(c) && Distinct(s) && Block(p, c, k - 1) in s
    requires Shrunk(m, UnlinkedAll(m, c, PageAddr(p), k - 1), head, s, Unlinked(s, p, c, k - 1))
    ensures Shrunk(m, UnlinkedAll(m, c, PageAddr(p), k), head, s, Unlinked(s, p, c, k))
  {
    StillListed(s, p, c, k - 1);
    ShrinksOn(m, UnlinkedAll(m, c, PageAddr(p), k - 1), head, s, Unlinked(s, p, c, k - 1), Block(p, c, k - 1));
  }

  lemma ShrinksOn(m: Memory, m1: Memory, head: nat, s: seq<nat>, s1: seq<nat>, x: nat)
    requires Shrunk(m, m1, head, s, s1) && Distinct(s1) && x in s1
    ensures Shrunk(m, DelSafe(m1, x), head, s, Remove(s1, x))
  {
    DelSafeRing(m1, head, s1, x);
    ShrunkTwice(m, m1, DelSafe(m1, x), head, s, s1, Remove(s1, x));
  }

  lemma ShrunkTwice(m: Memory, m1: Memory, m2: Memory, head: nat, s: seq<nat>, s1: seq<nat>, s2: seq<nat>)
    requires Shrunk(m, m1, head, s, s1) && Shrunk(m1, m2, head, s1, s2)
    ensures Shrunk(m, m2, head, s, s2)
  {
    forall a: nat | ClearOf([head] + s, a)
      ensures Same(m, m2, a) && ClearOf([head] + s2, a)
    {
      assert Same(m, m1, a) && Same(m1, m2, a);
    }
  }

  lemma StillListed(s: seq<nat>, p: nat, c: nat, k: nat)
    requires c < SIZES && k < Blocks(c) && Distinct(s) && Block(p, c, k) in s
    ensures Block(p, c, k) in Unlinked(s, p, c, k)
  {
    forall i | 0 <= i < k
      ensures Block(p, c, k) != Block(p, c, i)
    {
      BlockRoundTrip(p, c, i);
      BlockRoundTrip(p, c, k);
    }
  }

  lemma DrainRefines(m: Memory, d: nat, w: World, ptr: nat, c: nat, form: Form)
    requires Inv(w, form) && Refines(m, d, w) && HEAP_BASE <= ptr && PageOf(ptr) in w.owner && w.owner[PageOf(ptr)] == Small(c)
    requires c < SIZES && HeaderAt(w.h, PageOf(ptr)).cnt == Blocks(c)
    ensures Shape(DrainWorld(w, ptr, c, form).h)
    ensures Refines(UnlinkedAll(m, c, PageAddr(PageOf(ptr)), Blocks(c)), d, DrainWorld(w, ptr, c, form))
  {
    var p := PageOf(ptr);
    DrainEffect(w, ptr, c, form);
    assert SmallOk(w, p);
    FullMeansAllFree(w.h, p, c);
    DrainDeltaRefines(m, d, w, DrainWorld(w, ptr, c, form), c, p);
  }

  lemma DrainDeltaRefines(m: Memory, d: nat, w: World, w': World, c: nat, p: nat)
    requires Shape(w.h) && Shape(w'.h) && Refines(m, d, w) && InvFree(w) && c < SIZES
    requires forall i: nat :: i < Blocks(c) ==> Block(p, c, i) in w.h.free[c]
    requires w'.owner == w.owner - {p} && w'.h.headers == w.h.headers
    requires w'.h.free == w.h.free[c := Unlinked(w.h.free[c], p, c, Blocks(c))]
    ensures Refines(UnlinkedAll(m, c, PageAddr(p), Blocks(c)), d, w')
  {
    var m', s := UnlinkedAll(m, c, PageAddr(p), Blocks(c)), w.h.free[c];
    ListSpaced(d, w, c);
    assert Distinct(s) && ListNodes(d, w.h, c) == [HeadAt(d, c)] + s && RingAt(m, ListNodes(d, w.h, c));
    UnlinkedRing(m, HeadAt(d, c), c, p, Blocks(c), s);
    assert ListNodes(d, w'.h, c) == [HeadAt(d, c)] + Unlinked(s, p, c, Blocks(c));
    forall a: nat | OffList(d, w.h, c, a)
      ensures Same(m, m', a)
    {
      OffIsClear(d, w.h, c, a);
      assert ClearOf([HeadAt(d, c)] + s, a);
    }
    OneListChanged(m, m', d, w, w'.h, c, 0, 0);
    forall q | q in w'.owner && IsArena(w', q)
      ensures HeaderIn(m', d, w'.h, q)
    {
      assert HeaderIn(m, d, w.h, q);
      OtherHeader(m, m', d, w, w.h, w'.h, c, 0, 0, q);
    }
  }

  // ---------------------------------------------------------------------------
  // Whole pages
  // ---------------------------------------------------------------------------

  lemma GrabRefines(m: Memory, d: nat, w: World, size: nat, form: Form)
    requires Inv(w, form) && Refines(m, d, w) && 1024 < size <= w.h.poolSize && ApplyOutcome(w.h.vm, PagesFor(size)).Found?
    ensures Shape(GrabWorld(w, size, form).h)
    ensures var n := PagesFor(size);
            Refines(NewArena(m, PageAddr(ApplyOutcome(w.h.vm, n).base), n, DescWord(d, NullDesc), n), d, GrabWorld(w, size, form))
  {
    var n := PagesFor(size);
    var b := ApplyOutcome(w.h.vm, n).base;
    GrabEffect(w, size, form);
    GrabDeltaRefines(m, NewArena(m, PageAddr(b), n, DescWord(d, NullDesc), n), d, w, GrabWorld(w, size, form), b, n);
  }

  lemma GrabDeltaRefines(m: Memory, m': Memory, d: nat, w: World, w': World, b: nat, n: nat)
    requires Shape(w.h) && Shape(w'.h) && Refines(m, d, w) && InvFree(w) && n >= 1
    requires forall q :: b <= q < b + n ==> q !in w.owner
    requires m' == NewArena(m, PageAddr(b), n, DescWord(d, NullDesc), n)
    requires w'.owner == GrabOwner(w.owner, b, n) && w'.h.headers == w.h.headers[b := Header(NullDesc, n)]
    requires w'.h.free == w.h.free
    ensures Refines(m', d, w')
  {
    NewArenaSpares(m, PageAddr(b), n, DescWord(d, NullDesc), n);
    NodesOffPages(d, w, b, n);
    forall c | 0 <= c < SIZES
      ensures RingAt(m', ListNodes(d, w'.h, c))
    {
      var s := ListNodes(d, w.h, c);
      assert RingAt(m, s) && forall i :: 0 <= i < |s| ==> s[i] in s;
      RingStays(m, m', s);
    }
    forall q | q in w'.owner && IsArena(w', q)
      ensures HeaderIn(m', d, w'.h, q)
    {
      if q != b {
        assert HeaderIn(m, d, w.h, q);
        PagesApart(b, n, q);
        assert Same(m, m', PageAddr(q));
      }
    }
  }

  /** Freeing whole pages, or any page, writes no memory. */
  lemma ReleaseRefines(m: Memory, d: nat, w: World, ptr: nat, form: Form)
    requires Inv(w, form) && Refines(m, d, w) && ptr in w.live && PageOf(ptr) in w.owner && w.owner[PageOf(ptr)].Head?
    ensures Freeable(w.h, ptr) && HeaderAt(w.h, PageOf(ptr)).desc.NullDesc?
    ensures Shape(ReleaseWorld(w, ptr, form).h) && Refines(m, d, ReleaseWorld(w, ptr, form))
  {
    ReleaseEffect(w, ptr, form);
    var w' := ReleaseWorld(w, ptr, form);
    forall q | q in w'.owner && IsArena(w', q)
      ensures HeaderIn(m, d, w'.h, q)
    {
      assert HeaderIn(m, d, w.h, q);
    }
    forall c | 0 <= c < SIZES
      ensures RingAt(m, ListNodes(d, w'.h, c))
    {
      assert ListNodes(d, w'.h, c) == ListNodes(d, w.h, c);
    }
  }
}
