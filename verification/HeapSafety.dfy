/**
  What every run of sys_malloc and sys_free keeps. A run frees only live pointers; it may allocate
  anything. The bookkeeping (`live`, `owner`) is not part of the kernel: it names, for every used page,
  what the page is used for, and never influences what the heap does.
 */
module HeapSafety {
  import opened Machine
  import opened Bitmap
  import opened List
  import opened Heap

  datatype Owner =
    | Small(c: nat)      // an arena cut into blocks
    | Head(n: nat)       // first of the n pages of a large allocation
    | Tail(head: nat)    // a later page of the large allocation at `head`
    | Leaked             // marked used, but nobody's: only the literal setter leaves such pages

  datatype World = World(h: Heap, live: map<nat, nat>, owner: map<nat, Owner>)

  function LargePtr(p: nat): nat
  {
    PageAddr(p) + ARENA_HEADER
  }

  predicate IsBlock(owner: map<nat, Owner>, c: nat, x: nat)
    requires c < SIZES
  {
    && HEAP_BASE <= x && PageOf(x) in owner && owner[PageOf(x)] == Small(c)
    && 0 <= IndexOf(x, c) < Blocks(c) && x == Block(PageOf(x), c, IndexOf(x, c))
  }

  /** The n numbers from `from` on. */
  function Span(from: nat, n: nat): (r: set<nat>)
    ensures forall i :: i in r <==> from <= i < from + n
    ensures |r| == n
  {
    if n == 0 then {} else Span(from, n - 1) + {from + n - 1}
  }

  /** Indices of the blocks of page p that are on the free list of size c. */
  function FreeIndices(h: Heap, p: nat, c: nat): set<nat>
    requires |h.free| == SIZES && c < SIZES
  {
    set i: nat | i < Blocks(c) && Block(p, c, i) in h.free[c]
  }

  // ---------------------------------------------------------------------------
  // The invariant
  // ---------------------------------------------------------------------------

  predicate FrameUsed(form: Form, o: Owner)
  {
    form.Documented? || o.Small? || o.Head?
  }

  predicate InvPages(w: World, form: Form)
  {
    && (forall p :: p in w.owner ==> p < |w.h.vm|)
    && (forall p :: 0 <= p < |w.h.vm| ==> (w.h.vm[p] <==> p in w.owner))
    && (forall p :: 0 <= p < |w.h.phys| ==> (w.h.phys[p] <==> p in w.owner && FrameUsed(form, w.owner[p])))
    && (form.Documented? ==> forall p :: p in w.owner ==> !w.owner[p].Leaked?)
  }

  predicate LargeOk(w: World, p: nat)
    requires p in w.owner && w.owner[p].Head?
  {
    var n := w.owner[p].n;
    && n >= 1 && p + n <= |w.h.vm|
    && p in w.h.headers && w.h.headers[p] == Header(NullDesc, n)
    && LargePtr(p) in w.live && w.live[LargePtr(p)] + ARENA_HEADER <= n * PAGE_SIZE
    && forall q :: p < q < p + n ==> q in w.owner && w.owner[q] == Tail(p)
  }

  predicate InvLarge(w: World)
  {
    && (forall p :: p in w.owner && w.owner[p].Head? ==> LargeOk(w, p))
    && (forall p :: p in w.owner && w.owner[p].Tail? ==>
          var q := w.owner[p].head;
          q in w.owner && w.owner[q].Head? && q < p < q + w.owner[q].n)
  }

  ghost predicate SmallOk(w: World, p: nat)
    requires Shape(w.h) && p in w.owner && w.owner[p].Small?
  {
    var c := w.owner[p].c;
    && c < SIZES
    && p in w.h.headers && w.h.headers[p] == Header(SizeDesc(c), |FreeIndices(w.h, p, c)|)
    && forall i :: 0 <= i < Blocks(c) ==> Block(p, c, i) in w.h.free[c] || Block(p, c, i) in w.live
  }

  ghost predicate InvSmall(w: World)
    requires Shape(w.h)
  {
    forall p :: p in w.owner && w.owner[p].Small? ==> SmallOk(w, p)
  }

  predicate InvFree(w: World)
    requires Shape(w.h)
  {
    forall c :: 0 <= c < SIZES ==>
      && Distinct(w.h.free[c])
      && forall x :: x in w.h.free[c] ==> IsBlock(w.owner, c, x) && x !in w.live
  }

  predicate LiveOk(w: World, q: nat)
    requires q in w.live
  {
    && HEAP_BASE <= q && PageOf(q) in w.owner
    && match w.owner[PageOf(q)]
       case Head(_) => q == LargePtr(PageOf(q))
       case Small(c) => c < SIZES && IsBlock(w.owner, c, q) && w.live[q] <= BlockSize(c)
       case _ => false
  }

  predicate InvLive(w: World)
  {
    forall q :: q in w.live ==> LiveOk(w, q)
  }

  ghost predicate Inv(w: World, form: Form)
  {
    && Shape(w.h)
    && InvPages(w, form) && InvLarge(w) && InvSmall(w) && InvFree(w) && InvLive(w)
  }

  /** Between calls no arena is entirely free: its page would have gone back. */
  predicate NoneFull(w: World)
  {
    forall p :: p in w.owner && w.owner[p].Small? && w.owner[p].c < SIZES ==>
      p in w.h.headers && w.h.headers[p].cnt < Blocks(w.owner[p].c)
  }

  // ---------------------------------------------------------------------------
  // Taking a block, putting one back
  // ---------------------------------------------------------------------------

  function TakeWorld(w: World, c: nat, size: nat): World
    requires Shape(w.h) && c < SIZES && w.h.free[c] != []
  {
    var (h', x) := Take(w.h, c);
    World(h', w.live[x := size], w.owner)
  }

  /** What Take reads at a listed block, and how it changes the state. */
  lemma TakeEffect(w: World, c: nat, size: nat, form: Form)
    requires Inv(w, form) && c < SIZES && w.h.free[c] != []
    ensures IsBlock(w.owner, c, w.h.free[c][0]) && w.h.free[c][0] !in w.live
    ensures var x := w.h.free[c][0];
            var p := PageOf(x);
            && p in w.h.headers
            && HeaderAt(w.h, p) == Header(SizeDesc(c), |FreeIndices(w.h, p, c)|)
            && TakeWorld(w, c, size).h == w.h.(
                 free := w.h.free[c := w.h.free[c][1..]],
                 headers := w.h.headers[p := Header(SizeDesc(c), |FreeIndices(w.h, p, c)| - 1)])
  {
    var x := w.h.free[c][0];
    assert x in w.h.free[c];
    assert SmallOk(w, PageOf(x));
  }

  lemma TakeKeepsSmall(w: World, w': World, c: nat, x: nat)
    requires Shape(w.h) && Shape(w'.h) && InvSmall(w) && c < SIZES && w'.owner == w.owner && x in w'.live
    requires (forall y :: y in w.live ==> y in w'.live) && w.h.free[c] != [] && x == w.h.free[c][0] && Distinct(w.h.free[c])
    requires IsBlock(w.owner, c, x) && w'.h.free == w.h.free[c := w.h.free[c][1..]]
    requires var p := PageOf(x);
             w'.h.headers == w.h.headers[p := Header(SizeDesc(c), |FreeIndices(w.h, p, c)| - 1)]
    ensures InvSmall(w')
  {
    assert w.h.free[c] == [x] + w.h.free[c][1..];
    assert forall y :: y in w'.h.free[c] <==> y in w.h.free[c] && y != x;
    forall q | q in w'.owner && w'.owner[q].Small?
      ensures SmallOk(w', q)
    {
      assert SmallOk(w, q);
      TakeCounts(w, w', c, x, q);
    }
  }

  lemma TakeKeepsFree(w: World, w': World, c: nat, x: nat)
    requires Shape(w.h) && Shape(w'.h) && InvFree(w) && c < SIZES && w'.owner == w.owner
    requires w.h.free[c] != [] && x == w.h.free[c][0] && w'.h.free == w.h.free[c := w.h.free[c][1..]]
    requires forall y :: y in w'.live ==> y in w.live || y == x
    ensures InvFree(w')
  {
    assert w.h.free[c] == [x] + w.h.free[c][1..];
    forall d | 0 <= d < SIZES
      ensures Distinct(w'.h.free[d])
      ensures forall y :: y in w'.h.free[d] ==> IsBlock(w'.owner, d, y) && y !in w'.live
    {
      assert Distinct(w.h.free[d]);
      forall y | y in w'.h.free[d] ensures y != x {
        assert IsBlock(w.owner, d, y) && (d == c || IsBlock(w.owner, c, x));
      }
    }
  }

  lemma TakeKeeps(w: World, c: nat, size: nat, form: Form)
    requires Inv(w, form) && c < SIZES && w.h.free[c] != [] && size <= BlockSize(c)
    ensures var w' := TakeWorld(w, c, size);
            Inv(w', form) && w.h.free[c][0] !in w.live
    ensures var x := w.h.free[c][0];
            HeaderAt(TakeWorld(w, c, size).h, PageOf(x)).cnt == HeaderAt(w.h, PageOf(x)).cnt - 1
  {
    TakeEffect(w, c, size, form);
    TakeDelta(w, TakeWorld(w, c, size), c, w.h.free[c][0], size, form);
  }

  lemma TakeDelta(w: World, w': World, c: nat, x: nat, size: nat, form: Form)
    requires Inv(w, form) && Shape(w'.h) && c < SIZES && w.h.free[c] != [] && size <= BlockSize(c)
    requires x == w.h.free[c][0] && IsBlock(w.owner, c, x) && w'.owner == w.owner && w'.live == w.live[x := size]
    requires w'.h == w.h.(free := w.h.free[c := w.h.free[c][1..]], headers := w'.h.headers)
    requires var p := PageOf(x);
             w'.h.headers == w.h.headers[p := Header(SizeDesc(c), |FreeIndices(w.h, p, c)| - 1)]
    ensures Inv(w', form)
  {
    assert Distinct(w.h.free[c]);
    SamePages(w, w', form);
    TakeKeepsSmall(w, w', c, x);
    TakeKeepsFree(w, w', c, x);
    BlockMoveKeepsLarge(w, w', x);
    TakeKeepsLive(w, w', c, x, size);
  }

  lemma SamePages(w: World, w': World, form: Form)
    requires InvPages(w, form) && w'.h.vm == w.h.vm && w'.h.phys == w.h.phys && w'.owner == w.owner
    ensures InvPages(w', form)
  {
  }

  lemma TakeKeepsLive(w: World, w': World, c: nat, x: nat, size: nat)
    requires InvLive(w) && c < SIZES && IsBlock(w.owner, c, x) && size <= BlockSize(c)
    requires w'.owner == w.owner && w'.live == w.live[x := size]
    ensures InvLive(w')
  {
    forall q | q in w'.live
      ensures LiveOk(w', q)
    {
      if q != x { assert LiveOk(w, q); }
    }
  }

  /** What happens to block x and to the header of its page concerns no large allocation. */
  lemma BlockMoveKeepsLarge(w: World, w': World, x: nat)
    requires InvLarge(w) && w'.owner == w.owner && |w'.h.vm| == |w.h.vm| && HEAP_BASE <= x
    requires PageOf(x) in w.owner && w.owner[PageOf(x)].Small?
    requires forall p :: p != PageOf(x) && p in w.h.headers ==> p in w'.h.headers && w'.h.headers[p] == w.h.headers[p]
    requires forall y :: y in w.live && y != x ==> y in w'.live && w'.live[y] == w.live[y]
    ensures InvLarge(w')
  {
    forall q | q in w'.owner && w'.owner[q].Head?
      ensures LargeOk(w', q)
    {
      assert LargeOk(w, q);
      assert PageOf(LargePtr(q)) == q;
    }
  }

  /** Losing block x from list c lowers the count of its own page only. */
  lemma TakeCounts(w: World, w': World, c: nat, x: nat, q: nat)
    requires Shape(w.h) && Shape(w'.h) && c < SIZES && w'.owner == w.owner
    requires q in w.owner && w.owner[q].Small? && w.owner[q].c < SIZES
    requires IsBlock(w.owner, c, x) && x in w.h.free[c]
    requires forall y :: y in w'.h.free[c] <==> y in w.h.free[c] && y != x
    requires forall d :: 0 <= d < SIZES && d != c ==> w'.h.free[d] == w.h.free[d]
    ensures var d := w.owner[q].c;
            |FreeIndices(w'.h, q, d)| == |FreeIndices(w.h, q, d)| - (if q == PageOf(x) then 1 else 0)
  {
    var d := w.owner[q].c;
    var before, after := FreeIndices(w.h, q, d), FreeIndices(w'.h, q, d);
    if d == c {
      forall j: nat | j < Blocks(c)
        ensures Block(q, c, j) == x <==> q == PageOf(x) && j == IndexOf(x, c)
      {
        BlockRoundTrip(q, c, j);
      }
      if q == PageOf(x) {
        assert after == before - {IndexOf(x, c)};
        assert IndexOf(x, c) in before;
      } else {
        assert after == before;
      }
    } else {
      assert after == before;
    }
  }

  function PutWorld(w: World, ptr: nat): World
    requires Shape(w.h) && Freeable(w.h, ptr) && HeaderAt(w.h, PageOf(ptr)).desc.SizeDesc?
  {
    World(Put(w.h, ptr), w.live - {ptr}, w.owner)
  }

  /** What Put reads at a live block, and how it changes the state. */
  lemma PutEffect(w: World, ptr: nat, form: Form)
    requires Inv(w, form) && ptr in w.live && w.owner[PageOf(ptr)].Small?
    ensures Freeable(w.h, ptr)
    ensures var p := PageOf(ptr);
            var c := w.owner[p].c;
            && c < SIZES && IsBlock(w.owner, c, ptr) && ptr !in w.h.free[c] && p in w.h.headers
            && HeaderAt(w.h, p) == Header(SizeDesc(c), |FreeIndices(w.h, p, c)|)
            && PutWorld(w, ptr).h == w.h.(
                 free := w.h.free[c := w.h.free[c] + [ptr]],
                 headers := w.h.headers[p := Header(SizeDesc(c), |FreeIndices(w.h, p, c)| + 1)])
  {
    LiveBlock(w, ptr);
  }

  lemma LiveBlock(w: World, ptr: nat)
    requires Shape(w.h) && InvSmall(w) && InvFree(w) && InvLive(w)
    requires ptr in w.live && PageOf(ptr) in w.owner && w.owner[PageOf(ptr)].Small?
    ensures HEAP_BASE <= ptr
    ensures var p := PageOf(ptr);
            var c := w.owner[p].c;
            && c < SIZES && IsBlock(w.owner, c, ptr) && ptr !in w.h.free[c]
            && HeaderAt(w.h, p) == Header(SizeDesc(c), |FreeIndices(w.h, p, c)|) && p in w.h.headers
  {
    assert LiveOk(w, ptr);
    assert SmallOk(w, PageOf(ptr));
  }

  lemma PutKeepsArena(w: World, w': World, c: nat, ptr: nat, q: nat)
    requires Shape(w.h) && Shape(w'.h) && c < SIZES && w'.owner == w.owner && w'.live == w.live - {ptr}
    requires IsBlock(w.owner, c, ptr) && ptr !in w.h.free[c]
    requires w'.h.free == w.h.free[c := w.h.free[c] + [ptr]]
    requires var p := PageOf(ptr);
             w'.h.headers == w.h.headers[p := Header(SizeDesc(c), |FreeIndices(w.h, p, c)| + 1)]
    requires q in w.owner && w.owner[q].Small? && SmallOk(w, q)
    ensures SmallOk(w', q)
  {
    assert forall y :: y in w'.h.free[c] <==> y in w.h.free[c] || y == ptr;
    TakeCounts(w', w, c, ptr, q);
  }

  lemma PutKeepsSmall(w: World, w': World, c: nat, ptr: nat)
    requires Shape(w.h) && Shape(w'.h) && InvSmall(w) && c < SIZES && w'.owner == w.owner && w'.live == w.live - {ptr}
    requires IsBlock(w.owner, c, ptr) && ptr !in w.h.free[c]
    requires w'.h.free == w.h.free[c := w.h.free[c] + [ptr]]
    requires var p := PageOf(ptr);
             w'.h.headers == w.h.headers[p := Header(SizeDesc(c), |FreeIndices(w.h, p, c)| + 1)]
    ensures InvSmall(w')
  {
    forall q | q in w'.owner && w'.owner[q].Small?
      ensures SmallOk(w', q)
    {
      PutKeepsArena(w, w', c, ptr, q);
    }
  }

  lemma PutKeepsFree(w: World, w': World, c: nat, ptr: nat)
    requires Shape(w.h) && Shape(w'.h) && InvFree(w) && c < SIZES && w'.owner == w.owner && w'.live == w.live - {ptr}
    requires IsBlock(w.owner, c, ptr) && ptr in w.live && ptr !in w.h.free[c]
    requires w'.h.free == w.h.free[c := w.h.free[c] + [ptr]]
    ensures InvFree(w')
  {
    forall d | 0 <= d < SIZES
      ensures Distinct(w'.h.free[d])
      ensures forall x :: x in w'.h.free[d] ==> IsBlock(w'.owner, d, x) && x !in w'.live
    {
      assert Distinct(w.h.free[d]);
    }
  }

  lemma PutKeepsLive(w: World, w': World, ptr: nat)
    requires InvLive(w) && w'.owner == w.owner && w'.live == w.live - {ptr}
    ensures InvLive(w')
  {
    forall q | q in w'.live
      ensures LiveOk(w', q)
    {
      assert LiveOk(w, q);
    }
  }

  lemma PutKeeps(w: World, ptr: nat, form: Form)
    requires Inv(w, form) && ptr in w.live && w.owner[PageOf(ptr)].Small?
    ensures Freeable(w.h, ptr)
    ensures HeaderAt(w.h, PageOf(ptr)).desc == SizeDesc(w.owner[PageOf(ptr)].c)
    ensures Inv(PutWorld(w, ptr), form)
  {
    PutEffect(w, ptr, form);
    PutDelta(w, PutWorld(w, ptr), w.owner[PageOf(ptr)].c, ptr, form);
  }

  lemma PutDelta(w: World, w': World, c: nat, ptr: nat, form: Form)
    requires Inv(w, form) && Shape(w'.h) && c < SIZES && w'.owner == w.owner && w'.live == w.live - {ptr}
    requires IsBlock(w.owner, c, ptr) && ptr in w.live && ptr !in w.h.free[c]
    requires w'.h == w.h.(free := w.h.free[c := w.h.free[c] + [ptr]], headers := w'.h.headers)
    requires var p := PageOf(ptr);
             w'.h.headers == w.h.headers[p := Header(SizeDesc(c), |FreeIndices(w.h, p, c)| + 1)]
    ensures Inv(w', form)
  {
    SamePages(w, w', form);
    PutKeepsSmall(w, w', c, ptr);
    PutKeepsFree(w, w', c, ptr);
    PutKeepsLive(w, w', ptr);
    BlockMoveKeepsLarge(w, w', ptr);
  }

  // ---------------------------------------------------------------------------
  // New pages
  // ---------------------------------------------------------------------------

  lemma LivePagesOwned(w: World)
    requires InvLive(w)
    ensures forall q :: q in w.live ==> HEAP_BASE <= q && PageOf(q) in w.owner
  {
    forall q | q in w.live
      ensures HEAP_BASE <= q && PageOf(q) in w.owner
    {
      assert LiveOk(w, q);
    }
  }

  /** A page run that the scan found is nobody's. */
  lemma FoundRunIsUnowned(w: World, n: nat, form: Form)
    requires Inv(w, form) && n < TWO_32 && ApplyOutcome(w.h.vm, n).Found?
    ensures var b := ApplyOutcome(w.h.vm, n).base;
            b + Wanted(n) < |w.h.vm| && forall q :: b <= q < b + n ==> q !in w.owner && !w.h.vm[q] && !w.h.phys[q]
  {
  }

  function RefillWorld(w: World, c: nat, form: Form): World
    requires Shape(w.h) && c < SIZES && ApplyOutcome(w.h.vm, 1).Found?
  {
    World(Refill(w.h, c, form).0, w.live, w.owner[ApplyOutcome(w.h.vm, 1).base := Small(c)])
  }

  /** How a refill changes the state: one page, one header, one longer free list. */
  lemma RefillEffect(w: World, c: nat, form: Form)
    requires Inv(w, form) && c < SIZES && ApplyOutcome(w.h.vm, 1).Found?
    ensures var b := ApplyOutcome(w.h.vm, 1).base;
            && b + 1 < |w.h.vm| && b !in w.owner
            && RefillWorld(w, c, form).h == w.h.(
                 vm := w.h.vm[b := true], phys := w.h.phys[b := true],
                 headers := w.h.headers[b := Header(SizeDesc(c), Blocks(c))],
                 free := w.h.free[c := w.h.free[c] + FirstBlocks(b, c, Blocks(c))])
  {
    FoundRunIsUnowned(w, 1, form);
    var b := ApplyOutcome(w.h.vm, 1).base;
    assert PageOf(PageAddr(b)) == b;
    assert SetRange(w.h.vm, b, 1, true) == w.h.vm[b := true];
    assert SetRange(w.h.phys, b, 1, true) == w.h.phys[b := true];
  }

  /** The blocks of a page that is nobody's are on no list: the assertion at line 612 cannot fail. */
  lemma NewBlocksAreUnlisted(w: World, c: nat, form: Form)
    requires Inv(w, form) && c < SIZES && ApplyOutcome(w.h.vm, 1).Found?
    ensures forall i: nat :: i < Blocks(c) ==> Block(ApplyOutcome(w.h.vm, 1).base, c, i) !in w.h.free[c]
  {
    FoundRunIsUnowned(w, 1, form);
    var b := ApplyOutcome(w.h.vm, 1).base;
    forall i: nat | i < Blocks(c)
      ensures Block(b, c, i) !in w.h.free[c]
    {
      BlockRoundTrip(b, c, i);
      assert !IsBlock(w.owner, c, Block(b, c, i));
    }
  }

  lemma RefillKeeps(w: World, c: nat, form: Form)
    requires Inv(w, form) && c < SIZES && ApplyOutcome(w.h.vm, 1).Found?
    ensures forall i: nat :: i < Blocks(c) ==> Block(ApplyOutcome(w.h.vm, 1).base, c, i) !in w.h.free[c]
    ensures Inv(RefillWorld(w, c, form), form)
  {
    RefillEffect(w, c, form);
    NewBlocksAreUnlisted(w, c, form);
    RefillKeepsSmall(w, c, form);
    RefillKeepsFree(w, c, form);
    var b := ApplyOutcome(w.h.vm, 1).base;
    var w' := RefillWorld(w, c, form);
    RefillKeepsPages(w, w', b, c, form);
    RefillKeepsLarge(w, w', b, c);
    RefillKeepsLive(w, w', b, c);
  }

  lemma RefillKeepsPages(w: World, w': World, b: nat, c: nat, form: Form)
    requires InvPages(w, form) && b < |w.h.vm| == |w.h.phys| && b !in w.owner
    requires w'.h.vm == w.h.vm[b := true] && w'.h.phys == w.h.phys[b := true] && w'.owner == w.owner[b := Small(c)]
    ensures InvPages(w', form)
  {
  }

  lemma RefillKeepsLarge(w: World, w': World, b: nat, c: nat)
    requires InvLarge(w) && b !in w.owner && |w'.h.vm| == |w.h.vm|
    requires (forall q :: q in w.h.headers && q != b ==> q in w'.h.headers && w'.h.headers[q] == w.h.headers[q])
    requires w'.live == w.live && w'.owner == w.owner[b := Small(c)]
    ensures InvLarge(w')
  {
    forall q | q in w'.owner && w'.owner[q].Head?
      ensures LargeOk(w', q)
    {
      assert LargeOk(w, q);
    }
  }

  lemma RefillKeepsLive(w: World, w': World, b: nat, c: nat)
    requires InvLive(w) && b !in w.owner && w'.live == w.live && w'.owner == w.owner[b := Small(c)]
    ensures InvLive(w')
  {
    forall q | q in w'.live
      ensures LiveOk(w', q)
    {
      assert LiveOk(w, q);
    }
  }

  lemma RefillKeepsFree(w: World, c: nat, form: Form)
    requires Inv(w, form) && c < SIZES && ApplyOutcome(w.h.vm, 1).Found?
    ensures InvFree(RefillWorld(w, c, form))
  {
    RefillEffect(w, c, form);
    var b := ApplyOutcome(w.h.vm, 1).base;
    var w' := RefillWorld(w, c, form);
    assert PageOf(PageAddr(b)) == b;
    LivePagesOwned(w);
    var new_ := FirstBlocks(b, c, Blocks(c));
    forall i: nat | i < Blocks(c)
      ensures IsBlock(w'.owner, c, new_[i]) && PageOf(new_[i]) == b && new_[i] !in w.h.free[c] && new_[i] !in w.live
      ensures IndexOf(new_[i], c) == i
    {
      BlockRoundTrip(b, c, i);
    }
    forall d | 0 <= d < SIZES
      ensures Distinct(w'.h.free[d])
      ensures forall x :: x in w'.h.free[d] ==> IsBlock(w'.owner, d, x) && x !in w'.live
    {
      assert Distinct(w.h.free[d]);
    }
  }

  lemma RefillKeepsSmall(w: World, c: nat, form: Form)
    requires Inv(w, form) && c < SIZES && ApplyOutcome(w.h.vm, 1).Found?
    ensures InvSmall(RefillWorld(w, c, form))
  {
    RefillEffect(w, c, form);
    var b := ApplyOutcome(w.h.vm, 1).base;
    var w' := RefillWorld(w, c, form);
    assert PageOf(PageAddr(b)) == b;
    var new_ := FirstBlocks(b, c, Blocks(c));
    assert w'.h.free[c] == w.h.free[c] + new_;
    assert forall i: nat :: i < Blocks(c) ==> new_[i] in new_;
    forall q | q in w'.owner && w'.owner[q].Small?
      ensures SmallOk(w', q)
    {
      if q == b {
        assert FreeIndices(w'.h, b, c) == Span(0, Blocks(c));
      } else {
        assert SmallOk(w, q);
        var d := w.owner[q].c;
        forall i: nat | i < Blocks(d)
          ensures Block(q, d, i) !in new_
        {
          BlockRoundTrip(q, d, i);
          forall j: nat | j < Blocks(c) ensures new_[j] != Block(q, d, i) { BlockRoundTrip(b, c, j); }
        }
        assert FreeIndices(w'.h, q, d) == FreeIndices(w.h, q, d);
      }
    }
  }

  /** All indices are free as soon as as many are free as there are. */
  lemma FullMeansAllFree(h: Heap, p: nat, c: nat)
    requires |h.free| == SIZES && c < SIZES && |FreeIndices(h, p, c)| == Blocks(c)
    ensures forall i: nat :: i < Blocks(c) ==> Block(p, c, i) in h.free[c]
  {
    SubsetOfSameSize(FreeIndices(h, p, c), Span(0, Blocks(c)));
    forall i: nat | i < Blocks(c)
      ensures Block(p, c, i) in h.free[c]
    {
      assert i in Span(0, Blocks(c));
    }
  }

  lemma SubsetOfSameSize(a: set<nat>, b: set<nat>)
    requires a <= b && |a| == |b|
    ensures a == b
  {
    assert |b - a| == |b| - |a|;
  }

  function GrabOwner(owner: map<nat, Owner>, b: nat, n: nat): (r: map<nat, Owner>)
    ensures forall q :: q in r <==> q in owner || b <= q < b + n
    ensures forall q :: b <= q < b + n ==> r[q] == if q == b then Head(n) else Tail(b)
    ensures forall q :: q in owner && !(b <= q < b + n) ==> r[q] == owner[q]
  {
    owner + map q | q in Span(b, n) :: if q == b then Head(n) else Tail(b)
  }

  function GrabWorld(w: World, size: nat, form: Form): World
    requires Shape(w.h) && ApplyOutcome(w.h.vm, PagesFor(size)).Found?
  {
    var n := PagesFor(size);
    var b := ApplyOutcome(w.h.vm, n).base;
    World(AllocPages(w.h, n, form).0.(headers := w.h.headers[b := Header(NullDesc, n)]),
          w.live[LargePtr(b) := size],
          GrabOwner(w.owner, b, n))
  }

  /** How a large allocation changes the state. */
  lemma GrabEffect(w: World, size: nat, form: Form)
    requires Inv(w, form) && 1024 < size <= w.h.poolSize && ApplyOutcome(w.h.vm, PagesFor(size)).Found?
    ensures var n := PagesFor(size);
            var b := ApplyOutcome(w.h.vm, n).base;
            && n >= 1 && b + n < |w.h.vm|
            && (forall q :: b <= q < b + n ==> q !in w.owner && !w.h.vm[q] && !w.h.phys[q])
            && GrabWorld(w, size, form).h == w.h.(
                 vm := SetRange(w.h.vm, b, n, true), phys := SetBitsAs(form, w.h.phys, b, n, true),
                 headers := w.h.headers[b := Header(NullDesc, n)])
            && PageOf(LargePtr(b)) == b && LargePtr(b) !in w.live
  {
    FoundRunIsUnowned(w, PagesFor(size), form);
    LivePagesOwned(w);
  }

  lemma GrabKeeps(w: World, size: nat, form: Form)
    requires Inv(w, form) && 1024 < size <= w.h.poolSize && ApplyOutcome(w.h.vm, PagesFor(size)).Found?
    ensures Inv(GrabWorld(w, size, form), form)
    ensures LargePtr(ApplyOutcome(w.h.vm, PagesFor(size)).base) !in w.live
  {
    GrabEffect(w, size, form);
    var n := PagesFor(size);
    var b := ApplyOutcome(w.h.vm, n).base;
    var w' := GrabWorld(w, size, form);
    GrabKeepsPages(w, w', b, n, form);
    GrabKeepsLarge(w, w', b, n, size);
    GrabKeepsLive(w, w', b, n, size);
    GrabKeepsSmall(w, w', b, n, size);
  }

  lemma GrabKeepsPages(w: World, w': World, b: nat, n: nat, form: Form)
    requires InvPages(w, form) && n >= 1 && b + n <= |w.h.vm| == |w.h.phys|
    requires forall q :: b <= q < b + n ==> q !in w.owner && !w.h.vm[q] && !w.h.phys[q]
    requires w'.h.vm == SetRange(w.h.vm, b, n, true) && w'.h.phys == SetBitsAs(form, w.h.phys, b, n, true)
    requires w'.owner == GrabOwner(w.owner, b, n)
    ensures InvPages(w', form)
  {
    forall q | 0 <= q < |w'.h.vm|
      ensures w'.h.vm[q] <==> q in w'.owner
      ensures w'.h.phys[q] <==> q in w'.owner && FrameUsed(form, w'.owner[q])
    {
      assert w'.h.phys[q] == if form.Documented? && b <= q < b + n then true else if q == b then true else w.h.phys[q];
    }
  }

  lemma GrabKeepsLarge(w: World, w': World, b: nat, n: nat, size: nat)
    requires InvLarge(w) && n >= 1 && b + n <= |w.h.vm| && |w'.h.vm| == |w.h.vm|
    requires size + ARENA_HEADER <= n * PAGE_SIZE
    requires forall q :: b <= q < b + n ==> q !in w.owner
    requires w'.h.headers == w.h.headers[b := Header(NullDesc, n)]
    requires w'.live == w.live[LargePtr(b) := size]
    requires w'.owner == GrabOwner(w.owner, b, n)
    ensures InvLarge(w')
  {
    forall q | q in w'.owner && w'.owner[q].Head?
      ensures LargeOk(w', q)
    {
      if q != b {
        assert LargeOk(w, q);
        assert PageOf(LargePtr(q)) == q;
      }
    }
  }

  lemma GrabKeepsLive(w: World, w': World, b: nat, n: nat, size: nat)
    requires InvLive(w) && n >= 1 && forall q :: b <= q < b + n ==> q !in w.owner
    requires w'.live == w.live[LargePtr(b) := size] && w'.owner == GrabOwner(w.owner, b, n)
    ensures InvLive(w')
  {
    assert PageOf(LargePtr(b)) == b;
    forall q | q in w'.live
      ensures LiveOk(w', q)
    {
      if q != LargePtr(b) { assert LiveOk(w, q); }
    }
  }

  lemma GrabKeepsSmall(w: World, w': World, b: nat, n: nat, size: nat)
    requires Shape(w.h) && Shape(w'.h) && InvSmall(w) && InvFree(w) && w'.h.free == w.h.free
    requires forall q :: b <= q < b + n ==> q !in w.owner
    requires w'.h.headers == w.h.headers[b := Header(NullDesc, n)] && n >= 1
    requires w'.live == w.live[LargePtr(b) := size] && PageOf(LargePtr(b)) == b
    requires w'.owner == GrabOwner(w.owner, b, n)
    ensures InvSmall(w') && InvFree(w')
  {
    forall q | q in w'.owner && w'.owner[q].Small?
      ensures SmallOk(w', q)
    {
      assert SmallOk(w, q);
      assert FreeIndices(w'.h, q, w.owner[q].c) == FreeIndices(w.h, q, w.owner[q].c);
    }
    forall c, x | 0 <= c < SIZES && x in w'.h.free[c]
      ensures IsBlock(w'.owner, c, x) && x !in w'.live
    {
      assert IsBlock(w.owner, c, x);
    }
  }

  // ---------------------------------------------------------------------------
  // Pages that go back
  // ---------------------------------------------------------------------------

  /** phy_free clears exactly the frames of the run, also when the address is not page aligned. */
  lemma {:induction false} PhysFreeClears(h: Heap, v: nat, n: nat)
    requires Shape(h) && HEAP_BASE <= v && PageOf(v) + n <= |h.vm|
    ensures PhysFree(h, v, n) == SetRange(h.phys, PageOf(v), n, false)
    decreases n
  {
    if n > 0 {
      PhysFreeClears(h, v, n - 1);
      var pa := v - PAGE_OFFSET + (n - 1) * PAGE_SIZE;
      assert (pa - (HEAP_BASE - PAGE_OFFSET)) / PAGE_SIZE == PageOf(v) + n - 1;
      assert pa < h.userStart;
    }
  }

  function DrainWorld(w: World, ptr: nat, c: nat, form: Form): World
    requires Shape(w.h) && HEAP_BASE <= ptr && PageOf(ptr) < |w.h.vm| && c < SIZES
  {
    World(Drain(w.h, ptr, c, form), w.live, w.owner - {PageOf(ptr)})
  }

  lemma DrainEffect(w: World, ptr: nat, c: nat, form: Form)
    requires Shape(w.h) && HEAP_BASE <= ptr && PageOf(ptr) < |w.h.vm| && c < SIZES
    ensures var p := PageOf(ptr);
            DrainWorld(w, ptr, c, form).h == w.h.(
              vm := w.h.vm[p := false], phys := w.h.phys[p := false],
              free := w.h.free[c := Unlinked(w.h.free[c], p, c, Blocks(c))])
  {
    var p := PageOf(ptr);
    PhysFreeClears(w.h.(free := w.h.free[c := Unlinked(w.h.free[c], p, c, Blocks(c))]), ptr, 1);
    assert SetRange(w.h.vm, p, 1, false) == w.h.vm[p := false];
    assert SetRange(w.h.phys, p, 1, false) == w.h.phys[p := false];
  }

  lemma DrainKeeps(w: World, ptr: nat, c: nat, form: Form)
    requires Inv(w, form) && HEAP_BASE <= ptr && PageOf(ptr) in w.owner && w.owner[PageOf(ptr)] == Small(c)
    requires c < SIZES && HeaderAt(w.h, PageOf(ptr)).cnt == Blocks(c)
    ensures Inv(DrainWorld(w, ptr, c, form), form)
    ensures forall x :: x in DrainWorld(w, ptr, c, form).h.free[c] ==> HEAP_BASE <= x && PageOf(x) != PageOf(ptr)
  {
    DrainEffect(w, ptr, c, form);
    DrainKeepsFree(w, ptr, c, form);
    DrainKeepsSmall(w, ptr, c, form);
    assert SmallOk(w, PageOf(ptr));
    FullMeansAllFree(w.h, PageOf(ptr), c);
    var w', p := DrainWorld(w, ptr, c, form), PageOf(ptr);
    DrainKeepsPages(w, w', p, c, form);
    DrainKeepsLarge(w, w', p, c);
    DrainKeepsLive(w, w', p, c);
    forall x | x in DrainWorld(w, ptr, c, form).h.free[c]
      ensures HEAP_BASE <= x && PageOf(x) != PageOf(ptr)
    {
      assert IsBlock(w.owner, c, x);
    }
  }

  lemma DrainKeepsSmall(w: World, ptr: nat, c: nat, form: Form)
    requires Inv(w, form) && HEAP_BASE <= ptr && PageOf(ptr) in w.owner && w.owner[PageOf(ptr)] == Small(c) && c < SIZES
    ensures InvSmall(DrainWorld(w, ptr, c, form))
  {
    var w' := DrainWorld(w, ptr, c, form);
    DrainEffect(w, ptr, c, form);
    forall q | q in w'.owner && w'.owner[q].Small?
      ensures SmallOk(w', q)
    {
      assert SmallOk(w, q);
      DrainKeepsOthers(w, ptr, c, form, q);
    }
  }

  lemma DrainKeepsPages(w: World, w': World, p: nat, c: nat, form: Form)
    requires InvPages(w, form) && p < |w.h.vm| == |w.h.phys|
    requires w'.h.vm == w.h.vm[p := false] && w'.h.phys == w.h.phys[p := false] && w'.owner == w.owner - {p}
    ensures InvPages(w', form)
  {
  }

  lemma DrainKeepsLarge(w: World, w': World, p: nat, c: nat)
    requires InvLarge(w) && p in w.owner && w.owner[p] == Small(c) && |w'.h.vm| == |w.h.vm|
    requires w'.h.headers == w.h.headers && w'.live == w.live && w'.owner == w.owner - {p}
    ensures InvLarge(w')
  {
    forall q | q in w'.owner && w'.owner[q].Head?
      ensures LargeOk(w', q)
    {
      assert LargeOk(w, q);
    }
  }

  lemma DrainKeepsLive(w: World, w': World, p: nat, c: nat)
    requires Shape(w.h) && InvFree(w) && InvLive(w) && p in w.owner && w.owner[p] == Small(c) && c < SIZES
    requires forall i: nat :: i < Blocks(c) ==> Block(p, c, i) in w.h.free[c]
    requires w'.live == w.live && w'.owner == w.owner - {p}
    ensures InvLive(w')
  {
    forall q | q in w'.live
      ensures LiveOk(w', q)
    {
      assert LiveOk(w, q);
    }
  }

  /** Unlinking every block of page p leaves the blocks of the other pages where they were. */
  lemma DrainKeepsFree(w: World, ptr: nat, c: nat, form: Form)
    requires Inv(w, form) && HEAP_BASE <= ptr && PageOf(ptr) in w.owner && w.owner[PageOf(ptr)] == Small(c) && c < SIZES
    ensures InvFree(DrainWorld(w, ptr, c, form))
    ensures forall x :: x in DrainWorld(w, ptr, c, form).h.free[c] <==> x in w.h.free[c] && PageOf(x) != PageOf(ptr)
  {
    var p := PageOf(ptr);
    var w' := DrainWorld(w, ptr, c, form);
    assert Distinct(w.h.free[c]);
    forall x
      ensures x in w'.h.free[c] <==> x in w.h.free[c] && PageOf(x) != p
    {
      if x in w.h.free[c] {
        assert IsBlock(w.owner, c, x);
        if PageOf(x) == p {
          assert x == Block(p, c, IndexOf(x, c));
        } else if exists i :: 0 <= i < Blocks(c) && x == Block(p, c, i) {
          var i :| 0 <= i < Blocks(c) && x == Block(p, c, i);
          BlockRoundTrip(p, c, i);
        }
      }
    }
    forall d | 0 <= d < SIZES
      ensures Distinct(w'.h.free[d])
      ensures forall x :: x in w'.h.free[d] ==> IsBlock(w'.owner, d, x) && x !in w'.live
    {
      forall x | x in w'.h.free[d]
        ensures IsBlock(w'.owner, d, x) && x !in w'.live
      {
        assert x in w.h.free[d] && IsBlock(w.owner, d, x);
      }
    }
  }

  lemma DrainKeepsOthers(w: World, ptr: nat, c: nat, form: Form, q: nat)
    requires Inv(w, form) && HEAP_BASE <= ptr && PageOf(ptr) in w.owner && w.owner[PageOf(ptr)] == Small(c) && c < SIZES
    requires q in w.owner && w.owner[q].Small? && w.owner[q].c < SIZES && q != PageOf(ptr)
    ensures var d := w.owner[q].c;
            forall i: nat :: i < Blocks(d) ==>
              (Block(q, d, i) in DrainWorld(w, ptr, c, form).h.free[d] <==> Block(q, d, i) in w.h.free[d])
    ensures FreeIndices(DrainWorld(w, ptr, c, form).h, q, w.owner[q].c) == FreeIndices(w.h, q, w.owner[q].c)
  {
    DrainKeepsFree(w, ptr, c, form);
    var d := w.owner[q].c;
    forall i: nat | i < Blocks(d)
      ensures Block(q, d, i) in DrainWorld(w, ptr, c, form).h.free[d] <==> Block(q, d, i) in w.h.free[d]
    {
      BlockRoundTrip(q, d, i);
    }
  }

  /** The pages a large free returns: all of them, or only the first when the setter is the literal one. */
  function ReleaseOwner(owner: map<nat, Owner>, p: nat, n: nat, form: Form): (r: map<nat, Owner>)
    ensures forall q :: q in r <==> q in owner && q != p && (form.Literal? || !(p <= q < p + n))
    ensures forall q :: q in r ==> r[q] == if p < q < p + n then Leaked else owner[q]
  {
    match form
    case Documented => owner - (Span(p, n) + {p})
    case Literal => map q | q in owner && q != p :: if p < q < p + n then Leaked else owner[q]
  }

  function ReleaseWorld(w: World, ptr: nat, form: Form): World
    requires Shape(w.h) && Freeable(w.h, ptr) && HeaderAt(w.h, PageOf(ptr)).desc.NullDesc?
  {
    var n := HeaderAt(w.h, PageOf(ptr)).cnt;
    World(FreePages(w.h, ptr, n, form), w.live - {ptr}, ReleaseOwner(w.owner, PageOf(ptr), n, form))
  }

  lemma ReleaseEffect(w: World, ptr: nat, form: Form)
    requires Inv(w, form) && ptr in w.live && w.owner[PageOf(ptr)].Head?
    ensures Freeable(w.h, ptr) && HeaderAt(w.h, PageOf(ptr)) == Header(NullDesc, w.owner[PageOf(ptr)].n)
    ensures var p := PageOf(ptr);
            var n := w.owner[p].n;
            && ptr == LargePtr(p) && LargeOk(w, p)
            && ReleaseWorld(w, ptr, form).h == w.h.(
                 vm := SetBitsAs(form, w.h.vm, p, n, false), phys := SetRange(w.h.phys, p, n, false))
  {
    assert LiveOk(w, ptr) && LargeOk(w, PageOf(ptr));
    PhysFreeClears(w.h, ptr, w.owner[PageOf(ptr)].n);
  }

  lemma ReleaseKeeps(w: World, ptr: nat, form: Form)
    requires Inv(w, form) && ptr in w.live && w.owner[PageOf(ptr)].Head?
    ensures Freeable(w.h, ptr) && HeaderAt(w.h, PageOf(ptr)) == Header(NullDesc, w.owner[PageOf(ptr)].n)
    ensures Inv(ReleaseWorld(w, ptr, form), form)
  {
    ReleaseEffect(w, ptr, form);
    var p := PageOf(ptr);
    var w' := ReleaseWorld(w, ptr, form);
    ReleaseKeepsPages(w, w', p, form);
    ReleaseKeepsLarge(w, w', p, form);
    ReleaseKeepsSmall(w, w', p, form);
  }

  lemma ReleaseKeepsLarge(w: World, w': World, p: nat, form: Form)
    requires InvLarge(w) && InvLive(w) && p in w.owner && w.owner[p].Head?
    requires |w'.h.vm| == |w.h.vm| && w'.h.headers == w.h.headers
    requires w'.live == w.live - {LargePtr(p)} && w'.owner == ReleaseOwner(w.owner, p, w.owner[p].n, form)
    ensures InvLarge(w') && InvLive(w')
  {
    assert LargeOk(w, p);
    assert PageOf(LargePtr(p)) == p;
    forall q | q in w'.owner && w'.owner[q].Head?
      ensures LargeOk(w', q)
    {
      ReleaseKeepsHead(w, w', p, form, q);
    }
    ReleaseKeepsTails(w, w', p, form);
    ReleaseKeepsLive(w, w', p, form);
  }

  lemma ReleaseKeepsLive(w: World, w': World, p: nat, form: Form)
    requires InvLive(w) && p in w.owner && w.owner[p].Head? && LargeOk(w, p)
    requires w'.live == w.live - {LargePtr(p)} && w'.owner == ReleaseOwner(w.owner, p, w.owner[p].n, form)
    ensures InvLive(w')
  {
    forall q | q in w'.live
      ensures LiveOk(w', q)
    {
      assert LiveOk(w, q);
    }
  }

  lemma ReleaseKeepsTails(w: World, w': World, p: nat, form: Form)
    requires InvLarge(w) && p in w.owner && w.owner[p].Head? && w'.owner == ReleaseOwner(w.owner, p, w.owner[p].n, form)
    ensures forall q :: q in w'.owner && w'.owner[q].Tail? ==>
              var r := w'.owner[q].head; r in w'.owner && w'.owner[r].Head? && r < q < r + w'.owner[r].n
  {
    assert LargeOk(w, p);
    forall q | q in w'.owner && w'.owner[q].Tail?
      ensures var r := w'.owner[q].head; r in w'.owner && w'.owner[r].Head? && r < q < r + w'.owner[r].n
    {
      var r := w.owner[q].head;
      assert LargeOk(w, r);
    }
  }

  lemma ReleaseKeepsHead(w: World, w': World, p: nat, form: Form, q: nat)
    requires InvLarge(w) && p in w.owner && w.owner[p].Head? && q in w'.owner && w'.owner[q].Head?
    requires |w'.h.vm| == |w.h.vm| && w'.h.headers == w.h.headers
    requires w'.live == w.live - {LargePtr(p)} && w'.owner == ReleaseOwner(w.owner, p, w.owner[p].n, form)
    ensures LargeOk(w', q)
  {
    assert LargeOk(w, p) && LargeOk(w, q);
    assert PageOf(LargePtr(q)) == q && PageOf(LargePtr(p)) == p;
    forall r | q < r < q + w.owner[q].n
      ensures r in w'.owner && w'.owner[r] == Tail(q)
    {
      assert w.owner[r] == Tail(q);
    }
  }

  lemma ReleaseKeepsSmall(w: World, w': World, p: nat, form: Form)
    requires Shape(w.h) && Shape(w'.h) && InvLarge(w) && InvSmall(w) && InvFree(w) && p in w.owner && w.owner[p].Head?
    requires w'.h.headers == w.h.headers && w'.h.free == w.h.free
    requires w'.live == w.live - {LargePtr(p)} && w'.owner == ReleaseOwner(w.owner, p, w.owner[p].n, form)
    ensures InvSmall(w') && InvFree(w')
  {
    assert PageOf(LargePtr(p)) == p;
    forall q | q in w'.owner && w'.owner[q].Small?
      ensures SmallOk(w', q)
    {
      assert SmallOk(w, q);
      var c := w.owner[q].c;
      assert FreeIndices(w'.h, q, c) == FreeIndices(w.h, q, c);
      forall i: nat | i < Blocks(c) ensures Block(q, c, i) != LargePtr(p) { BlockRoundTrip(q, c, i); }
    }
    ReleaseKeepsFree(w, w', p, form);
  }

  lemma ReleaseKeepsFree(w: World, w': World, p: nat, form: Form)
    requires Shape(w.h) && Shape(w'.h) && InvLarge(w) && InvFree(w) && p in w.owner && w.owner[p].Head?
    requires w'.h.free == w.h.free && w'.live == w.live - {LargePtr(p)}
    requires w'.owner == ReleaseOwner(w.owner, p, w.owner[p].n, form)
    ensures InvFree(w')
  {
    assert LargeOk(w, p);
    forall c | 0 <= c < SIZES
      ensures Distinct(w'.h.free[c])
      ensures forall x :: x in w'.h.free[c] ==> IsBlock(w'.owner, c, x) && x !in w'.live
    {
      forall x | x in w'.h.free[c]
        ensures IsBlock(w'.owner, c, x) && x !in w'.live
      {
        assert x in w.h.free[c] && IsBlock(w.owner, c, x);
      }
    }
  }

  lemma ReleaseKeepsPages(w: World, w': World, p: nat, form: Form)
    requires InvPages(w, form) && InvLarge(w) && p in w.owner && w.owner[p].Head? && |w.h.phys| == |w.h.vm|
    requires p + w.owner[p].n <= |w.h.vm|
    requires w'.h.vm == SetBitsAs(form, w.h.vm, p, w.owner[p].n, false)
    requires w'.h.phys == SetRange(w.h.phys, p, w.owner[p].n, false)
    requires w'.owner == ReleaseOwner(w.owner, p, w.owner[p].n, form)
    ensures InvPages(w', form)
  {
    assert LargeOk(w, p);
    var n := w.owner[p].n;
    forall q | 0 <= q < |w'.h.vm|
      ensures w'.h.vm[q] <==> q in w'.owner
      ensures w'.h.phys[q] <==> q in w'.owner && FrameUsed(form, w'.owner[q])
    {
      assert w'.h.phys[q] == if p <= q < p + n then false else w.h.phys[q];
      assert w'.h.vm[q] == if q == p || (form.Documented? && p <= q < p + n) then false else w.h.vm[q];
      if p < q < p + n { assert w.owner[q] == Tail(p); }
    }
  }
}
