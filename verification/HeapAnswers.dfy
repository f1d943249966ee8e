/**
  When sys_malloc grants a request, what it then gives and marks, and what sys_free gives back: said of the
  bitmaps, the lists and the size of the request alone.
 */
module HeapAnswers {
  import opened Machine
  import opened Bitmap
  import opened List
  import opened Heap
  import opened HeapSafety
  import opened HeapRuns
  import opened HeapConservation
  import opened HeapWords
  import opened HeapMemory
  import opened HeapCalls

  // ---------------------------------------------------------------------------
  // More than 1024 bytes
  // ---------------------------------------------------------------------------

  /** So many bytes and an arena header fit so many pages. */
  predicate Holds(n: nat, size: nat)
  {
    size + ARENA_HEADER <= n * PAGE_SIZE
  }

  predicate LeastPages(n: nat, size: nat)
  {
    Holds(n, size) && forall k: nat :: k < n ==> !Holds(k, size)
  }

  /** There is one such number, and one only. */
  lemma PagesForIsLeast(size: nat, n: nat)
    ensures LeastPages(n, size) <==> n == PagesFor(size)
  {
    var m := PagesFor(size);
    forall k: nat | k < m
      ensures !Holds(k, size)
    {
      assert k <= m - 1;
    }
    assert LeastPages(m, size) && (n < m ==> !Holds(n, size));
  }

  /** Bits of one map that the other has too, but for n bits from b on, which are now `on`. */
  predicate OnlyRun(s: seq<bool>, s': seq<bool>, b: nat, n: nat, on: bool)
  {
    |s'| == |s| && forall p :: 0 <= p < |s| ==> s'[p] == if b <= p < b + n then on else s[p]
  }

  /** How many frames, or pages on release, a bulk setter reaches. */
  function Reach(form: Form, n: nat): nat
  {
    if form.Literal? && n > 1 then 1 else n
  }

  /** No page run was found: the call says so, fails an assertion, or never returns, and has changed nothing. */
  predicate Refused(h: Heap, n: nat, r: (Heap, Reply))
  {
    r.0 == h &&
    r.1 == if LoneLastBit(h.vm) then Hangs(false) else if Wraps(h.vm, n) then Hangs(true) else Denied
  }

  /** The run of n pages at b has become one arena of its own. */
  predicate Grabbed(h: Heap, n: nat, b: nat, form: Form, r: (Heap, Reply))
  {
    var h' := r.0;
    && r.1 == Granted(PageAddr(b) + ARENA_HEADER)
    && OnlyRun(h.vm, h'.vm, b, n, true) && OnlyRun(h.phys, h'.phys, b, Reach(form, n), true)
    && h'.free == h.free && h'.headers == h.headers[b := Header(NullDesc, n)]
  }

  /** A request that is empty or larger than the pool is denied. */
  lemma DeniedOutright(h: Heap, size: nat, form: Form)
    requires Shape(h) && (size == 0 || size > h.poolSize)
    ensures Malloc(h, size, form) == (h, Denied)
  {
  }

  /**
    A request for more than 1024 bytes is granted exactly when a run of the least number of pages that hold it and a
    header is free before the last page. It then gets the least such run, and no other bit changes.
   */
  lemma LargeAnswer(h: Heap, size: nat, n: nat, form: Form)
    requires Shape(h) && 1024 < size <= h.poolSize && LeastPages(n, size)
    ensures Malloc(h, size, form).1.Granted? <==> exists b: nat :: Fits(h.vm, n, b)
    ensures forall b: nat :: LeastFit(h.vm, n, b) ==> Grabbed(h, n, b, form, Malloc(h, size, form))
    ensures !Malloc(h, size, form).1.Granted? ==> Refused(h, n, Malloc(h, size, form))
  {
    PagesForIsLeast(size, n);
    forall b: nat | LeastFit(h.vm, n, b)
      ensures Grabbed(h, n, b, form, Malloc(h, size, form))
    {
      OneLeast(h.vm, n, b);
      GrabbedAt(h, size, n, b, form);
    }
  }

  lemma OneLeast(s: seq<bool>, n: nat, b: nat)
    requires LeastFit(s, n, b)
    ensures ApplyOutcome(s, n) == Found(b)
  {
    assert Fits(s, n, b);
  }

  lemma GrabbedAt(h: Heap, size: nat, n: nat, b: nat, form: Form)
    requires Shape(h) && 1024 < size <= h.poolSize && n == PagesFor(size) && ApplyOutcome(h.vm, n) == Found(b)
    ensures Grabbed(h, n, b, form, Malloc(h, size, form))
  {
    PageSplit(b, 0);
  }

  /** What a large request gets is at least what it asked for, and less than a page more. */
  lemma LargeWastesLittle(h: Heap, size: nat, form: Form)
    requires Shape(h) && size > 1024 && Malloc(h, size, form).1.Granted?
    ensures HEAP_BASE <= Malloc(h, size, form).1.ptr
    ensures size <= Capacity(Malloc(h, size, form).0, Malloc(h, size, form).1.ptr) < size + PAGE_SIZE
  {
    var n := PagesFor(size);
    var b := ApplyOutcome(h.vm, n).base;
    GrabbedAt(h, size, n, b, form);
    PageSplit(b, ARENA_HEADER);
  }

  // ---------------------------------------------------------------------------
  // Up to 1024 bytes
  // ---------------------------------------------------------------------------

  /** The least of the seven sizes that is large enough. */
  predicate LeastClass(c: nat, size: nat)
  {
    c < SIZES && size <= BlockSize(c) && forall d :: 0 <= d < SIZES && size <= BlockSize(d) ==> BlockSize(c) <= BlockSize(d)
  }

  lemma ClassForIsLeast(size: nat, c: nat)
    requires size <= 1024
    ensures LeastClass(c, size) <==> c == ClassFor(size)
  {
  }

  /** The first block of a list is handed out; no page changes hands. */
  predicate Popped(h: Heap, c: nat, r: (Heap, Reply))
    requires c < |h.free| && h.free[c] != []
  {
    && r.1 == Granted(h.free[c][0]) && r.0.free == h.free[c := h.free[c][1..]]
    && r.0.vm == h.vm && r.0.phys == h.phys
  }

  /** Page b has become an arena of blocks of size c; the first is handed out, the others are the list, in order. */
  predicate Cut(h: Heap, c: nat, b: nat, r: (Heap, Reply))
    requires c < |h.free| == SIZES
  {
    var h' := r.0;
    && r.1 == Granted(Block(b, c, 0))
    && OnlyRun(h.vm, h'.vm, b, 1, true) && OnlyRun(h.phys, h'.phys, b, 1, true)
    && |h'.free| == SIZES && (forall d :: 0 <= d < SIZES && d != c ==> h'.free[d] == h.free[d])
    && |h'.free[c]| == Blocks(c) - 1 && (forall i :: 0 <= i < Blocks(c) - 1 ==> h'.free[c][i] == Block(b, c, i + 1))
    && h'.headers == h.headers[b := Header(SizeDesc(c), Blocks(c) - 1)]
  }

  /**
    A request for up to 1024 bytes gets the first block of the list of the least size that is large enough. Only when
    that list is empty does it take a page, the least that is free before the last one, and is granted exactly when
    there is one.
   */
  lemma SmallAnswer(h: Heap, size: nat, c: nat, form: Form)
    requires Shape(h) && 0 < size <= 1024 && size <= h.poolSize && LeastClass(c, size)
    ensures h.free[c] != [] ==> Popped(h, c, Malloc(h, size, form))
    ensures h.free[c] == [] ==>
              && (Malloc(h, size, form).1.Granted? <==> exists b: nat :: Fits(h.vm, 1, b))
              && (forall b: nat :: LeastFit(h.vm, 1, b) ==> Cut(h, c, b, Malloc(h, size, form)))
              && (!Malloc(h, size, form).1.Granted? ==> Refused(h, 1, Malloc(h, size, form)))
  {
    ClassForIsLeast(size, c);
    if h.free[c] == [] {
      forall b: nat | LeastFit(h.vm, 1, b)
        ensures Cut(h, c, b, Malloc(h, size, form))
      {
        OneLeast(h.vm, 1, b);
        CutAt(h, size, c, b, form);
      }
    }
  }

  lemma CutAt(h: Heap, size: nat, c: nat, b: nat, form: Form)
    requires Shape(h) && 0 < size <= 1024 && size <= h.poolSize && c == ClassFor(size) && h.free[c] == []
    requires ApplyOutcome(h.vm, 1) == Found(b)
    ensures Cut(h, c, b, Malloc(h, size, form))
  {
    PageSplit(b, 0);
    var first, h1 := FirstBlocks(b, c, Blocks(c)), Refill(h, c, form).0;
    RefilledAt(h, c, b, form, first);
    BlockRoundTrip(b, c, 0);
    TakenAt(h1, c, b, first);
    CutIs(h, c, b, h1, Take(h1, c).0, first);
    MallocCuts(h, size, c, form, h1, Take(h1, c).0, Block(b, c, 0));
  }

  lemma MallocCuts(h: Heap, size: nat, c: nat, form: Form, h1: Heap, h': Heap, x: nat)
    requires Shape(h) && 0 < size <= 1024 && size <= h.poolSize && c == ClassFor(size) && h.free[c] == []
    requires Refill(h, c, form).1.Granted? && h1 == Refill(h, c, form).0 && h1.free[c] != [] && Take(h1, c) == (h', x)
    ensures Malloc(h, size, form) == (h', Granted(x))
  {
  }

  lemma CutIs(h: Heap, c: nat, b: nat, h1: Heap, h': Heap, first: seq<nat>)
    requires Shape(h) && c < SIZES && h.free[c] == [] && h1.free == h.free[c := first]
    requires OnlyRun(h.vm, h1.vm, b, 1, true) && OnlyRun(h.phys, h1.phys, b, 1, true)
    requires h1.headers == h.headers[b := Header(SizeDesc(c), Blocks(c))]
    requires first == FirstBlocks(b, c, Blocks(c)) && first != []
    requires h' == h1.(free := h1.free[c := first[1..]], headers := h1.headers[b := Header(SizeDesc(c), Blocks(c) - 1)])
    ensures Cut(h, c, b, (h', Granted(Block(b, c, 0))))
  {
  }

  lemma TakenAt(h1: Heap, c: nat, b: nat, first: seq<nat>)
    requires Shape(h1) && c < SIZES && h1.free[c] == first == FirstBlocks(b, c, Blocks(c))
    requires b in h1.headers && h1.headers[b] == Header(SizeDesc(c), Blocks(c))
    requires HEAP_BASE <= Block(b, c, 0) && PageOf(Block(b, c, 0)) == b
    ensures first != []
    ensures Take(h1, c) == (h1.(free := h1.free[c := first[1..]],
                                headers := h1.headers[b := Header(SizeDesc(c), Blocks(c) - 1)]), Block(b, c, 0))
  {
    assert first[0] == Block(b, c, 0);
  }

  lemma RefilledAt(h: Heap, c: nat, b: nat, form: Form, first: seq<nat>)
    requires Shape(h) && c < SIZES && h.free[c] == [] && ApplyOutcome(h.vm, 1) == Found(b) && PageOf(PageAddr(b)) == b
    requires first == FirstBlocks(b, c, Blocks(c))
    ensures Refill(h, c, form).1.Granted?
    ensures var h' := Refill(h, c, form).0;
            && OnlyRun(h.vm, h'.vm, b, 1, true) && OnlyRun(h.phys, h'.phys, b, 1, true)
            && h'.free == h.free[c := first] && h'.headers == h.headers[b := Header(SizeDesc(c), Blocks(c))]
  {
    assert h.free[c] + first == first;
  }

  /** The capacity of a small grant is the size of its class. */
  lemma SmallCapacity(w: World, size: nat, c: nat, form: Form)
    requires Good(w, form) && 0 < size <= 1024 && LeastClass(c, size) && Malloc(w.h, size, form).1.Granted?
    ensures HEAP_BASE <= Malloc(w.h, size, form).1.ptr
    ensures Capacity(Malloc(w.h, size, form).0, Malloc(w.h, size, form).1.ptr) == BlockSize(c)
  {
    ClassForIsLeast(size, c);
    if w.h.free[c] != [] {
      TakeEffect(w, c, size, form);
    } else {
      var b := ApplyOutcome(w.h.vm, 1).base;
      CutAt(w.h, size, c, b, form);
      BlockRoundTrip(b, c, 0);
    }
  }

  // ---------------------------------------------------------------------------
  // What sys_free gives back
  // ---------------------------------------------------------------------------

  /** The list without the blocks in `gone`, in the order it had. */
  function Keep(s: seq<nat>, gone: set<nat>): seq<nat>
  {
    if s == [] then [] else (if s[0] in gone then [] else [s[0]]) + Keep(s[1..], gone)
  }

  lemma {:induction false} RemoveKeeps(s: seq<nat>, gone: set<nat>, x: nat, gone': set<nat>, kept: seq<nat>, kept': seq<nat>)
    requires Distinct(s) && x !in gone && gone' == gone + {x} && kept == Keep(s, gone) && kept' == Keep(s, gone')
    ensures Remove(kept, x) == kept'
    decreases |s|
  {
    if s != [] {
      var rest, rest' := Keep(s[1..], gone), Keep(s[1..], gone');
      DistinctTail(s);
      assert kept == (if s[0] in gone then rest else [s[0]] + rest);
      assert kept' == (if s[0] in gone' then rest' else [s[0]] + rest');
      if s[0] == x {
        KeepAway(s[1..], gone, x, gone');
        RemoveHead(rest, x);
      } else {
        RemoveKeeps(s[1..], gone, x, gone', rest, rest');
        RemoveBehind(rest, s[0], x);
      }
    }
  }

  lemma DistinctTail(s: seq<nat>)
    requires Distinct(s) && s != []
    ensures Distinct(s[1..]) && s[0] !in s[1..]
  {
    assert s == [s[0]] + s[1..];
  }

  lemma RemoveHead(s: seq<nat>, x: nat)
    ensures Remove([x] + s, x) == s
  {
    assert ([x] + s)[1..] == s;
  }

  lemma RemoveBehind(s: seq<nat>, y: nat, x: nat)
    requires y != x
    ensures Remove([y] + s, x) == [y] + Remove(s, x)
  {
    assert ([y] + s)[1..] == s;
  }

  lemma {:induction false} KeepAway(s: seq<nat>, gone: set<nat>, x: nat, gone': set<nat>)
    requires x !in s && gone' == gone + {x}
    ensures Keep(s, gone') == Keep(s, gone)
    decreases |s|
  {
    if s != [] { KeepAway(s[1..], gone, x, gone'); }
  }

  function BlockSet(p: nat, c: nat, k: nat): (r: set<nat>)
    requires c < SIZES
    ensures forall x :: x in r <==> exists i: nat :: i < k && x == Block(p, c, i)
  {
    if k == 0 then {} else BlockSet(p, c, k - 1) + {Block(p, c, k - 1)}
  }

  lemma NotAmongTheFirst(p: nat, c: nat, k: nat)
    requires c < SIZES && k < Blocks(c)
    ensures Block(p, c, k) !in BlockSet(p, c, k)
  {
    forall i: nat | i < k
      ensures Block(p, c, i) != Block(p, c, k)
    {
      BlocksApart(p, i, p, k, c);
    }
  }

  /** Unlinking the blocks of a page one by one leaves the others of the list in their order. */
  lemma {:induction false} UnlinkingKeepsOrder(s: seq<nat>, p: nat, c: nat, k: nat, list: seq<nat>, gone: set<nat>)
    requires Distinct(s) && c < SIZES && k <= Blocks(c) && list == Unlinked(s, p, c, k) && gone == BlockSet(p, c, k)
    ensures list == Keep(s, gone)
    decreases k
  {
    if k == 0 {
      KeepAll(s);
    } else {
      var before := BlockSet(p, c, k - 1);
      UnlinkingKeepsOrder(s, p, c, k - 1, Unlinked(s, p, c, k - 1), before);
      NotAmongTheFirst(p, c, k - 1);
      RemoveKeeps(s, before, Block(p, c, k - 1), gone, Keep(s, before), Keep(s, gone));
    }
  }

  lemma {:induction false} KeepAll(s: seq<nat>)
    ensures Keep(s, {}) == s
    decreases |s|
  {
    if s != [] { KeepAll(s[1..]); }
  }

  /** An arena of its own goes back: its frames all do, of its pages those the bulk setter reaches. */
  predicate GivenBack(h: Heap, p: nat, n: nat, form: Form, h': Heap)
  {
    && OnlyRun(h.vm, h'.vm, p, Reach(form, n), false) && OnlyRun(h.phys, h'.phys, p, n, false)
    && h'.free == h.free && h'.headers == h.headers
  }

  /** A block goes to the end of its list. */
  predicate PutBack(h: Heap, ptr: nat, c: nat, h': Heap)
    requires c < |h.free| && HEAP_BASE <= ptr
  {
    var hd := HeaderAt(h, PageOf(ptr));
    && h'.vm == h.vm && h'.phys == h.phys && h'.free == h.free[c := h.free[c] + [ptr]]
    && h'.headers == h.headers[PageOf(ptr) := hd.(cnt := hd.cnt + 1)]
  }

  /** A page whose blocks are all free goes back, and the list keeps its other blocks in their order. */
  predicate Drained(h: Heap, ptr: nat, c: nat, h': Heap)
    requires c < |h.free| && c < SIZES && HEAP_BASE <= ptr
  {
    var p := PageOf(ptr);
    && OnlyRun(h.vm, h'.vm, p, 1, false) && OnlyRun(h.phys, h'.phys, p, 1, false)
    && h'.free == h.free[c := Keep(h.free[c] + [ptr], BlockSet(p, c, Blocks(c)))]
  }

  /** What sys_free does with a live pointer, by the header it finds. */
  lemma FreeAnswer(w: World, ptr: nat, form: Form)
    requires Good(w, form) && ptr in w.live
    ensures Freeable(w.h, ptr)
    ensures var h' := Free(w.h, ptr, form);
            match HeaderAt(w.h, PageOf(ptr))
            case Header(NullDesc, n) => n >= 1 && GivenBack(w.h, PageOf(ptr), n, form, h')
            case Header(SizeDesc(c), cnt) =>
              && c < SIZES
              && if cnt + 1 == Blocks(c) then Drained(w.h, ptr, c, h') else PutBack(w.h, ptr, c, h')
  {
    LiveIsFreeable(w, ptr, form);
    assert LiveOk(w, ptr);
    match w.owner[PageOf(ptr)] {
      case Head(n) => ReleaseEffect(w, ptr, form); LargeGoesBack(w.h, ptr, HeaderAt(w.h, PageOf(ptr)).cnt, form);
      case Small(c) => SmallGoesBack(w, ptr, c, form);
    }
  }

  lemma LargeGoesBack(h: Heap, ptr: nat, n: nat, form: Form)
    requires Shape(h) && Freeable(h, ptr) && HeaderAt(h, PageOf(ptr)) == Header(NullDesc, n)
    ensures GivenBack(h, PageOf(ptr), n, form, Free(h, ptr, form))
  {
    PhysFreeClears(h, ptr, n);
  }

  lemma SmallGoesBack(w: World, ptr: nat, c: nat, form: Form)
    requires Good(w, form) && ptr in w.live && PageOf(ptr) in w.owner && w.owner[PageOf(ptr)] == Small(c)
    requires Freeable(w.h, ptr)
    ensures c < SIZES && HeaderAt(w.h, PageOf(ptr)).desc == SizeDesc(c)
    ensures var h' := Free(w.h, ptr, form);
            if HeaderAt(w.h, PageOf(ptr)).cnt + 1 == Blocks(c) then Drained(w.h, ptr, c, h') else PutBack(w.h, ptr, c, h')
  {
    PutEffect(w, ptr, form);
    if HeaderAt(w.h, PageOf(ptr)).cnt + 1 == Blocks(c) { LastGoesBack(w, ptr, c, form); }
  }

  lemma LastGoesBack(w: World, ptr: nat, c: nat, form: Form)
    requires Good(w, form) && ptr in w.live && PageOf(ptr) in w.owner && w.owner[PageOf(ptr)] == Small(c)
    requires Freeable(w.h, ptr) && HeaderAt(w.h, PageOf(ptr)).cnt + 1 == Blocks(c)
    ensures c < SIZES && Drained(w.h, ptr, c, Free(w.h, ptr, form))
  {
    FreeIsPutThenDrain(w, ptr, c, form);
    DrainedAway(w.h, PutWorld(w, ptr), ptr, c, form);
  }

  lemma DrainedAway(h: Heap, w1: World, ptr: nat, c: nat, form: Form)
    requires Inv(w1, form) && c < SIZES == |h.free| && HEAP_BASE <= ptr && PageOf(ptr) < |h.vm| == |h.phys|
    requires w1.h.vm == h.vm && w1.h.phys == h.phys && w1.h.free == h.free[c := h.free[c] + [ptr]]
    ensures Drained(h, ptr, c, Drain(w1.h, ptr, c, form))
  {
    assert Distinct(w1.h.free[c]);
    var p := PageOf(ptr);
    DrainEffect(w1, ptr, c, form);
    UnlinkingKeepsOrder(w1.h.free[c], p, c, Blocks(c), Unlinked(w1.h.free[c], p, c, Blocks(c)), BlockSet(p, c, Blocks(c)));
    DrainedIs(h, w1.h, ptr, c, Drain(w1.h, ptr, c, form));
  }

  lemma DrainedIs(h: Heap, h1: Heap, ptr: nat, c: nat, h': Heap)
    requires c < SIZES == |h.free| && HEAP_BASE <= ptr && PageOf(ptr) < |h.vm| == |h.phys|
    requires h1.vm == h.vm && h1.phys == h.phys && h1.free == h.free[c := h.free[c] + [ptr]]
    requires h'.vm == h1.vm[PageOf(ptr) := false] && h'.phys == h1.phys[PageOf(ptr) := false]
    requires h'.free == h1.free[c := Keep(h1.free[c], BlockSet(PageOf(ptr), c, Blocks(c)))]
    ensures Drained(h, ptr, c, h')
  {
  }

  // ---------------------------------------------------------------------------
  // What is in the memory that sys_malloc grants
  // ---------------------------------------------------------------------------

  predicate Zero(m: Memory, a: nat, n: int)
  {
    forall k: nat :: a <= k < a + n ==> Load(m, k) == 0
  }

  /** Memory comes back cleared, whatever its owners before wrote there. */
  lemma GrantedMemoryIsZero(m: Memory, d: nat, w: World, size: nat, form: Form)
    requires Good(w, form) && Refines(m, d, w) && MallocIn(m, d, w.h, size).1.Granted?
    ensures var (m', r) := MallocIn(m, d, w.h, size);
            HEAP_BASE <= r.ptr && Zero(m', r.ptr, Capacity(MallocWorld(w, size, form).h, r.ptr))
  {
    MallocRefines(m, d, w, size, form);
    if size > 1024 {
      var n := PagesFor(size);
      var b := ApplyOutcome(w.h.vm, n).base;
      GrabbedAt(w.h, size, n, b, form);
      PageSplit(b, ARENA_HEADER);
      NewArenaIsZero(m, PageAddr(b), n, 0, n);
    } else {
      var c := ClassFor(size);
      ClassForIsLeast(size, c);
      SmallCapacity(w, size, c, form);
      SmallIsZero(m, d, w, size, c, form);
    }
  }

  lemma NewArenaIsZero(m: Memory, arena: nat, pages: nat, desc: nat, cnt: nat)
    ensures Zero(NewArena(m, arena, pages, desc, cnt), arena + ARENA_HEADER, pages * PAGE_SIZE - ARENA_HEADER)
  {
  }

  lemma SmallIsZero(m: Memory, d: nat, w: World, size: nat, c: nat, form: Form)
    requires Good(w, form) && Refines(m, d, w) && 0 < size <= 1024 && size <= w.h.poolSize && c == ClassFor(size)
    requires MallocIn(m, d, w.h, size).1.Granted?
    ensures Zero(MallocIn(m, d, w.h, size).0, MallocIn(m, d, w.h, size).1.ptr, BlockSize(c))
  {
    assert RingAt(m, ListNodes(d, w.h, c));
    EmptyRing(m, d, w, c);
    if w.h.free[c] != [] {
      PoppedIsZero(m, d, w, c);
    } else {
      var b := ApplyOutcome(w.h.vm, 1).base;
      RefillKeeps(w, c, form);
      RefillTakeNoneFull(w, c, size, form);
      RefillRefines(m, d, w, c, form);
      PoppedIsZero(CutPage(m, d, c, PageAddr(b)), d, RefillWorld(w, c, form), c);
    }
  }

  lemma PoppedIsZero(m: Memory, d: nat, w: World, c: nat)
    requires Shape(w.h) && InvFree(w) && Refines(m, d, w) && c < SIZES && w.h.free[c] != []
    ensures Zero(PopBlock(m, d, c).0, PopBlock(m, d, c).1, BlockSize(c))
  {
    assert RingAt(m, ListNodes(d, w.h, c));
    FirstOf(m, d, w, c);
    var x := w.h.free[c][0];
    DetachedIsZero(Unhooked(m, x), x, c);
  }

  lemma DetachedIsZero(m: Memory, x: nat, c: nat)
    requires c < SIZES && BlockToArena(x) + 8 <= x
    ensures Zero(Detached(m, x, c), x, BlockSize(c))
  {
  }
}
