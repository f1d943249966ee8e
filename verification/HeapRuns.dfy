/**
  Whole runs of sys_malloc and sys_free from the empty heap, and what every run guarantees about the
  kernel's own state.
 */
module HeapRuns {
  import opened Machine
  import opened Bitmap
  import opened Heap
  import opened HeapSafety

  // ---------------------------------------------------------------------------
  // Requests and runs
  // ---------------------------------------------------------------------------

  datatype Request = Allocate(size: nat) | Release(ptr: nat)

  function EmptyHeap(pages: nat, poolSize: nat): Heap
    requires pages * PAGE_SIZE <= poolSize && HEAP_BASE + poolSize <= TWO_32
  {
    Heap(seq(pages, _ => false), seq(pages, _ => false), map[], seq(SIZES, _ => []), poolSize,
         HEAP_BASE - PAGE_OFFSET + poolSize)
  }

  ghost function EmptyWorld(pages: nat, poolSize: nat): (w: World)
    requires pages * PAGE_SIZE <= poolSize && HEAP_BASE + poolSize <= TWO_32
    ensures forall form :: Good(w, form)
  {
    World(EmptyHeap(pages, poolSize), map[], map[])
  }

  /** sys_malloc, with the bookkeeping of what was granted. */
  function MallocWorld(w: World, size: nat, form: Form): (w': World)
    requires Shape(w.h)
    ensures w'.h == Malloc(w.h, size, form).0
    ensures match Malloc(w.h, size, form).1
            case Granted(ptr) => w'.live == w.live[ptr := size]
            case _ => w' == w
  {
    if size > w.h.poolSize || size <= 0 then w
    else if size > 1024 then
      if ApplyOutcome(w.h.vm, PagesFor(size)).Found? then
        var b := ApplyOutcome(w.h.vm, PagesFor(size)).base;
        assert PageOf(PageAddr(b)) == b;
        GrabWorld(w, size, form)
      else w
    else
      var c := ClassFor(size);
      if w.h.free[c] != [] then TakeWorld(w, c, size)
      else if ApplyOutcome(w.h.vm, 1).Found? then TakeWorld(RefillWorld(w, c, form), c, size)
      else w
  }

  /** sys_free of a live pointer. */
  function FreeWorld(w: World, ptr: nat, form: Form): (w': World)
    requires Shape(w.h) && Freeable(w.h, ptr)
    ensures w'.h == Free(w.h, ptr, form) && w'.live == w.live - {ptr}
  {
    var hd := HeaderAt(w.h, PageOf(ptr));
    match hd.desc
    case NullDesc => ReleaseWorld(w, ptr, form)
    case SizeDesc(c) =>
      var w1 := PutWorld(w, ptr);
      if hd.cnt + 1 == Blocks(c) then DrainWorld(w1, ptr, c, form) else w1
  }

  /** The state between two calls: the invariant, and no arena left that is entirely free. */
  ghost predicate Good(w: World, form: Form)
  {
    Inv(w, form) && NoneFull(w)
  }

  /** A request a caller may make: freeing needs a pointer that is live. */
  predicate Allowed(w: World, r: Request)
  {
    r.Release? ==> r.ptr in w.live
  }

  predicate HangsOn(w: World, r: Request, form: Form)
    requires Shape(w.h)
  {
    r.Allocate? && Malloc(w.h, r.size, form).1.Hangs?
  }

  ghost function Step(w: World, r: Request, form: Form): World
    requires Good(w, form) && Allowed(w, r)
  {
    match r
    case Allocate(size) => MallocWorld(w, size, form)
    case Release(ptr) => LiveIsFreeable(w, ptr, form); FreeWorld(w, ptr, form)
  }

  /** Every request of the run is allowed when its turn comes; a call that hangs has no successor. */
  ghost predicate Legal(w: World, rs: seq<Request>, form: Form)
    requires Good(w, form)
    decreases |rs|
  {
    rs == [] ||
    (Allowed(w, rs[0]) && (HangsOn(w, rs[0], form) || (StepKeeps(w, rs[0], form); Legal(Step(w, rs[0], form), rs[1..], form))))
  }

  ghost function Run(w: World, rs: seq<Request>, form: Form): (w': World)
    requires Good(w, form) && Legal(w, rs, form)
    ensures Good(w', form) && Keeps(w.h, w'.h)
    decreases |rs|
  {
    if rs == [] || HangsOn(w, rs[0], form) then w
    else
      StepKeeps(w, rs[0], form);
      Run(Step(w, rs[0], form), rs[1..], form)
  }

  // ---------------------------------------------------------------------------
  // Every step keeps the invariant
  // ---------------------------------------------------------------------------

  lemma LiveIsFreeable(w: World, ptr: nat, form: Form)
    requires Inv(w, form) && ptr in w.live
    ensures Freeable(w.h, ptr)
  {
    assert LiveOk(w, ptr);
    match w.owner[PageOf(ptr)]
    case Head(_) => ReleaseEffect(w, ptr, form);
    case Small(_) => PutEffect(w, ptr, form);
  }

  lemma MallocKeeps(w: World, size: nat, form: Form)
    requires Good(w, form)
    ensures Good(MallocWorld(w, size, form), form)
  {
    if 1024 < size <= w.h.poolSize && ApplyOutcome(w.h.vm, PagesFor(size)).Found? {
      GrabKeepsGood(w, size, form);
    } else if 0 < size <= 1024 && size <= w.h.poolSize {
      MallocSmallKeeps(w, size, form);
    }
  }

  lemma MallocSmallKeeps(w: World, size: nat, form: Form)
    requires Good(w, form) && 0 < size <= 1024 && size <= w.h.poolSize
    ensures Good(MallocWorld(w, size, form), form)
  {
    var c := ClassFor(size);
    if w.h.free[c] != [] {
      TakeKeeps(w, c, size, form);
      TakeKeepsNoneFull(w, c, size, form);
    } else if ApplyOutcome(w.h.vm, 1).Found? {
      RefillTakeKeepsGood(w, c, size, form);
    }
  }

  /** sys_malloc never returns a pointer that is still live. */
  lemma GrantIsNew(w: World, size: nat, form: Form)
    requires Good(w, form) && Malloc(w.h, size, form).1.Granted?
    ensures Malloc(w.h, size, form).1.ptr !in w.live
  {
    if size > 1024 {
      var b := ApplyOutcome(w.h.vm, PagesFor(size)).base;
      GrabEffect(w, size, form);
    } else {
      var c := ClassFor(size);
      if w.h.free[c] != [] {
        assert w.h.free[c][0] in w.h.free[c];
      } else {
        RefillTakeKeepsGood(w, c, size, form);
      }
    }
  }

  lemma GrabKeepsGood(w: World, size: nat, form: Form)
    requires Good(w, form) && 1024 < size <= w.h.poolSize && ApplyOutcome(w.h.vm, PagesFor(size)).Found?
    ensures Good(GrabWorld(w, size, form), form)
    ensures LargePtr(ApplyOutcome(w.h.vm, PagesFor(size)).base) !in w.live
  {
    GrabKeeps(w, size, form);
    GrabEffect(w, size, form);
  }

  lemma RefillTakeKeepsGood(w: World, c: nat, size: nat, form: Form)
    requires Good(w, form) && c < SIZES && size <= BlockSize(c) && w.h.free[c] == [] && ApplyOutcome(w.h.vm, 1).Found?
    ensures var w1 := RefillWorld(w, c, form);
            w1.h.free[c] != [] && w1.h.free[c][0] !in w.live && Good(TakeWorld(w1, c, size), form)
  {
    RefillKeeps(w, c, form);
    RefillTakeNoneFull(w, c, size, form);
    TakeKeeps(RefillWorld(w, c, form), c, size, form);
  }

  lemma TakeKeepsNoneFull(w: World, c: nat, size: nat, form: Form)
    requires Good(w, form) && c < SIZES && w.h.free[c] != []
    ensures NoneFull(TakeWorld(w, c, size))
  {
    var x := w.h.free[c][0];
    assert IsBlock(w.owner, c, x);
    assert SmallOk(w, PageOf(x));
  }

  lemma RefillTakeNoneFull(w: World, c: nat, size: nat, form: Form)
    requires Good(w, form) && c < SIZES && w.h.free[c] == [] && ApplyOutcome(w.h.vm, 1).Found?
    ensures RefillWorld(w, c, form).h.free[c] != []
    ensures NoneFull(TakeWorld(RefillWorld(w, c, form), c, size))
  {
    RefillEffect(w, c, form);
    var b := ApplyOutcome(w.h.vm, 1).base;
    assert FirstBlocks(b, c, Blocks(c))[0] == Block(b, c, 0);
    BlockRoundTrip(b, c, 0);
  }

  lemma FreeKeeps(w: World, ptr: nat, form: Form)
    requires Good(w, form) && ptr in w.live
    ensures Freeable(w.h, ptr) && Good(FreeWorld(w, ptr, form), form)
  {
    LiveIsFreeable(w, ptr, form);
    assert LiveOk(w, ptr);
    match w.owner[PageOf(ptr)] {
      case Head(_) => FreeLargeKeeps(w, ptr, form);
      case Small(_) => FreeSmallKeeps(w, ptr, form);
    }
  }

  lemma FreeLargeKeeps(w: World, ptr: nat, form: Form)
    requires Good(w, form) && ptr in w.live && w.owner[PageOf(ptr)].Head? && Freeable(w.h, ptr)
    ensures Good(FreeWorld(w, ptr, form), form)
  {
    ReleaseEffect(w, ptr, form);
    ReleaseKeeps(w, ptr, form);
  }

  lemma FreeSmallKeeps(w: World, ptr: nat, form: Form)
    requires Good(w, form) && ptr in w.live && w.owner[PageOf(ptr)].Small? && Freeable(w.h, ptr)
    ensures Good(FreeWorld(w, ptr, form), form)
  {
    var p := PageOf(ptr);
    var c := w.owner[p].c;
    PutEffect(w, ptr, form);
    PutKeeps(w, ptr, form);
    assert w.h.headers[p].cnt < Blocks(c);
    var w1 := PutWorld(w, ptr);
    PutNoneFull(w, w1, p, c);
    if HeaderAt(w.h, p).cnt + 1 == Blocks(c) {
      DrainKeepsGood(w1, ptr, c, form);
    }
  }

  lemma DrainKeepsGood(w1: World, ptr: nat, c: nat, form: Form)
    requires Inv(w1, form) && HEAP_BASE <= ptr && PageOf(ptr) in w1.owner && w1.owner[PageOf(ptr)] == Small(c)
    requires c < SIZES && HeaderAt(w1.h, PageOf(ptr)).cnt == Blocks(c)
    requires forall q :: q in w1.owner - {PageOf(ptr)} && w1.owner[q].Small? && w1.owner[q].c < SIZES ==>
               q in w1.h.headers && w1.h.headers[q].cnt < Blocks(w1.owner[q].c)
    ensures Good(DrainWorld(w1, ptr, c, form), form)
  {
    DrainKeeps(w1, ptr, c, form);
    DrainEffect(w1, ptr, c, form);
  }

  lemma PutNoneFull(w: World, w1: World, p: nat, c: nat)
    requires NoneFull(w) && w1.owner == w.owner && p in w.owner && w.owner[p] == Small(c) && c < SIZES && p in w.h.headers
    requires w1.h.headers == w.h.headers[p := Header(SizeDesc(c), w.h.headers[p].cnt + 1)]
    ensures w.h.headers[p].cnt + 1 != Blocks(c) ==> NoneFull(w1)
    ensures forall q :: q in w1.owner - {p} && w1.owner[q].Small? && w1.owner[q].c < SIZES ==>
              q in w1.h.headers && w1.h.headers[q].cnt < Blocks(w1.owner[q].c)
  {
  }

  lemma StepKeeps(w: World, r: Request, form: Form)
    requires Good(w, form) && Allowed(w, r)
    ensures Good(Step(w, r, form), form)
  {
    match r
    case Allocate(size) => MallocKeeps(w, size, form);
    case Release(ptr) => FreeKeeps(w, ptr, form);
  }

  // ---------------------------------------------------------------------------
  // What the invariant says about the kernel's own state
  // ---------------------------------------------------------------------------

  /** Bytes the caller may use behind a granted pointer, read from the arena header. */
  function Capacity(h: Heap, q: nat): int
    requires HEAP_BASE <= q
  {
    match HeaderAt(h, PageOf(q))
    case Header(NullDesc, cnt) => cnt * PAGE_SIZE - ARENA_HEADER
    case Header(SizeDesc(c), _) => if c < SIZES then BlockSize(c) else 0
  }

  /** Every live extent is large enough, inside the heap and clear of the header page fields. */
  predicate ExtentOk(h: Heap, live: map<nat, nat>, q: nat)
    requires q in live
  {
    && HEAP_BASE <= q && live[q] <= Capacity(h, q)
    && PageAddr(PageOf(q)) + ARENA_HEADER <= q
    && q + Capacity(h, q) <= HEAP_BASE + |h.vm| * PAGE_SIZE <= HEAP_BASE + h.poolSize
  }

  predicate OnSomeList(h: Heap, x: nat)
  {
    exists c :: 0 <= c < |h.free| && x in h.free[c]
  }

  /**
    The extents of live pointers do not overlap each other, nor any block on a free list, nor the
    header of any arena that holds a live pointer or a free block.
   */
  ghost predicate Separated(h: Heap, live: map<nat, nat>)
    requires |h.free| == SIZES
  {
    && (forall q :: q in live ==> ExtentOk(h, live, q))
    && (forall q, r :: q in live && r in live && q != r ==> Apart(q, Capacity(h, q), r, Capacity(h, r)))
    && (forall q, c, x :: q in live && 0 <= c < SIZES && x in h.free[c] ==> Apart(q, Capacity(h, q), x, BlockSize(c)))
    && (forall q, r :: q in live && r in live ==> Apart(q, Capacity(h, q), BlockToArena(r), ARENA_HEADER))
    && (forall q, x :: q in live && OnSomeList(h, x) ==> Apart(q, Capacity(h, q), BlockToArena(x), ARENA_HEADER))
  }

  /** The pages an extent occupies, from its first byte to its last. */
  lemma ExtentPages(w: World, q: nat, form: Form)
    requires Inv(w, form) && q in w.live
    ensures ExtentOk(w.h, w.live, q)
    ensures BlockToArena(q) == PageAddr(PageOf(q))
    ensures match w.owner[PageOf(q)]
            case Small(c) => c < SIZES && IsBlock(w.owner, c, q) && Capacity(w.h, q) == BlockSize(c)
                             && q + BlockSize(c) <= PageAddr(PageOf(q) + 1) && q !in w.h.free[c]
            case Head(n) => q == LargePtr(PageOf(q)) && q + Capacity(w.h, q) == PageAddr(PageOf(q) + n)
                            && (forall r :: PageOf(q) < r < PageOf(q) + n ==> r in w.owner && w.owner[r] == Tail(PageOf(q)))
            case _ => false
  {
    assert LiveOk(w, q);
    var p := PageOf(q);
    PageBounds(q);
    match w.owner[p]
    case Head(n) => assert LargeOk(w, p);
    case Small(c) => LiveBlock(w, q); BlockRoundTrip(p, c, IndexOf(q, c));
  }

  lemma PageBounds(x: nat)
    requires HEAP_BASE <= x
    ensures PageAddr(PageOf(x)) <= x < PageAddr(PageOf(x) + 1) && BlockToArena(x) == PageAddr(PageOf(x))
  {
  }

  /** An extent stays clear of everything on a page that is not its own. */
  lemma ExtentMissesOtherPages(w: World, q: nat, p: nat, form: Form)
    requires Inv(w, form) && q in w.live && p in w.owner && p != PageOf(q) && !w.owner[p].Tail?
    ensures Apart(q, Capacity(w.h, q), PageAddr(p), PAGE_SIZE)
  {
    ExtentPages(w, q, form);
    PageBounds(q);
    match w.owner[PageOf(q)]
    case Small(_) =>
    case Head(n) =>
      assert !(PageOf(q) < p < PageOf(q) + n);
  }

  lemma ExtentMissesHeader(w: World, q: nat, p: nat, form: Form)
    requires Inv(w, form) && q in w.live && p in w.owner && !w.owner[p].Tail?
    ensures Apart(q, Capacity(w.h, q), PageAddr(p), ARENA_HEADER)
  {
    ExtentPages(w, q, form);
    if p != PageOf(q) { ExtentMissesOtherPages(w, q, p, form); }
  }

  lemma ExtentsApart(w: World, q: nat, r: nat, form: Form)
    requires Inv(w, form) && q in w.live && r in w.live && q != r
    ensures Apart(q, Capacity(w.h, q), r, Capacity(w.h, r))
  {
    ExtentPages(w, q, form);
    ExtentPages(w, r, form);
    if PageOf(q) == PageOf(r) {
      var c := w.owner[PageOf(q)].c;
      BlocksApart(PageOf(q), IndexOf(q, c), PageOf(r), IndexOf(r, c), c);
    } else {
      ExtentMissesOtherPages(w, q, PageOf(r), form);
      ExtentMissesOtherPages(w, r, PageOf(q), form);
      PageBounds(q);
      PageBounds(r);
    }
  }

  lemma ExtentMissesFreeBlock(w: World, q: nat, c: nat, x: nat, form: Form)
    requires Inv(w, form) && q in w.live && c < SIZES && x in w.h.free[c]
    ensures Apart(q, Capacity(w.h, q), x, BlockSize(c))
  {
    ExtentPages(w, q, form);
    assert IsBlock(w.owner, c, x);
    BlockRoundTrip(PageOf(x), c, IndexOf(x, c));
    if PageOf(q) == PageOf(x) {
      BlocksApart(PageOf(q), IndexOf(q, c), PageOf(x), IndexOf(x, c), c);
    } else {
      ExtentMissesOtherPages(w, q, PageOf(x), form);
    }
  }

  lemma InvSeparates(w: World, form: Form)
    requires Inv(w, form)
    ensures Separated(w.h, w.live)
  {
    forall q | q in w.live
      ensures ExtentOk(w.h, w.live, q)
    {
      ExtentPages(w, q, form);
    }
    forall q, r | q in w.live && r in w.live && q != r
      ensures Apart(q, Capacity(w.h, q), r, Capacity(w.h, r))
    {
      ExtentsApart(w, q, r, form);
    }
    forall q, c, x | q in w.live && 0 <= c < SIZES && x in w.h.free[c]
      ensures Apart(q, Capacity(w.h, q), x, BlockSize(c))
    {
      ExtentMissesFreeBlock(w, q, c, x, form);
    }
    forall q, r | q in w.live && r in w.live
      ensures Apart(q, Capacity(w.h, q), BlockToArena(r), ARENA_HEADER)
    {
      ExtentPages(w, r, form);
      ExtentMissesHeader(w, q, PageOf(r), form);
    }
    forall q, x | q in w.live && OnSomeList(w.h, x)
      ensures Apart(q, Capacity(w.h, q), BlockToArena(x), ARENA_HEADER)
    {
      var c :| 0 <= c < SIZES && x in w.h.free[c];
      assert IsBlock(w.owner, c, x);
      PageBounds(x);
      ExtentMissesHeader(w, q, PageOf(x), form);
    }
  }

  /** For every run that frees only live pointers, with either setter. */
  lemma RunsSeparate(pages: nat, poolSize: nat, rs: seq<Request>, form: Form)
    requires pages * PAGE_SIZE <= poolSize && HEAP_BASE + poolSize <= TWO_32
    requires Legal(EmptyWorld(pages, poolSize), rs, form)
    ensures var w := Run(EmptyWorld(pages, poolSize), rs, form);
            Separated(w.h, w.live)
  {
    InvSeparates(Run(EmptyWorld(pages, poolSize), rs, form), form);
  }
}
