/**
  Arena counters, agreement of the two bitmaps, and conservation: what a run that has freed
  everything leaves behind, with the bulk setter as documented and as written.
 */
module HeapConservation {
  import opened Machine
  import opened Bitmap
  import opened List
  import opened Heap
  import opened HeapSafety
  import opened HeapRuns

  // ---------------------------------------------------------------------------
  // Arena counters
  // ---------------------------------------------------------------------------

  /** The arena of x is cut into blocks of size c, x is one of them, and its counter counts free blocks. */
  ghost predicate Counted(h: Heap, c: nat, x: nat)
    requires |h.free| == SIZES && c < SIZES
  {
    && HEAP_BASE <= x && PageOf(x) < |h.vm| && h.vm[PageOf(x)]
    && (exists i: nat :: i < Blocks(c) && x == Block(PageOf(x), c, i))
    && HeaderAt(h, PageOf(x)).desc == SizeDesc(c)
    && HeaderAt(h, PageOf(x)).cnt == |FreeIndices(h, PageOf(x), c)| < Blocks(c)
  }

  /**
    No list keeps a node of a page that went back, and the counter of every arena that holds a free
    block or a live one is the number of its blocks on its list, never all of them.
   */
  ghost predicate Bookkept(h: Heap, live: map<nat, nat>)
    requires |h.free| == SIZES
  {
    && (forall c :: 0 <= c < SIZES ==> Distinct(h.free[c]))
    && (forall c, x :: 0 <= c < SIZES && x in h.free[c] ==> Counted(h, c, x))
    && (forall q :: q in live && HEAP_BASE <= q ==>
          match HeaderAt(h, PageOf(q)).desc
          case SizeDesc(c) => c < SIZES && q !in h.free[c] && Counted(h, c, q)
          case NullDesc => true)
  }

  lemma BlockIsCounted(w: World, c: nat, x: nat, form: Form)
    requires Good(w, form) && c < SIZES && IsBlock(w.owner, c, x)
    ensures Counted(w.h, c, x)
  {
    assert SmallOk(w, PageOf(x));
    var i: nat := IndexOf(x, c);
    assert x == Block(PageOf(x), c, i);
  }

  lemma GoodIsBookkept(w: World, form: Form)
    requires Good(w, form)
    ensures Bookkept(w.h, w.live)
  {
    forall c, x | 0 <= c < SIZES && x in w.h.free[c]
      ensures Counted(w.h, c, x)
    {
      assert IsBlock(w.owner, c, x);
      BlockIsCounted(w, c, x, form);
    }
    forall q | q in w.live && HEAP_BASE <= q
      ensures match HeaderAt(w.h, PageOf(q)).desc
              case SizeDesc(c) => c < SIZES && q !in w.h.free[c] && Counted(w.h, c, q)
              case NullDesc => true
    {
      assert LiveOk(w, q);
      match w.owner[PageOf(q)]
      case Head(_) => assert LargeOk(w, PageOf(q));
      case Small(c) => LiveBlock(w, q); BlockIsCounted(w, c, q, form);
    }
  }

  lemma RunsKeepBooks(pages: nat, poolSize: nat, rs: seq<Request>, form: Form)
    requires pages * PAGE_SIZE <= poolSize && HEAP_BASE + poolSize <= TWO_32
    requires Legal(EmptyWorld(pages, poolSize), rs, form)
    ensures var w := Run(EmptyWorld(pages, poolSize), rs, form);
            Bookkept(w.h, w.live)
  {
    GoodIsBookkept(Run(EmptyWorld(pages, poolSize), rs, form), form);
  }

  /** The free that completes an arena finds all its blocks on the list, unlinks them all, and returns the page. */
  lemma LastBlockReturnsThePage(w: World, ptr: nat, c: nat, form: Form)
    requires Good(w, form) && ptr in w.live && w.owner[PageOf(ptr)] == Small(c) && Freeable(w.h, ptr)
    requires HeaderAt(w.h, PageOf(ptr)).cnt + 1 == Blocks(c)
    ensures c < SIZES && HeaderAt(w.h, PageOf(ptr)).desc == SizeDesc(c)
    ensures forall i: nat :: i < Blocks(c) ==> Block(PageOf(ptr), c, i) in Put(w.h, ptr).free[c]
    ensures var h' := Free(w.h, ptr, form);
            && !h'.vm[PageOf(ptr)] && !h'.phys[PageOf(ptr)]
            && (forall x :: x in h'.free[c] <==> x in w.h.free[c] && PageOf(x) != PageOf(ptr))
            && (forall d :: 0 <= d < SIZES && d != c ==> h'.free[d] == w.h.free[d])
  {
    FreeIsPutThenDrain(w, ptr, c, form);
    DrainedAfterPut(w.h, PutWorld(w, ptr), ptr, c, form);
  }

  lemma DrainedAfterPut(h: Heap, w1: World, ptr: nat, c: nat, form: Form)
    requires Inv(w1, form) && HEAP_BASE <= ptr && PageOf(ptr) in w1.owner && w1.owner[PageOf(ptr)] == Small(c)
    requires c < SIZES && HeaderAt(w1.h, PageOf(ptr)).cnt == Blocks(c) && |h.free| == SIZES
    requires w1.h.free == h.free[c := h.free[c] + [ptr]] && forall x :: x in h.free[c] ==> HEAP_BASE <= x
    ensures forall i: nat :: i < Blocks(c) ==> Block(PageOf(ptr), c, i) in w1.h.free[c]
    ensures var h' := Drain(w1.h, ptr, c, form);
            && !h'.vm[PageOf(ptr)] && !h'.phys[PageOf(ptr)]
            && (forall x :: x in h'.free[c] <==> x in h.free[c] && PageOf(x) != PageOf(ptr))
            && (forall d :: 0 <= d < SIZES && d != c ==> h'.free[d] == h.free[d])
  {
    DrainedPage(w1, ptr, c, form);
  }

  lemma FreeIsPutThenDrain(w: World, ptr: nat, c: nat, form: Form)
    requires Good(w, form) && ptr in w.live && w.owner[PageOf(ptr)] == Small(c) && Freeable(w.h, ptr)
    requires HeaderAt(w.h, PageOf(ptr)).cnt + 1 == Blocks(c)
    ensures c < SIZES && HeaderAt(w.h, PageOf(ptr)).desc == SizeDesc(c)
    ensures var w1 := PutWorld(w, ptr);
            && Inv(w1, form) && w1.owner == w.owner && w1.h == Put(w.h, ptr) && HeaderAt(w1.h, PageOf(ptr)).cnt == Blocks(c)
            && Free(w.h, ptr, form) == Drain(w1.h, ptr, c, form)
            && w1.h.free == w.h.free[c := w.h.free[c] + [ptr]]
    ensures forall x :: x in w.h.free[c] ==> HEAP_BASE <= x
  {
    PutEffect(w, ptr, form);
    PutKeeps(w, ptr, form);
    forall x | x in w.h.free[c]
      ensures HEAP_BASE <= x
    {
      assert IsBlock(w.owner, c, x);
    }
  }

  lemma DrainedPage(w1: World, ptr: nat, c: nat, form: Form)
    requires Inv(w1, form) && HEAP_BASE <= ptr && PageOf(ptr) in w1.owner && w1.owner[PageOf(ptr)] == Small(c)
    requires c < SIZES && HeaderAt(w1.h, PageOf(ptr)).cnt == Blocks(c)
    ensures forall i: nat :: i < Blocks(c) ==> Block(PageOf(ptr), c, i) in w1.h.free[c]
    ensures var h' := Drain(w1.h, ptr, c, form);
            && !h'.vm[PageOf(ptr)] && !h'.phys[PageOf(ptr)]
            && (forall x :: x in h'.free[c] <==> x in w1.h.free[c] && HEAP_BASE <= x && PageOf(x) != PageOf(ptr))
            && (forall d :: 0 <= d < SIZES && d != c ==> h'.free[d] == w1.h.free[d])
  {
    assert SmallOk(w1, PageOf(ptr));
    FullMeansAllFree(w1.h, PageOf(ptr), c);
    DrainEffect(w1, ptr, c, form);
    DrainKeepsFree(w1, ptr, c, form);
    forall x | x in w1.h.free[c]
      ensures HEAP_BASE <= x
    {
      assert IsBlock(w1.owner, c, x);
    }
  }

  // ---------------------------------------------------------------------------
  // Pages that the literal setter forgets
  // ---------------------------------------------------------------------------

  /** A page the bulk setter, as written, treats differently from its first page. */
  ghost predicate HasExtra(owner: map<nat, Owner>)
  {
    exists p :: p in owner && (owner[p].Tail? || owner[p].Leaked?)
  }

  /** Every granted request of the run fitted in one page together with its header. */
  ghost predicate OnePageOnly(w: World, rs: seq<Request>, form: Form)
    requires Good(w, form) && Legal(w, rs, form)
    decreases |rs|
  {
    rs == [] || HangsOn(w, rs[0], form) ||
    (StepKeeps(w, rs[0], form);
     && !Oversize(w, rs[0], form)
     && OnePageOnly(Step(w, rs[0], form), rs[1..], form))
  }

  predicate Oversize(w: World, r: Request, form: Form)
    requires Shape(w.h)
  {
    r.Allocate? && r.size > PAGE_SIZE - ARENA_HEADER && Malloc(w.h, r.size, form).1.Granted?
  }

  lemma MallocExtra(w: World, size: nat, form: Form)
    requires Good(w, form)
    ensures HasExtra(MallocWorld(w, size, form).owner) <==> HasExtra(w.owner) || Oversize(w, Allocate(size), form)
  {
    if size > 1024 {
      MallocLargeExtra(w, size, form);
    } else if size > 0 && size <= w.h.poolSize {
      MallocSmallExtra(w, size, form);
    }
  }

  lemma MallocLargeExtra(w: World, size: nat, form: Form)
    requires Good(w, form) && size > 1024
    ensures HasExtra(MallocWorld(w, size, form).owner) <==> HasExtra(w.owner) || Oversize(w, Allocate(size), form)
  {
    if size <= w.h.poolSize && ApplyOutcome(w.h.vm, PagesFor(size)).Found? {
      GrabEffect(w, size, form);
      var n := PagesFor(size);
      var b := ApplyOutcome(w.h.vm, n).base;
      SameExtra(w.owner, GrabOwner(w.owner, b, n), b, n);
    }
  }

  lemma MallocSmallExtra(w: World, size: nat, form: Form)
    requires Good(w, form) && 0 < size <= 1024 && size <= w.h.poolSize
    ensures HasExtra(MallocWorld(w, size, form).owner) <==> HasExtra(w.owner)
  {
    var c := ClassFor(size);
    if w.h.free[c] == [] && ApplyOutcome(w.h.vm, 1).Found? {
      RefilledExtra(w, c, form);
    }
    MallocSmallOwner(w, size, form);
  }

  lemma RefilledExtra(w: World, c: nat, form: Form)
    requires Inv(w, form) && ApplyOutcome(w.h.vm, 1).Found?
    ensures HasExtra(w.owner[ApplyOutcome(w.h.vm, 1).base := Small(c)]) <==> HasExtra(w.owner)
  {
    var b := ApplyOutcome(w.h.vm, 1).base;
    FoundRunIsUnowned(w, 1, form);
    SameExtra(w.owner, w.owner[b := Small(c)], b, 1);
  }

  /** What a small request adds to the owned pages. */
  lemma MallocSmallOwner(w: World, size: nat, form: Form)
    requires Shape(w.h) && 0 < size <= 1024 && size <= w.h.poolSize
    ensures MallocWorld(w, size, form).owner ==
            if w.h.free[ClassFor(size)] == [] && ApplyOutcome(w.h.vm, 1).Found?
            then w.owner[ApplyOutcome(w.h.vm, 1).base := Small(ClassFor(size))] else w.owner
  {
  }

  /** Adding pages elsewhere hides nothing; the added ones decide whether something is new. */
  lemma SameExtra(o: map<nat, Owner>, o': map<nat, Owner>, b: nat, n: nat)
    requires forall q :: q in o ==> q in o' && o'[q] == o[q]
    requires forall q :: q in o' && q !in o ==> b <= q < b + n && (o'[q].Tail? <==> q != b) && !o'[q].Leaked?
    requires n >= 1 && forall q :: b <= q < b + n ==> q in o' && q !in o
    ensures HasExtra(o') <==> HasExtra(o) || n > 1
  {
    if HasExtra(o) {
      var q :| q in o && (o[q].Tail? || o[q].Leaked?);
      assert o'[q] == o[q];
    } else if n > 1 {
      assert b + 1 in o' && b + 1 !in o;
    }
  }

  lemma FreeExtra(w: World, ptr: nat)
    requires Good(w, Literal) && ptr in w.live && Freeable(w.h, ptr)
    ensures HasExtra(FreeWorld(w, ptr, Literal).owner) <==> HasExtra(w.owner)
  {
    var p := PageOf(ptr);
    assert LiveOk(w, ptr);
    match w.owner[p] {
      case Head(n) =>
        ReleaseEffect(w, ptr, Literal);
        ReleaseSameExtra(w, p);
      case Small(c) =>
        PutEffect(w, ptr, Literal);
        DropSameExtra(w.owner, p);
    }
  }

  lemma ReleaseSameExtra(w: World, p: nat)
    requires InvLarge(w) && p in w.owner && w.owner[p].Head?
    ensures HasExtra(ReleaseOwner(w.owner, p, w.owner[p].n, Literal)) <==> HasExtra(w.owner)
  {
    var o, o' := w.owner, ReleaseOwner(w.owner, p, w.owner[p].n, Literal);
    assert LargeOk(w, p);
    if HasExtra(o) {
      var q :| q in o && (o[q].Tail? || o[q].Leaked?);
      assert q in o' && (o'[q].Tail? || o'[q].Leaked?);
    }
    if HasExtra(o') {
      var q :| q in o' && (o'[q].Tail? || o'[q].Leaked?);
      assert q in o && (p < q < p + o[p].n ==> o[q] == Tail(p));
    }
  }

  lemma DropSameExtra(o: map<nat, Owner>, p: nat)
    requires p in o && o[p].Small?
    ensures HasExtra(o - {p}) <==> HasExtra(o)
  {
    if HasExtra(o) {
      var q :| q in o && (o[q].Tail? || o[q].Leaked?);
      assert q in o - {p} && (o - {p})[q] == o[q];
    }
  }

  lemma {:induction false} RunExtra(w: World, rs: seq<Request>)
    requires Good(w, Literal) && Legal(w, rs, Literal)
    ensures HasExtra(Run(w, rs, Literal).owner) <==> HasExtra(w.owner) || !OnePageOnly(w, rs, Literal)
    decreases |rs|
  {
    if rs != [] && !HangsOn(w, rs[0], Literal) {
      StepKeeps(w, rs[0], Literal);
      match rs[0] {
        case Allocate(size) => MallocExtra(w, size, Literal);
        case Release(ptr) => LiveIsFreeable(w, ptr, Literal); FreeExtra(w, ptr);
      }
      RunExtra(Step(w, rs[0], Literal), rs[1..]);
    }
  }

  // ---------------------------------------------------------------------------
  // The two bitmaps
  // ---------------------------------------------------------------------------

  /** With the documented setter both bitmaps agree bit for bit after every run. */
  lemma BitmapsAgree(pages: nat, poolSize: nat, rs: seq<Request>)
    requires pages * PAGE_SIZE <= poolSize && HEAP_BASE + poolSize <= TWO_32
    requires Legal(EmptyWorld(pages, poolSize), rs, Documented)
    ensures var w := Run(EmptyWorld(pages, poolSize), rs, Documented);
            w.h.vm == w.h.phys
  {
  }

  /** As written they agree exactly as long as no request of more than one page was granted. */
  lemma BitmapsAgreeAsWritten(pages: nat, poolSize: nat, rs: seq<Request>)
    requires pages * PAGE_SIZE <= poolSize && HEAP_BASE + poolSize <= TWO_32
    requires Legal(EmptyWorld(pages, poolSize), rs, Literal)
    ensures var w := Run(EmptyWorld(pages, poolSize), rs, Literal);
            w.h.vm == w.h.phys <==> OnePageOnly(EmptyWorld(pages, poolSize), rs, Literal)
  {
    var w := Run(EmptyWorld(pages, poolSize), rs, Literal);
    RunExtra(EmptyWorld(pages, poolSize), rs);
    if HasExtra(w.owner) {
      var p :| p in w.owner && (w.owner[p].Tail? || w.owner[p].Leaked?);
      assert w.h.vm[p] && !w.h.phys[p];
    } else {
      assert forall p :: 0 <= p < |w.h.vm| ==> w.h.vm[p] == w.h.phys[p];
    }
  }

  datatype PageRequest = TakePages(n: nat) | GivePages(v: nat, n: nat)

  /** page_alloc and page_free called directly; a page_free may name any address of the heap. */
  function PageRun(h: Heap, rs: seq<PageRequest>, form: Form): (h': Heap)
    requires Shape(h)
    ensures Shape(h')
    decreases |rs|
  {
    if rs == [] then h
    else match rs[0]
      case TakePages(n) => PageRun(AllocPages(h, n, form).0, rs[1..], form)
      case GivePages(v, n) =>
        if n >= 1 && HEAP_BASE <= v && PageOf(v) + n <= |h.vm| then PageRun(FreePages(h, v, n, form), rs[1..], form)
        else h
  }

  /** The agreement needs no discipline from the callers of the page layer. */
  lemma {:induction false} PageRunsAgree(h: Heap, rs: seq<PageRequest>)
    requires Shape(h) && h.vm == h.phys
    ensures var h' := PageRun(h, rs, Documented);
            h'.vm == h'.phys
    decreases |rs|
  {
    if rs != [] {
      match rs[0]
      case TakePages(n) => PageRunsAgree(AllocPages(h, n, Documented).0, rs[1..]);
      case GivePages(v, n) =>
        if n >= 1 && HEAP_BASE <= v && PageOf(v) + n <= |h.vm| {
          PhysFreeClears(h, v, n);
          PageRunsAgree(FreePages(h, v, n, Documented), rs[1..]);
        }
    }
  }

  // ---------------------------------------------------------------------------
  // Conservation
  // ---------------------------------------------------------------------------

  /** When nothing is live, only leaked pages remain, and every free list is empty. */
  lemma NothingLive(w: World, form: Form)
    requires Good(w, form) && w.live == map[]
    ensures forall p :: p in w.owner ==> w.owner[p].Leaked?
    ensures forall c :: 0 <= c < SIZES ==> w.h.free[c] == []
    ensures w.h.phys == seq(|w.h.vm|, i requires 0 <= i < |w.h.vm| => form.Documented? && w.h.vm[i])
  {
    forall c | 0 <= c < SIZES && w.h.free[c] != []
      ensures exists p :: p in w.owner && w.owner[p].Small?
    {
      ListHasArena(w, c);
    }
    forall p | p in w.owner
      ensures !w.owner[p].Small? && !w.owner[p].Head?
    {
      if w.owner[p].Small? {
        NotAllFree(w, p);
      }
    }
  }

  lemma ListHasArena(w: World, c: nat)
    requires Shape(w.h) && InvFree(w) && c < SIZES && w.h.free[c] != []
    ensures exists p :: p in w.owner && w.owner[p].Small?
  {
    var x := w.h.free[c][0];
    assert x in w.h.free[c];
    assert IsBlock(w.owner, c, x);
  }

  /** An arena that is not entirely free has a live block. */
  lemma NotAllFree(w: World, p: nat)
    requires Shape(w.h) && InvSmall(w) && NoneFull(w) && p in w.owner && w.owner[p].Small?
    ensures w.live != map[]
  {
    assert SmallOk(w, p);
    var c := w.owner[p].c;
    if FreeIndices(w.h, p, c) == Span(0, Blocks(c)) {
      assert false;
    }
    assert FreeIndices(w.h, p, c) <= Span(0, Blocks(c));
    var i :| i in Span(0, Blocks(c)) && i !in FreeIndices(w.h, p, c);
    assert Block(p, c, i) in w.live;
  }

  /** Documented setter: a run that has freed everything restores both bitmaps and all seven lists. */
  lemma EverythingComesBack(pages: nat, poolSize: nat, rs: seq<Request>)
    requires pages * PAGE_SIZE <= poolSize && HEAP_BASE + poolSize <= TWO_32
    requires Legal(EmptyWorld(pages, poolSize), rs, Documented)
    requires Run(EmptyWorld(pages, poolSize), rs, Documented).live == map[]
    ensures var h, h0 := Run(EmptyWorld(pages, poolSize), rs, Documented).h, EmptyHeap(pages, poolSize);
            h.vm == h0.vm && h.phys == h0.phys && h.free == h0.free
  {
    NothingLive(Run(EmptyWorld(pages, poolSize), rs, Documented), Documented);
  }

  /**
    As written, the lists and the frame bitmap always come back; the virtual bitmap comes back
    exactly when every granted request fitted in one page.
   */
  lemma WhatComesBackAsWritten(pages: nat, poolSize: nat, rs: seq<Request>)
    requires pages * PAGE_SIZE <= poolSize && HEAP_BASE + poolSize <= TWO_32
    requires Legal(EmptyWorld(pages, poolSize), rs, Literal)
    requires Run(EmptyWorld(pages, poolSize), rs, Literal).live == map[]
    ensures var h, h0 := Run(EmptyWorld(pages, poolSize), rs, Literal).h, EmptyHeap(pages, poolSize);
            && h.phys == h0.phys && h.free == h0.free
            && (h.vm == h0.vm <==> OnePageOnly(EmptyWorld(pages, poolSize), rs, Literal))
  {
    var w := Run(EmptyWorld(pages, poolSize), rs, Literal);
    NothingLive(w, Literal);
    RunExtra(EmptyWorld(pages, poolSize), rs);
    if HasExtra(w.owner) {
      var p :| p in w.owner && (w.owner[p].Tail? || w.owner[p].Leaked?);
      assert w.h.vm[p];
    } else {
      assert forall p :: 0 <= p < |w.h.vm| ==> !w.h.vm[p];
    }
  }

  /** Two pages taken and given back are enough to lose one, in a heap of eight. */
  lemma ALostPage()
    returns (rs: seq<Request>)
    ensures Legal(EmptyWorld(8, 8 * PAGE_SIZE), rs, Literal)
    ensures var w := Run(EmptyWorld(8, 8 * PAGE_SIZE), rs, Literal);
            w.live == map[] && w.h.vm != EmptyHeap(8, 8 * PAGE_SIZE).vm
  {
    var w0 := EmptyWorld(8, 8 * PAGE_SIZE);
    TwoPagesGranted(w0);
    TakeAndGive(w0, 5000, LargePtr(0));
    rs := [Allocate(5000), Release(LargePtr(0))];
    TookMore(w0, rs);
    WhatComesBackAsWritten(8, 8 * PAGE_SIZE, rs);
  }

  /** The first large request of an empty heap gets the first pages, and its pointer is all that is live. */
  lemma TwoPagesGranted(w0: World)
    requires w0 == EmptyWorld(8, 8 * PAGE_SIZE) && Good(w0, Literal)
    ensures Oversize(w0, Allocate(5000), Literal) && !HangsOn(w0, Allocate(5000), Literal)
    ensures Step(w0, Allocate(5000), Literal).live == map[LargePtr(0) := 5000]
  {
    assert PagesFor(5000) == 2 && Fits(w0.h.vm, 2, 0);
    assert ApplyOutcome(w0.h.vm, 2) == Found(0);
  }

  /** One request and the release of what it got. */
  lemma TakeAndGive(w0: World, size: nat, ptr: nat)
    requires Good(w0, Literal) && !HangsOn(w0, Allocate(size), Literal)
    requires Step(w0, Allocate(size), Literal).live == map[ptr := size]
    ensures Legal(w0, [Allocate(size), Release(ptr)], Literal)
    ensures Run(w0, [Allocate(size), Release(ptr)], Literal).live == map[]
  {
    var rs := [Allocate(size), Release(ptr)];
    StepKeeps(w0, Allocate(size), Literal);
    assert rs[1..] == [Release(ptr)];
    GiveBack(Step(w0, Allocate(size), Literal), ptr);
  }

  lemma TookMore(w0: World, rs: seq<Request>)
    requires Good(w0, Literal) && Legal(w0, rs, Literal) && rs != [] && !HangsOn(w0, rs[0], Literal)
    requires Oversize(w0, rs[0], Literal)
    ensures !OnePageOnly(w0, rs, Literal)
  {
  }

  lemma GiveBack(w1: World, ptr: nat)
    requires Good(w1, Literal) && w1.live.Keys == {ptr}
    ensures Legal(w1, [Release(ptr)], Literal) && Run(w1, [Release(ptr)], Literal).live == map[]
  {
    var rs := [Release(ptr)];
    StepKeeps(w1, rs[0], Literal);
    assert rs[1..] == [];
    var w2 := Step(w1, rs[0], Literal);
    assert Legal(w2, [], Literal) && Run(w2, [], Literal) == w2;
  }
}
