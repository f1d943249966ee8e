/**
  sys_malloc and sys_free of mm/memory.c as programs over the words of memory, and whole runs of them with
  clients that write into what they own in between.
 */
module HeapCalls {
  import opened Machine
  import opened List
  import opened Bitmap
  import opened Heap
  import opened HeapSafety
  import opened HeapRuns
  import opened HeapWords
  import opened HeapMemory

  // ---------------------------------------------------------------------------
  // The two calls
  // ---------------------------------------------------------------------------

  /** sys_malloc, as it reads and writes memory; the bitmaps and the size of the pool come from `h`. */
  function MallocIn(m: Memory, d: nat, h: Heap, size: nat): (Memory, Reply)
  {
    if size > h.poolSize || size <= 0 then (m, Denied)
    else if size > 1024 then
      var n := PagesFor(size);
      match ApplyOutcome(h.vm, n)
      case Found(b) => (NewArena(m, PageAddr(b), n, DescWord(d, NullDesc), n), Granted(PageAddr(b) + ARENA_HEADER))
      case NoneFree => (m, Denied)
      case AssertFails => (m, Hangs(false))
      case LoopsForever => (m, Hangs(true))
    else
      var c := ClassFor(size);
      if Load(m, HeadAt(d, c) + 4) != HeadAt(d, c) then
        var (m', x) := PopBlock(m, d, c);
        (m', Granted(x))
      else
        match ApplyOutcome(h.vm, 1)
        case Found(b) =>
          var (m', x) := PopBlock(CutPage(m, d, c, PageAddr(b)), d, c);
          (m', Granted(x))
        case NoneFree => (m, Denied)
        case AssertFails => (m, Hangs(false))
        case LoopsForever => (m, Hangs(true))
  }

  /** sys_free, likewise; what it does depends on the header it finds. */
  function FreeIn(m: Memory, d: nat, ptr: nat): Memory
  {
    var arena := BlockToArena(ptr);
    var desc := Load(m, arena);
    if desc < d || (desc - d) / 16 >= SIZES then m
    else
      var c := (desc - d) / 16;
      var m1 := PutBlock(m, d, c, ptr, arena);
      if Load(m1, arena + 4) == Blocks(c) then UnlinkedAll(m1, c, arena, Blocks(c)) else m1
  }

  /** A list is empty just when its head points to itself. */
  lemma EmptyRing(m: Memory, d: nat, w: World, c: nat)
    requires Shape(w.h) && DescsAt(d) && InvFree(w) && c < SIZES && RingAt(m, ListNodes(d, w.h, c))
    ensures Load(m, HeadAt(d, c) + 4) == HeadAt(d, c) <==> w.h.free[c] == []
  {
    var s := ListNodes(d, w.h, c);
    assert Linked(m, s[0], s[After(0, |s|)]);
    if w.h.free[c] != [] {
      ListSpaced(d, w, c);
      assert Clear(s[0], s[1]);
    }
  }

  /** sys_malloc on memory answers what the model answers, and memory goes on saying what the model says. */
  lemma MallocRefines(m: Memory, d: nat, w: World, size: nat, form: Form)
    requires Good(w, form) && Refines(m, d, w)
    ensures MallocIn(m, d, w.h, size).1 == Malloc(w.h, size, form).1
    ensures Refines(MallocIn(m, d, w.h, size).0, d, MallocWorld(w, size, form))
  {
    if 0 < size <= 1024 && size <= w.h.poolSize {
      MallocBlockRefines(m, d, w, size, form);
    } else {
      MallocPagesAnswers(m, d, w.h, size, form);
      MallocPagesRefines(m, d, w, size, form, MallocIn(m, d, w.h, size).0, MallocWorld(w, size, form));
    }
  }

  lemma MallocPagesRefines(m: Memory, d: nat, w: World, size: nat, form: Form, m': Memory, w': World)
    requires Good(w, form) && Refines(m, d, w) && (size == 0 || size > 1024 || size > w.h.poolSize)
    requires m' == MallocIn(m, d, w.h, size).0 && w' == MallocWorld(w, size, form)
    ensures Shape(w'.h) && Refines(m', d, w')
  {
    if 1024 < size <= w.h.poolSize && ApplyOutcome(w.h.vm, PagesFor(size)).Found? {
      GrabRefines(m, d, w, size, form);
    } else {
      assert m' == m && w' == w;
    }
  }

  lemma MallocPagesAnswers(m: Memory, d: nat, h: Heap, size: nat, form: Form)
    requires Shape(h) && (size == 0 || size > 1024 || size > h.poolSize)
    ensures MallocIn(m, d, h, size).1 == Malloc(h, size, form).1
  {
  }

  lemma MallocBlockRefines(m: Memory, d: nat, w: World, size: nat, form: Form)
    requires Good(w, form) && Refines(m, d, w) && 0 < size <= 1024 && size <= w.h.poolSize
    ensures MallocIn(m, d, w.h, size).1 == Malloc(w.h, size, form).1
    ensures Refines(MallocIn(m, d, w.h, size).0, d, MallocWorld(w, size, form))
  {
    MallocBlockRefinesTo(m, d, w, size, form, MallocIn(m, d, w.h, size).0, MallocIn(m, d, w.h, size).1,
      MallocWorld(w, size, form));
  }

  lemma MallocBlockRefinesTo(m: Memory, d: nat, w: World, size: nat, form: Form, m': Memory, r: Reply, w': World)
    requires Good(w, form) && Refines(m, d, w) && 0 < size <= 1024 && size <= w.h.poolSize
    requires (m', r) == MallocIn(m, d, w.h, size) && w' == MallocWorld(w, size, form)
    ensures Shape(w'.h) && Refines(m', d, w') && r == Malloc(w.h, size, form).1
  {
    var c := ClassFor(size);
    assert RingAt(m, ListNodes(d, w.h, c));
    EmptyRing(m, d, w, c);
    if w.h.free[c] != [] {
      MallocTakes(m, d, w, size, form, m', r, w');
    } else if ApplyOutcome(w.h.vm, 1).Found? {
      MallocRefills(m, d, w, size, form, m', r, w');
    } else {
      MallocDenies(m, d, w, size, form, m', r, w');
    }
  }

  lemma MallocDenies(m: Memory, d: nat, w: World, size: nat, form: Form, m': Memory, r: Reply, w': World)
    requires Shape(w.h) && 0 < size <= 1024 && size <= w.h.poolSize
    requires Load(m, HeadAt(d, ClassFor(size)) + 4) == HeadAt(d, ClassFor(size)) && w.h.free[ClassFor(size)] == []
    requires !ApplyOutcome(w.h.vm, 1).Found? && (m', r) == MallocIn(m, d, w.h, size) && w' == MallocWorld(w, size, form)
    ensures m' == m && w' == w && r == Malloc(w.h, size, form).1
  {
  }

  lemma MallocTakes(m: Memory, d: nat, w: World, size: nat, form: Form, m': Memory, r: Reply, w': World)
    requires Good(w, form) && Refines(m, d, w) && 0 < size <= 1024 && size <= w.h.poolSize
    requires Load(m, HeadAt(d, ClassFor(size)) + 4) != HeadAt(d, ClassFor(size)) && w.h.free[ClassFor(size)] != []
    requires (m', r) == MallocIn(m, d, w.h, size) && w' == MallocWorld(w, size, form)
    ensures Shape(w'.h) && Refines(m', d, w') && r == Malloc(w.h, size, form).1
  {
    TakeRefines(m, d, w, ClassFor(size), size, form);
  }

  lemma MallocRefills(m: Memory, d: nat, w: World, size: nat, form: Form, m': Memory, r: Reply, w': World)
    requires Good(w, form) && Refines(m, d, w) && 0 < size <= 1024 && size <= w.h.poolSize
    requires Load(m, HeadAt(d, ClassFor(size)) + 4) == HeadAt(d, ClassFor(size)) && w.h.free[ClassFor(size)] == []
    requires ApplyOutcome(w.h.vm, 1).Found? && (m', r) == MallocIn(m, d, w.h, size) && w' == MallocWorld(w, size, form)
    ensures Shape(w'.h) && Refines(m', d, w') && r == Malloc(w.h, size, form).1
  {
    RefillTakeRefines(m, d, w, ClassFor(size), size, form);
  }

  lemma RefillTakeRefines(m: Memory, d: nat, w: World, c: nat, size: nat, form: Form)
    requires Good(w, form) && Refines(m, d, w) && c < SIZES && size <= BlockSize(c)
    requires w.h.free[c] == [] && ApplyOutcome(w.h.vm, 1).Found?
    ensures var w1 := RefillWorld(w, c, form);
            var r := PopBlock(CutPage(m, d, c, PageAddr(ApplyOutcome(w.h.vm, 1).base)), d, c);
            w1.h.free[c] != [] && r.1 == w1.h.free[c][0] && Refines(r.0, d, TakeWorld(w1, c, size))
  {
    RefillKeeps(w, c, form);
    RefillTakeNoneFull(w, c, size, form);
    RefillRefines(m, d, w, c, form);
    TakeRefines(CutPage(m, d, c, PageAddr(ApplyOutcome(w.h.vm, 1).base)), d, RefillWorld(w, c, form), c, size, form);
  }

  /** sys_free on memory finds the header the model has, and does what the model does. */
  lemma FreeRefines(m: Memory, d: nat, w: World, ptr: nat, form: Form)
    requires Good(w, form) && Refines(m, d, w) && ptr in w.live
    ensures Freeable(w.h, ptr) && Refines(FreeIn(m, d, ptr), d, FreeWorld(w, ptr, form))
  {
    LiveIsFreeable(w, ptr, form);
    assert LiveOk(w, ptr);
    ExtentPages(w, ptr, form);
    assert IsArena(w, PageOf(ptr)) && HeaderIn(m, d, w.h, PageOf(ptr));
    match w.owner[PageOf(ptr)] {
      case Head(_) => ReleaseRefines(m, d, w, ptr, form);
      case Small(c) => FreeSmallRefines(m, d, w, ptr, c, form);
    }
  }

  lemma FreeSmallRefines(m: Memory, d: nat, w: World, ptr: nat, c: nat, form: Form)
    requires Good(w, form) && Refines(m, d, w) && ptr in w.live && HEAP_BASE <= ptr && PageOf(ptr) in w.owner
    requires w.owner[PageOf(ptr)] == Small(c) && Freeable(w.h, ptr) && BlockToArena(ptr) == PageAddr(PageOf(ptr))
    requires HeaderIn(m, d, w.h, PageOf(ptr))
    ensures Refines(FreeIn(m, d, ptr), d, FreeWorld(w, ptr, form))
  {
    FreeSmallEffect(w, ptr, c, form);
    FreeInSmall(m, d, ptr, c, PageOf(ptr));
    PutDrainRefines(m, d, w, ptr, c, form, FreeIn(m, d, ptr), FreeWorld(w, ptr, form));
  }

  /** The second half of sys_free, on memory. */
  predicate MemoryAfterPut(m1: Memory, c: nat, arena: nat, m': Memory)
    requires c < SIZES
  {
    m' == if Load(m1, arena + 4) == Blocks(c) then UnlinkedAll(m1, c, arena, Blocks(c)) else m1
  }

  /** And on the model. */
  predicate WorldAfterPut(w1: World, ptr: nat, c: nat, form: Form, w': World)
    requires Shape(w1.h) && HEAP_BASE <= ptr && PageOf(ptr) < |w1.h.vm| && c < SIZES
  {
    w' == if HeaderAt(w1.h, PageOf(ptr)).cnt == Blocks(c) then DrainWorld(w1, ptr, c, form) else w1
  }

  lemma FreeInSmall(m: Memory, d: nat, ptr: nat, c: nat, p: nat)
    requires c < SIZES && BlockToArena(ptr) == PageAddr(p) && Load(m, PageAddr(p)) == DescWord(d, SizeDesc(c))
    ensures MemoryAfterPut(PutBlock(m, d, c, ptr, PageAddr(p)), c, PageAddr(p), FreeIn(m, d, ptr))
  {
    assert (DescWord(d, SizeDesc(c)) - d) / 16 == c;
  }

  lemma FreeSmallEffect(w: World, ptr: nat, c: nat, form: Form)
    requires Good(w, form) && ptr in w.live && PageOf(ptr) in w.owner && w.owner[PageOf(ptr)] == Small(c) && Freeable(w.h, ptr)
    ensures c < SIZES && HeaderAt(w.h, PageOf(ptr)).desc == SizeDesc(c) && PageOf(ptr) in w.h.headers
    ensures var w1 := PutWorld(w, ptr);
            Inv(w1, form) && w1.owner == w.owner && WorldAfterPut(w1, ptr, c, form, FreeWorld(w, ptr, form))
  {
    PutEffect(w, ptr, form);
    PutKeeps(w, ptr, form);
  }

  lemma PutDrainRefines(m: Memory, d: nat, w: World, ptr: nat, c: nat, form: Form, m': Memory, w': World)
    requires Inv(w, form) && Refines(m, d, w) && ptr in w.live && HEAP_BASE <= ptr && PageOf(ptr) in w.owner
    requires w.owner[PageOf(ptr)] == Small(c) && Freeable(w.h, ptr) && HeaderAt(w.h, PageOf(ptr)).desc.SizeDesc?
    requires c < SIZES && Inv(PutWorld(w, ptr), form) && PutWorld(w, ptr).owner == w.owner
    requires MemoryAfterPut(PutBlock(m, d, c, ptr, PageAddr(PageOf(ptr))), c, PageAddr(PageOf(ptr)), m')
    requires WorldAfterPut(PutWorld(w, ptr), ptr, c, form, w')
    ensures Shape(w'.h) && Refines(m', d, w')
  {
    PutRefines(m, d, w, ptr, c, PageAddr(PageOf(ptr)), form);
    MaybeDrainRefines(PutBlock(m, d, c, ptr, PageAddr(PageOf(ptr))), d, PutWorld(w, ptr), ptr, c, form, m', w');
  }

  lemma MaybeDrainRefines(m1: Memory, d: nat, w1: World, ptr: nat, c: nat, form: Form, m': Memory, w': World)
    requires Inv(w1, form) && Refines(m1, d, w1) && HEAP_BASE <= ptr && PageOf(ptr) in w1.owner
    requires c < SIZES && w1.owner[PageOf(ptr)] == Small(c) && PageOf(ptr) < |w1.h.vm|
    requires MemoryAfterPut(m1, c, PageAddr(PageOf(ptr)), m') && WorldAfterPut(w1, ptr, c, form, w')
    ensures Shape(w'.h) && Refines(m', d, w')
  {
    assert IsArena(w1, PageOf(ptr)) && HeaderIn(m1, d, w1.h, PageOf(ptr));
    if HeaderAt(w1.h, PageOf(ptr)).cnt == Blocks(c) {
      DrainRefines(m1, d, w1, ptr, c, form);
    }
  }

  // ---------------------------------------------------------------------------
  // Whole runs, with clients that write
  // ---------------------------------------------------------------------------

  /** mem_block_desc_init: seven empty lists. */
  predicate EmptyLists(m: Memory, d: nat)
  {
    forall c :: 0 <= c < SIZES ==> Linked(m, HeadAt(d, c), HeadAt(d, c))
  }

  datatype Event = Serve(r: Request) | ClientsWrite

  /** The memory a request leaves. */
  function Served(m: Memory, d: nat, h: Heap, r: Request): Memory
  {
    match r
    case Allocate(size) => MallocIn(m, d, h, size).0
    case Release(ptr) => FreeIn(m, d, ptr)
  }

  /** One event: a call that returns, or any writes by the owners of live memory. */
  ghost predicate Follows(m: Memory, w: World, e: Event, m': Memory, w': World, d: nat, form: Form)
    requires Good(w, form)
  {
    match e
    case Serve(r) => Allowed(w, r) && !HangsOn(w, r, form) && w' == Step(w, r, form) && m' == Served(m, d, w.h, r)
    case ClientsWrite => w' == w && OnlyClientsWrote(m, m', w)
  }

  ghost predicate Behaviour(ms: seq<Memory>, ws: seq<World>, es: seq<Event>, d: nat, form: Form)
  {
    && |ms| == |ws| == |es| + 1 && DescsAt(d) && EmptyLists(ms[0], d)
    && (exists pages: nat, poolSize: nat ::
          pages * PAGE_SIZE <= poolSize && HEAP_BASE + poolSize <= TWO_32 && ws[0] == EmptyWorld(pages, poolSize))
    && forall i :: 0 <= i < |es| ==> Good(ws[i], form) && Follows(ms[i], ws[i], es[i], ms[i + 1], ws[i + 1], d, form)
  }

  lemma FollowsKeeps(m: Memory, w: World, e: Event, m': Memory, w': World, d: nat, form: Form)
    requires Good(w, form) && Refines(m, d, w) && Follows(m, w, e, m', w', d, form)
    ensures Good(w', form) && Refines(m', d, w')
  {
    match e
    case Serve(Allocate(size)) => MallocKeeps(w, size, form); MallocRefines(m, d, w, size, form);
    case Serve(Release(ptr)) => FreeKeeps(w, ptr, form); FreeRefines(m, d, w, ptr, form);
    case ClientsWrite => ClientsCannotDamage(m, m', d, w, form);
  }

  lemma StartRefines(m: Memory, d: nat, pages: nat, poolSize: nat)
    requires DescsAt(d) && EmptyLists(m, d) && pages * PAGE_SIZE <= poolSize && HEAP_BASE + poolSize <= TWO_32
    ensures Refines(m, d, EmptyWorld(pages, poolSize))
  {
    var h := EmptyWorld(pages, poolSize).h;
    forall c | 0 <= c < SIZES
      ensures RingAt(m, ListNodes(d, h, c))
    {
      assert ListNodes(d, h, c) == [HeadAt(d, c)];
    }
  }

  /**
    In every state of every run, with clients writing what they like into the memory they own in between,
    the words in memory are the lists and headers of the model, whose extents, free blocks and headers are
    separated; so every call, which knows only the words, does what the model does.
   */
  lemma WordsAreTheHeap(ms: seq<Memory>, ws: seq<World>, es: seq<Event>, d: nat, form: Form, i: nat)
    requires Behaviour(ms, ws, es, d, form) && i < |ms|
    ensures Good(ws[i], form) && Refines(ms[i], d, ws[i]) && Separated(ws[i].h, ws[i].live)
    ensures forall size: nat :: MallocIn(ms[i], d, ws[i].h, size).1 == Malloc(ws[i].h, size, form).1
  {
    RunsRefine(ms, ws, es, d, form, i);
    RefinedStateIsSafe(ms[i], ws[i], d, form);
  }

  lemma {:induction false} RunsRefine(ms: seq<Memory>, ws: seq<World>, es: seq<Event>, d: nat, form: Form, i: nat)
    requires Behaviour(ms, ws, es, d, form) && i < |ms|
    ensures Good(ws[i], form) && Refines(ms[i], d, ws[i])
    decreases i
  {
    if i == 0 {
      BehaviourStarts(ms, ws, es, d, form);
    } else {
      RunsRefine(ms, ws, es, d, form, i - 1);
      NextRefines(ms, ws, es, d, form, i - 1);
    }
  }

  lemma NextRefines(ms: seq<Memory>, ws: seq<World>, es: seq<Event>, d: nat, form: Form, i: nat)
    requires Behaviour(ms, ws, es, d, form) && i < |es| && Good(ws[i], form) && Refines(ms[i], d, ws[i])
    ensures Good(ws[i + 1], form) && Refines(ms[i + 1], d, ws[i + 1])
  {
    assert Follows(ms[i], ws[i], es[i], ms[i + 1], ws[i + 1], d, form);
    FollowsKeeps(ms[i], ws[i], es[i], ms[i + 1], ws[i + 1], d, form);
  }

  lemma BehaviourStarts(ms: seq<Memory>, ws: seq<World>, es: seq<Event>, d: nat, form: Form)
    requires Behaviour(ms, ws, es, d, form)
    ensures Good(ws[0], form) && Refines(ms[0], d, ws[0])
  {
    var pages: nat, poolSize: nat :|
      pages * PAGE_SIZE <= poolSize && HEAP_BASE + poolSize <= TWO_32 && ws[0] == EmptyWorld(pages, poolSize);
    StartRefines(ms[0], d, pages, poolSize);
  }

  lemma RefinedStateIsSafe(m: Memory, w: World, d: nat, form: Form)
    requires Good(w, form) && Refines(m, d, w)
    ensures Separated(w.h, w.live)
    ensures forall size: nat :: MallocIn(m, d, w.h, size).1 == Malloc(w.h, size, form).1
  {
    InvSeparates(w, form);
    forall size: nat
      ensures MallocIn(m, d, w.h, size).1 == Malloc(w.h, size, form).1
    {
      MallocRefines(m, d, w, size, form);
    }
  }
}
