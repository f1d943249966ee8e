/**
  mm/memory.c as it runs: the two bitmaps, and the words of memory that are headers and list links, are
  updated in place, step by step, with the bulk setter as written. The heap knows nothing but those; what
  they mean, and that a call does to them what module Heap says, is in the ghost state.
 */
module KernelHeap {
  import opened Machine
  import opened Bitmap
  import opened List
  import opened Heap
  import opened HeapSafety
  import opened HeapRuns
  import opened HeapWords
  import opened HeapMemory
  import opened HeapCalls

  datatype BlockDesc = BlockDesc(blockSize: nat, blocksEachArena: nat)

  /** mem_block_desc_init: `block_size` is a uint16_t that doubles on every turn. */
  method MemBlockDescInit() returns (descs: seq<BlockDesc>)
    ensures |descs| == SIZES
    ensures forall c :: 0 <= c < SIZES ==> descs[c] == BlockDesc(BlockSize(c), Blocks(c))
  {
    descs := [];
    var blockSize: nat := 16;
    while |descs| < SIZES
      invariant |descs| <= SIZES
      invariant |descs| < SIZES ==> blockSize == BlockSize(|descs|)
      invariant forall c :: 0 <= c < |descs| ==> descs[c] == BlockDesc(BlockSize(c), Blocks(c))
      decreases SIZES - |descs|
    {
      descs := descs + [BlockDesc(blockSize, (PAGE_SIZE - ARENA_HEADER) / blockSize)];
      blockSize := blockSize * 2 % 0x1_0000;
    }
  }

  lemma HeadIsOnce(s: seq<nat>)
    requires Spaced(s)
    ensures forall i :: 0 < i < |s| ==> s[i] != s[0]
  {
    assert forall i :: 0 < i < |s| ==> Clear(s[0], s[i]);
  }

  /** Bitmaps after a call: those of the state the call leaves. */
  predicate SameBits(h: Heap, h': Heap)
  {
    h.vm == h'.vm && h.phys == h'.phys && h.poolSize == h'.poolSize && h.userStart == h'.userStart
  }

  /** What the method for whole pages has to show: which words and bits sys_malloc leaves. */
  lemma PagesServed(m: Memory, d: nat, w: World, size: nat)
    requires Good(w, Literal) && Refines(m, d, w) && 1024 < size <= w.h.poolSize
    ensures var w' := MallocWorld(w, size, Literal);
            var m' := MallocIn(m, d, w.h, size).0;
            Good(w', Literal) && Refines(m', d, w') && SameBits(AllocPages(w.h, PagesFor(size), Literal).0, w'.h)
    ensures match AllocPages(w.h, PagesFor(size), Literal).1
            case Granted(a) =>
              && MallocIn(m, d, w.h, size).0 == NewArena(m, a, PagesFor(size), 0, PagesFor(size))
              && Malloc(w.h, size, Literal).1 == Granted(a + ARENA_HEADER)
            case r => MallocIn(m, d, w.h, size).0 == m && Malloc(w.h, size, Literal).1 == r
  {
    MallocRefines(m, d, w, size, Literal);
    MallocKeeps(w, size, Literal);
  }

  /** And for blocks: the state that is left is good, and in the words. */
  lemma BlockServed(m: Memory, d: nat, w: World, size: nat, c: nat)
    requires Good(w, Literal) && Refines(m, d, w) && 0 < size <= 1024 && size <= w.h.poolSize && c == ClassFor(size)
    ensures Good(MallocWorld(w, size, Literal), Literal)
    ensures Refines(MallocIn(m, d, w.h, size).0, d, MallocWorld(w, size, Literal))
    ensures Spaced(ListNodes(d, w.h, c)) && RingAt(m, ListNodes(d, w.h, c))
  {
    MallocRefines(m, d, w, size, Literal);
    MallocKeeps(w, size, Literal);
    ListSpaced(d, w, c);
  }

  /** Its bits. */
  lemma BlockBits(w: World, size: nat, c: nat)
    requires Shape(w.h) && 0 < size <= 1024 && size <= w.h.poolSize && c == ClassFor(size)
    ensures SameBits(if w.h.free[c] == [] then AllocPages(w.h, 1, Literal).0 else w.h, MallocWorld(w, size, Literal).h)
  {
  }

  /** The words of the state that is left, and the answer. */
  lemma BlockWords(m: Memory, d: nat, w: World, size: nat, c: nat)
    requires Good(w, Literal) && Refines(m, d, w) && 0 < size <= 1024 && size <= w.h.poolSize && c == ClassFor(size)
    ensures if w.h.free[c] != [] then MallocIn(m, d, w.h, size) == Popped(m, d, c)
            else match AllocPages(w.h, 1, Literal).1
              case Granted(a) => MallocIn(m, d, w.h, size) == Popped(CutPage(m, d, c, a), d, c)
              case r => MallocIn(m, d, w.h, size) == (m, r)
  {
    assert RingAt(m, ListNodes(d, w.h, c));
    EmptyRing(m, d, w, c);
  }

  lemma BlockAnswer(m: Memory, d: nat, w: World, size: nat)
    requires Good(w, Literal) && Refines(m, d, w)
    ensures MallocIn(m, d, w.h, size).1 == Malloc(w.h, size, Literal).1
  {
    MallocRefines(m, d, w, size, Literal);
  }

  /** What sys_free reads at a live pointer. */
  lemma FreeReads(m: Memory, d: nat, w: World, ptr: nat)
    requires Good(w, Literal) && Refines(m, d, w) && ptr in w.live
    ensures Freeable(w.h, ptr) && BlockToArena(ptr) == PageAddr(PageOf(ptr))
    ensures var p := PageOf(ptr);
            var hd := HeaderAt(w.h, p);
            && Load(m, PageAddr(p)) == DescWord(d, hd.desc) && Load(m, PageAddr(p) + 4) == hd.cnt
            && p in w.owner && (hd.desc.SizeDesc? ==> w.owner[p] == Small(hd.desc.c))
  {
    LiveIsFreeable(w, ptr, Literal);
    ExtentPages(w, ptr, Literal);
    LiveHeader(w, ptr);
    HeaderRead(m, d, w, PageOf(ptr));
  }

  lemma LiveHeader(w: World, ptr: nat)
    requires Shape(w.h) && InvLarge(w) && InvSmall(w) && InvLive(w) && ptr in w.live && HEAP_BASE <= ptr
    ensures IsArena(w, PageOf(ptr)) && PageOf(ptr) in w.h.headers
    ensures match w.h.headers[PageOf(ptr)].desc
            case NullDesc => true
            case SizeDesc(c) => w.owner[PageOf(ptr)] == Small(c)
  {
    assert LiveOk(w, ptr);
    match w.owner[PageOf(ptr)]
    case Head(_) => assert LargeOk(w, PageOf(ptr));
    case Small(_) => assert SmallOk(w, PageOf(ptr));
  }

  /** What it leaves: the words of FreeIn, and a good state. */
  lemma FreeServed(m: Memory, d: nat, w: World, ptr: nat)
    requires Good(w, Literal) && Refines(m, d, w) && ptr in w.live
    ensures Freeable(w.h, ptr) && Good(FreeWorld(w, ptr, Literal), Literal)
    ensures Refines(FreeIn(m, d, ptr), d, FreeWorld(w, ptr, Literal))
  {
    FreeKeeps(w, ptr, Literal);
    FreeRefines(m, d, w, ptr, Literal);
  }

  lemma FreePagesBits(w: World, ptr: nat)
    requires Shape(w.h) && Freeable(w.h, ptr) && HeaderAt(w.h, PageOf(ptr)).desc == NullDesc
    ensures SameBits(FreePages(w.h, ptr, HeaderAt(w.h, PageOf(ptr)).cnt, Literal), FreeWorld(w, ptr, Literal).h)
  {
  }

  lemma PutKeepsBits(w: World, ptr: nat, c: nat)
    requires Shape(w.h) && Freeable(w.h, ptr) && HeaderAt(w.h, PageOf(ptr)).desc == SizeDesc(c)
    requires PageOf(ptr) in w.owner && w.owner[PageOf(ptr)] == Small(c)
    ensures SameBits(w.h, PutWorld(w, ptr).h) && IsArena(PutWorld(w, ptr), PageOf(ptr))
  {
  }

  lemma HeaderRead(m: Memory, d: nat, w: World, p: nat)
    requires Shape(w.h) && Refines(m, d, w) && IsArena(w, p)
    ensures Load(m, PageAddr(p)) == DescWord(d, HeaderAt(w.h, p).desc) && Load(m, PageAddr(p) + 4) == HeaderAt(w.h, p).cnt
  {
    assert HeaderIn(m, d, w.h, p);
  }

  lemma BitsAfterPut(h: Heap, w1: World, w': World, ptr: nat, c: nat, cnt: int)
    requires Shape(h) && Shape(w1.h) && SameBits(h, w1.h) && HEAP_BASE <= ptr && PageOf(ptr) < |h.vm| && c < SIZES
    requires WorldAfterPut(w1, ptr, c, Literal, w') && cnt == HeaderAt(w1.h, PageOf(ptr)).cnt
    ensures SameBits(if cnt == Blocks(c) then FreePages(h, ptr, 1, Literal) else h, w'.h)
  {
    DrainBits(h, w1, ptr, c);
  }

  /** What the method for blocks has to show of the words. */
  lemma FreeBlockWords(m: Memory, d: nat, w: World, ptr: nat, c: nat, arena: nat, m': Memory)
    requires Good(w, Literal) && Refines(m, d, w) && ptr in w.live && HEAP_BASE <= ptr && arena == PageAddr(PageOf(ptr))
    requires HeaderAt(w.h, PageOf(ptr)).desc == SizeDesc(c) && m' == FreeIn(m, d, ptr)
    ensures c < SIZES && MemoryAfterPut(PutBlock(m, d, c, ptr, arena), c, arena, m')
  {
    FreeReads(m, d, w, ptr);
    FreeInSmall(m, d, ptr, c, PageOf(ptr));
  }

  /** And of the bits. */
  lemma FreeBlockCount(m1: Memory, d: nat, w: World, ptr: nat, c: nat, arena: nat, w1: World, w': World)
    requires Shape(w.h) && Shape(w1.h) && SameBits(w.h, w1.h) && Refines(m1, d, w1) && HEAP_BASE <= ptr
    requires IsArena(w1, PageOf(ptr)) && PageOf(ptr) < |w.h.vm|
    requires arena == PageAddr(PageOf(ptr)) && c < SIZES && WorldAfterPut(w1, ptr, c, Literal, w')
    ensures SameBits(if Load(m1, arena + 4) == Blocks(c) then FreePages(w.h, ptr, 1, Literal) else w.h, w'.h)
  {
    HeaderRead(m1, d, w1, PageOf(ptr));
    BitsAfterPut(w.h, w1, w', ptr, c, Load(m1, arena + 4));
  }

  lemma FreeLargeServed(m: Memory, d: nat, w: World, ptr: nat) returns (w': World)
    requires Good(w, Literal) && Refines(m, d, w) && ptr in w.live && HEAP_BASE <= ptr
    requires HeaderAt(w.h, PageOf(ptr)).desc == NullDesc
    ensures Freeable(w.h, ptr) && w' == FreeWorld(w, ptr, Literal) && Good(w', Literal) && Refines(m, d, w')
    ensures Load(m, PageAddr(PageOf(ptr)) + 4) == HeaderAt(w.h, PageOf(ptr)).cnt
    ensures SameBits(FreePages(w.h, ptr, HeaderAt(w.h, PageOf(ptr)).cnt, Literal), w'.h)
  {
    FreeReads(m, d, w, ptr);
    FreeServed(m, d, w, ptr);
    FreePagesBits(w, ptr);
    w' := FreeWorld(w, ptr, Literal);
    assert FreeIn(m, d, ptr) == m;
  }

  lemma OneAfterPut(m1: Memory, c: nat, arena: nat, m: Memory, m': Memory)
    requires c < SIZES && MemoryAfterPut(m1, c, arena, m) && MemoryAfterPut(m1, c, arena, m')
    ensures m == m'
  {
  }

  lemma DrainBits(h: Heap, w1: World, ptr: nat, c: nat)
    requires Shape(h) && Shape(w1.h) && SameBits(h, w1.h) && HEAP_BASE <= ptr && PageOf(ptr) < |h.vm| && c < SIZES
    ensures SameBits(FreePages(h, ptr, 1, Literal), DrainWorld(w1, ptr, c, Literal).h)
  {
    SamePhysFree(h, w1.h.(free := w1.h.free[c := Unlinked(w1.h.free[c], PageOf(ptr), c, Blocks(c))]), ptr, 1);
  }

  lemma {:induction false} SamePhysFree(h: Heap, h': Heap, v: nat, n: nat)
    requires Shape(h) && Shape(h') && SameBits(h, h') && HEAP_BASE <= v && PageOf(v) + n <= |h.vm|
    ensures PhysFree(h, v, n) == PhysFree(h', v, n)
    decreases n
  {
    if n > 0 { SamePhysFree(h, h', v, n - 1); }
  }

  function Popped(m: Memory, d: nat, c: nat): (Memory, Reply)
    requires c < SIZES
  {
    (PopBlock(m, d, c).0, Granted(PopBlock(m, d, c).1))
  }

  class KernelHeap {
    const vm: PageBitmap
    const phys: PageBitmap
    const poolSize: nat
    const descs: nat
    var words: Memory
    ghost var world: World

    ghost function State(): Heap
      reads this, vm.bytes, phys.bytes
    {
      Heap(vm.Bits(), phys.Bits(), world.h.headers, world.h.free, poolSize, HEAP_BASE - PAGE_OFFSET + poolSize)
    }

    /** What the page layer needs. */
    ghost predicate Sane()
      reads this, vm.bytes, phys.bytes
    {
      vm.Valid() && phys.Valid() && vm.bytes != phys.bytes && Shape(State())
    }

    /** Between two calls: the bitmaps and the words are those of a good state. */
    ghost predicate Valid()
      reads this, vm.bytes, phys.bytes
    {
      Sane() && State() == world.h && Good(world, Literal) && Refines(words, descs, world)
    }

    constructor (bitmapBytes: nat, poolSize: nat, descs: nat)
      requires bitmapBytes * BITS_PER_BYTE * PAGE_SIZE <= poolSize && HEAP_BASE + poolSize <= TWO_32 && DescsAt(descs)
      ensures Valid() && fresh(vm.bytes) && fresh(phys.bytes)
      ensures world == EmptyWorld(bitmapBytes * BITS_PER_BYTE, poolSize) && this.descs == descs
    {
      vm := new PageBitmap(bitmapBytes);
      phys := new PageBitmap(bitmapBytes);
      this.poolSize := poolSize;
      this.descs := descs;
      world := EmptyWorld(bitmapBytes * BITS_PER_BYTE, poolSize);
      words := map[];
      new;
      var c := 0;
      while c < SIZES
        invariant c <= SIZES && fresh(vm.bytes) && fresh(phys.bytes) && Sane() && State() == world.h
        invariant world == EmptyWorld(bitmapBytes * BITS_PER_BYTE, poolSize)
        invariant forall k :: 0 <= k < c ==> Linked(words, HeadAt(descs, k), HeadAt(descs, k))
      {
        ListInit(HeadAt(descs, c));
        c := c + 1;
      }
      StartRefines(words, descs, bitmapBytes * BITS_PER_BYTE, poolSize);
    }

    // The links, word by word

    /** list_init */
    method ListInit(list: nat)
      modifies this`words
      ensures words == old(words)[list + 4 := list][list := list]
    {
      words := words[list + 4 := list];
      words := words[list := list];
    }

    /** list_add_prev over __list_add */
    method ListAddPrev(head: nat, x: nat)
      modifies this`words
      ensures words == AddPrev(old(words), head, x)
    {
      var prev := Load(words, head);
      words := words[prev + 4 := x];
      words := words[x + 4 := head];
      words := words[head := x];
      words := words[x := prev];
    }

    /** __list_del between the neighbours of x */
    method ListUnlink(x: nat)
      modifies this`words
      ensures words == Unhooked(old(words), x)
    {
      var prev, next := Load(words, x), Load(words, x + 4);
      words := words[next := prev];
      words := words[prev + 4 := next];
    }

    /** list_empty over list_len: the walk around the ring ends, at the head. */
    method ListEmpty(head: nat, ghost s: seq<nat>) returns (empty: bool)
      requires RingAt(words, s) && Spaced(s) && s[0] == head
      ensures empty <==> |s| == 1
    {
      var p, len := head, 0;
      while Load(words, p + 4) != head
        invariant len < |s| && p == s[len]
        decreases |s| - len
      {
        assert Linked(words, s[len], s[After(len, |s|)]);
        len := len + 1;
        p := Load(words, p + 4);
      }
      assert Linked(words, s[len], s[After(len, |s|)]);
      HeadIsOnce(s);
      empty := !(len > 0);
    }

    // Pages

    /** vaddr_alloc(PF_KERNEL, n): finds a run and marks it bit by bit. */
    method VaddrAlloc(n: nat) returns (found: Outcome)
      requires vm.Valid() && n < TWO_32
      modifies vm.bytes
      ensures found == ApplyOutcome(old(vm.Bits()), n)
      ensures vm.Bits() == if found.Found? then SetRange(old(vm.Bits()), found.base, n, true) else old(vm.Bits())
    {
      found := vm.Apply(n);
      if found.Found? {
        ghost var before := vm.Bits();
        var i := 0;
        assert SetRange(before, found.base, 0, true) == before;
        while i < n
          invariant i <= n
          invariant vm.Bits() == SetRange(before, found.base, i, true)
        {
          vm.SetBit(found.base + i, true);
          assert SetRange(before, found.base, i, true)[found.base + i := true] == SetRange(before, found.base, i + 1, true);
          i := i + 1;
        }
      }
    }

    /** The second half of page_alloc: the frames behind a run are marked with one bulk call. */
    method MarkFrames(base: nat, n: nat) returns (v: nat)
      requires n > 0 ==> base < phys.bytes.Length * BITS_PER_BYTE
      modifies phys.bytes
      ensures v == PageAddr(base) && phys.Bits() == SetFirst(old(phys.Bits()), base, n, true)
    {
      v := HEAP_BASE + base * PAGE_SIZE;
      var bit := (v - PAGE_OFFSET - (HEAP_BASE - PAGE_OFFSET)) / PAGE_SIZE;
      assert bit == base;
      phys.SetBits(bit, n, true);
    }

    /** page_alloc(PF_KERNEL, n) */
    method PageAlloc(n: nat) returns (r: Reply)
      requires Sane() && n < TWO_32
      modifies vm.bytes, phys.bytes
      ensures Sane() && (State(), r) == AllocPages(old(State()), n, Literal)
    {
      var found := VaddrAlloc(n);
      match found {
        case NoneFree => r := Denied;
        case AssertFails => r := Hangs(false);
        case LoopsForever => r := Hangs(true);
        case Found(base) =>
          var v := MarkFrames(base, n);
          r := Granted(v);
      }
    }

    /** page_free(PF_KERNEL, v, n) over phy_free and vaddr_free */
    method PageFree(v: nat, n: nat)
      requires Sane() && HEAP_BASE <= v && PageOf(v) + n <= |State().vm| && n >= 1
      modifies vm.bytes, phys.bytes
      ensures Sane() && State() == FreePages(old(State()), v, n, Literal)
    {
      ghost var before := State();
      var pa := v - PAGE_OFFSET;
      var i := 0;
      while i < n
        invariant i <= n && pa == v - PAGE_OFFSET + i * PAGE_SIZE
        invariant phys.Bits() == PhysFree(before, v, i)
        invariant vm.Bits() == before.vm
      {
        if pa < HEAP_BASE - PAGE_OFFSET + poolSize {
          phys.SetBit((pa - (HEAP_BASE - PAGE_OFFSET)) / PAGE_SIZE, false);
        }
        pa := pa + PAGE_SIZE;
        i := i + 1;
      }
      vm.SetBits((v - HEAP_BASE) / PAGE_SIZE, n, false);
    }

    // sys_malloc

    /** The class search of sys_malloc. */
    method FindClass(size: nat) returns (c: nat)
      requires size <= 1024
      ensures c == ClassFor(size)
    {
      c := 0;
      while size > BlockSize(c)
        invariant c < SIZES && ClassFor(size) == ClassFrom(size, c)
        decreases SIZES - c
      {
        c := c + 1;
      }
    }

    /** memset of new pages, and their header */
    method StartArena(arena: nat, pages: nat, desc: nat, cnt: nat)
      modifies this`words
      ensures words == NewArena(old(words), arena, pages, desc, cnt)
    {
      words := Cleared(words, arena, pages * PAGE_SIZE);
      words := words[arena := desc];
      words := words[arena + 4 := cnt];
    }

    /** The branch of sys_malloc that takes whole pages. */
    method MallocPages(size: nat) returns (r: Reply)
      requires Valid() && 1024 < size <= poolSize
      modifies this, vm.bytes, phys.bytes
      ensures Valid() && world == MallocWorld(old(world), size, Literal) && r == Malloc(old(world.h), size, Literal).1
    {
      PagesServed(words, descs, world, size);
      ghost var w' := MallocWorld(world, size, Literal);
      var n := PagesFor(size);
      r := PageAlloc(n);
      match r {
        case Granted(a) =>
          StartArena(a, n, 0, n);
          r := Granted(a + ARENA_HEADER);
        case _ =>
      }
      world := w';
    }

    /** The blocks of a new arena are linked one by one, in order. */
    method LinkBlocks(arena: nat, c: nat)
      requires c < SIZES
      modifies this`words
      ensures words == LinkedFirst(old(words), descs, c, arena, Blocks(c))
    {
      var i := 0;
      while i < Blocks(c)
        invariant i <= Blocks(c) && words == LinkedFirst(old(words), descs, c, arena, i)
      {
        ListAddPrev(HeadAt(descs, c), ArenaToBlock(arena, c, i));
        i := i + 1;
      }
    }

    /** list_pop, memset and the counter. */
    method TakeBlock(c: nat) returns (x: nat)
      requires c < SIZES
      modifies this`words
      ensures (words, x) == PopBlock(old(words), descs, c)
    {
      x := Load(words, HeadAt(descs, c) + 4);
      ListUnlink(x);
      words := words[x + 4 := 0];
      words := words[x := 0];
      words := Cleared(words, x, BlockSize(c));
      var arena := BlockToArena(x);
      words := words[arena + 4 := Plus(Load(words, arena + 4), -1)];
    }

    /** A new page, if there is one, is cut into blocks. */
    method RefillList(c: nat) returns (r: Reply)
      requires Sane() && c < SIZES
      modifies this`words, vm.bytes, phys.bytes
      ensures Sane() && (State(), r) == AllocPages(old(State()), 1, Literal)
      ensures words == if r.Granted? then CutPage(old(words), descs, c, r.ptr) else old(words)
    {
      r := PageAlloc(1);
      if r.Granted? {
        CutArena(r.ptr, c);
      }
    }

    method CutArena(arena: nat, c: nat)
      requires c < SIZES
      modifies this`words
      ensures words == CutPage(old(words), descs, c, arena)
    {
      StartArena(arena, 1, descs + 16 * c, Blocks(c));
      LinkBlocks(arena, c);
    }

    /** The branch of sys_malloc that serves a block. */
    method ServeBlock(size: nat, ghost s: seq<nat>) returns (r: Reply)
      requires Sane() && 0 < size <= 1024 && RingAt(words, s) && Spaced(s) && s[0] == HeadAt(descs, ClassFor(size))
      modifies this`words, vm.bytes, phys.bytes
      ensures Sane()
      ensures State() == if |s| == 1 then AllocPages(old(State()), 1, Literal).0 else old(State())
      ensures var c := ClassFor(size);
              if |s| > 1 then (words, r) == Popped(old(words), descs, c)
              else match AllocPages(old(State()), 1, Literal).1
                case Granted(a) => (words, r) == Popped(CutPage(old(words), descs, c, a), descs, c)
                case reply => words == old(words) && r == reply
    {
      var c := FindClass(size);
      var empty := ListEmpty(HeadAt(descs, c), s);
      r := Denied;
      if empty {
        r := RefillList(c);
      }
      if !empty || r.Granted? {
        var x := TakeBlock(c);
        r := Granted(x);
      }
    }

    method MallocBlock(size: nat) returns (r: Reply)
      requires Valid() && 0 < size <= 1024 && size <= poolSize
      modifies this, vm.bytes, phys.bytes
      ensures Valid() && world == MallocWorld(old(world), size, Literal) && r == Malloc(old(world.h), size, Literal).1
    {
      ghost var c := ClassFor(size);
      BlockServed(words, descs, world, size, c);
      BlockBits(world, size, c);
      BlockWords(words, descs, world, size, c);
      BlockAnswer(words, descs, world, size);
      ghost var w' := MallocWorld(world, size, Literal);
      r := ServeBlock(size, ListNodes(descs, world.h, c));
      world := w';
    }

    /** sys_malloc */
    method SysMalloc(size: nat) returns (r: Reply)
      requires Valid()
      modifies this, vm.bytes, phys.bytes
      ensures Valid() && world == MallocWorld(old(world), size, Literal) && r == Malloc(old(world.h), size, Literal).1
    {
      if size > poolSize || size <= 0 {
        return Denied;
      }
      if size > 1024 {
        r := MallocPages(size);
      } else {
        r := MallocBlock(size);
      }
    }

    // sys_free

    /** The loop of sys_free that unlinks every block of a page with list_del_safe. */
    method UnlinkBlocks(arena: nat, c: nat)
      requires c < SIZES
      modifies this`words
      ensures words == UnlinkedAll(old(words), c, arena, Blocks(c))
    {
      var i := 0;
      while i < Blocks(c)
        invariant i <= Blocks(c) && words == UnlinkedAll(old(words), c, arena, i)
      {
        var x := ArenaToBlock(arena, c, i);
        ListUnlink(x);
        ListInit(x);
        i := i + 1;
      }
    }

    /** sys_free of whole pages. */
    method FreeLarge(ptr: nat, arena: nat)
      requires Valid() && ptr in world.live && HEAP_BASE <= ptr && HeaderAt(world.h, PageOf(ptr)).desc == NullDesc
      requires arena == PageAddr(PageOf(ptr))
      modifies this, vm.bytes, phys.bytes
      ensures Valid() && Freeable(old(world.h), ptr) && world == FreeWorld(old(world), ptr, Literal)
    {
      ghost var w' := FreeLargeServed(words, descs, world, ptr);
      var n := Load(words, arena + 4);
      PageFree(ptr, n);
      world := w';
    }

    /** sys_free of a block: back on its list, and the page with it when it was the last one missing. */
    method FreeBlock(ptr: nat, arena: nat, c: nat)
      requires Valid() && ptr in world.live && HEAP_BASE <= ptr && HeaderAt(world.h, PageOf(ptr)).desc == SizeDesc(c)
      requires arena == PageAddr(PageOf(ptr))
      modifies this, vm.bytes, phys.bytes
      ensures Valid() && Freeable(old(world.h), ptr) && world == FreeWorld(old(world), ptr, Literal)
    {
      FreeReads(words, descs, world, ptr);
      FreeServed(words, descs, world, ptr);
      FreeSmallEffect(world, ptr, c, Literal);
      ghost var m', w' := FreeIn(words, descs, ptr), FreeWorld(world, ptr, Literal);
      FreeBlockWords(words, descs, world, ptr, c, arena, m');
      PutRefines(words, descs, world, ptr, c, arena, Literal);
      PutKeepsBits(world, ptr, c);
      ghost var m1 := PutBlock(words, descs, c, ptr, arena);
      FreeBlockCount(m1, descs, world, ptr, c, arena, PutWorld(world, ptr), w');
      Finish(ptr, arena, c, m1, m', w');
    }

    /** Words and bits become those of the state `w'`. */
    method Finish(ptr: nat, arena: nat, c: nat, ghost m1: Memory, ghost m': Memory, ghost w': World)
      requires Valid() && HEAP_BASE <= ptr && PageOf(ptr) < |world.h.vm| && c < SIZES
      requires Good(w', Literal) && Refines(m', descs, w')
      requires m1 == PutBlock(words, descs, c, ptr, arena) && MemoryAfterPut(m1, c, arena, m')
      requires SameBits(if Load(m1, arena + 4) == Blocks(c) then FreePages(world.h, ptr, 1, Literal) else world.h, w'.h)
      modifies this, vm.bytes, phys.bytes
      ensures Valid() && world == w'
    {
      PutAndDrain(ptr, arena, c);
      OneAfterPut(m1, c, arena, m', words);
      world := w';
    }

    /** The block is linked and counted; with the last one all are unlinked and the page is given back. */
    method PutAndDrain(ptr: nat, arena: nat, c: nat)
      requires Sane() && HEAP_BASE <= ptr && PageOf(ptr) < |State().vm| && c < SIZES
      modifies this`words, vm.bytes, phys.bytes
      ensures Sane() && MemoryAfterPut(PutBlock(old(words), descs, c, ptr, arena), c, arena, words)
      ensures State() == if Load(PutBlock(old(words), descs, c, ptr, arena), arena + 4) == Blocks(c)
                         then FreePages(old(State()), ptr, 1, Literal) else old(State())
    {
      ListAddPrev(HeadAt(descs, c), ptr);
      words := words[arena + 4 := Plus(Load(words, arena + 4), 1)];
      if Load(words, arena + 4) == Blocks(c) {
        UnlinkBlocks(arena, c);
        PageFree(ptr, 1);
      }
    }

    /** sys_free; not `ok` is one of its two assertions, which a pointer below the heap, or NULL, trips. */
    method SysFree(ptr: nat) returns (ok: bool)
      requires Valid() && (HEAP_BASE <= ptr ==> ptr in world.live)
      modifies this, vm.bytes, phys.bytes
      ensures Valid() && (ok <==> HEAP_BASE <= ptr)
      ensures ok ==> Freeable(old(world.h), ptr) && world == FreeWorld(old(world), ptr, Literal)
      ensures !ok ==> world == old(world) && words == old(words)
    {
      if ptr == 0 || ptr < HEAP_BASE {
        return false;
      }
      FreeReads(words, descs, world, ptr);
      var arena := BlockToArena(ptr);
      var desc := Load(words, arena);
      if desc == 0 {
        FreeLarge(ptr, arena);
      } else {
        FreeBlock(ptr, arena, (desc - descs) / 16);
      }
      return true;
    }
  }
}
