/**
  The kernel heap of mm/memory.c on its PF_KERNEL path: page runs taken first fit from a bitmap, cut
  into arenas of one block size each, with one free list per size and a counter in every arena header.

  Memory is addresses. An arena header is keyed by the number of its page; a header is never erased,
  so a stale one stays behind when its page goes back, as in the source.
 */
module Heap {
  import opened Machine
  import opened Bitmap
  import opened List

  const PAGE_SIZE := 4096
  const PAGE_OFFSET := 0xc000_0000
  const HEAP_BASE := 0xc100_0000
  const ARENA_HEADER := 8
  const SIZES := 7

  // ---------------------------------------------------------------------------
  // Address arithmetic
  // ---------------------------------------------------------------------------

  function PageAddr(p: nat): nat
  {
    HEAP_BASE + p * PAGE_SIZE
  }

  function PageOf(a: nat): nat
    requires HEAP_BASE <= a
  {
    (a - HEAP_BASE) / PAGE_SIZE
  }

  /** `& PAGE_MASK` on a 32-bit address drops the offset in the page. */
  lemma MaskDropsOffset(a: bv32)
    ensures a & 0xfffff000 == a - a % 0x1000
  {
  }

  /** block_2_arena on an integer address. */
  function BlockToArena(a: nat): nat
  {
    a - a % PAGE_SIZE
  }

  function BlockSize(c: nat): nat
    requires c < SIZES
  {
    match c
    case 0 => 16 case 1 => 32 case 2 => 64 case 3 => 128
    case 4 => 256 case 5 => 512 case _ => 1024
  }

  function Blocks(c: nat): nat
    requires c < SIZES
  {
    (PAGE_SIZE - ARENA_HEADER) / BlockSize(c)
  }

  /** arena_2_block */
  function ArenaToBlock(arena: nat, c: nat, i: nat): nat
    requires c < SIZES
  {
    arena + ARENA_HEADER + i * BlockSize(c)
  }

  /** The i-th block of the page p when it is cut into blocks of size c. */
  function Block(p: nat, c: nat, i: nat): nat
    requires c < SIZES
  {
    ArenaToBlock(PageAddr(p), c, i)
  }

  function IndexOf(x: nat, c: nat): int
    requires HEAP_BASE <= x && c < SIZES
  {
    (x - PageAddr(PageOf(x)) - ARENA_HEADER) / BlockSize(c)
  }

  /** A block lies inside its page, behind the header, and its address gives page and index back. */
  lemma BlockRoundTrip(p: nat, c: nat, i: nat)
    requires c < SIZES && i < Blocks(c)
    ensures PageAddr(p) + ARENA_HEADER <= Block(p, c, i)
    ensures Block(p, c, i) + BlockSize(c) <= PageAddr(p + 1)
    ensures PageOf(Block(p, c, i)) == p && IndexOf(Block(p, c, i), c) == i
    ensures BlockToArena(Block(p, c, i)) == PageAddr(p)
  {
    OffsetBounds(c, i);
    PageSplit(p, ARENA_HEADER + i * BlockSize(c));
  }

  lemma OffsetBounds(c: nat, i: nat)
    requires c < SIZES && i < Blocks(c)
    ensures 0 <= i * BlockSize(c) && i * BlockSize(c) + BlockSize(c) <= PAGE_SIZE - ARENA_HEADER
    ensures i * BlockSize(c) / BlockSize(c) == i
  {
    if c == 0 {} else if c == 1 {} else if c == 2 {} else if c == 3 {} else if c == 4 {} else if c == 5 {} else {}
  }

  lemma PageSplit(p: nat, o: nat)
    requires o < PAGE_SIZE
    ensures PageOf(PageAddr(p) + o) == p && BlockToArena(PageAddr(p) + o) == PageAddr(p)
  {
  }

  /** Two blocks of one size are the same or do not overlap. */
  lemma BlocksApart(p: nat, i: nat, p': nat, i': nat, c: nat)
    requires c < SIZES && i < Blocks(c) && i' < Blocks(c)
    requires p != p' || i != i'
    ensures Apart(Block(p, c, i), BlockSize(c), Block(p', c, i'), BlockSize(c))
  {
    BlockRoundTrip(p, c, i);
    BlockRoundTrip(p', c, i');
    if p == p' {
      if c == 0 {} else if c == 1 {} else if c == 2 {} else if c == 3 {} else if c == 4 {} else if c == 5 {} else {}
    }
  }

  predicate Apart(a: int, m: int, b: int, n: int)
  {
    a + m <= b || b + n <= a
  }

  /** The class search of sys_malloc: the first size that is large enough. */
  function ClassFor(size: nat): (c: nat)
    requires size <= 1024
    ensures c < SIZES && size <= BlockSize(c)
    ensures forall c' :: 0 <= c' < c ==> BlockSize(c') < size
  {
    ClassFrom(size, 0)
  }

  function ClassFrom(size: nat, from: nat): (c: nat)
    requires size <= 1024 && from < SIZES
    ensures from <= c < SIZES && size <= BlockSize(c)
    ensures forall c' :: from <= c' < c ==> BlockSize(c') < size
    decreases SIZES - from
  {
    if size <= BlockSize(from) then from else ClassFrom(size, from + 1)
  }

  /** `DIV_ROUND_UP(size + sizeof(struct arena), PAGE_SIZE)` */
  function PagesFor(size: nat): (n: nat)
    ensures (n - 1) * PAGE_SIZE < size + ARENA_HEADER <= n * PAGE_SIZE
    ensures size > 1024 ==> n >= 1
    ensures n <= 1 <==> size <= PAGE_SIZE - ARENA_HEADER
  {
    (size + ARENA_HEADER + PAGE_SIZE - 1) / PAGE_SIZE
  }

  // ---------------------------------------------------------------------------
  // The heap and its operations
  // ---------------------------------------------------------------------------

  /** Which bulk setter the page layer calls: the loop as written, or as its header documents it. */
  datatype Form = Literal | Documented

  function SetBitsAs(form: Form, s: seq<bool>, i: nat, n: nat, on: bool): (r: seq<bool>)
    requires i + n <= |s|
    ensures |r| == |s|
  {
    match form
    case Literal => SetFirst(s, i, n, on)
    case Documented => SetRange(s, i, n, on)
  }

  /** `desc` of an arena header: NULL, or the descriptor of one of the seven sizes. */
  datatype Desc = NullDesc | SizeDesc(c: nat)

  datatype Header = Header(desc: Desc, cnt: int)

  datatype Heap = Heap(
    vm: seq<bool>,               // kernel_vm_pool.vm_bitmap
    phys: seq<bool>,             // kernel_pool.pool_bitmap
    headers: map<nat, Header>,   // arena headers by page number
    free: seq<seq<nat>>,         // the seven free lists, in list order
    poolSize: nat,               // kernel_pool.pool_size
    userStart: nat)              // user_pool.phy_addr_start

  /** What mem_pool_init establishes (module Boot) and nothing changes. */
  predicate Shape(h: Heap)
  {
    && |h.phys| == |h.vm| && |h.free| == SIZES
    && |h.vm| * PAGE_SIZE <= h.poolSize && HEAP_BASE + h.poolSize <= TWO_32
    && h.userStart == HEAP_BASE - PAGE_OFFSET + h.poolSize
  }

  /** The heap keeps its shape, its number of pages and its size. */
  predicate Keeps(h: Heap, h': Heap)
  {
    Shape(h') && |h'.vm| == |h.vm| && h'.poolSize == h.poolSize
  }

  datatype Reply = Granted(ptr: nat) | Denied | Hangs(endless: bool)

  function HeaderAt(h: Heap, p: nat): Header
  {
    if p in h.headers then h.headers[p] else Header(NullDesc, 0)
  }

  /** page_alloc(PF_KERNEL, n) with vaddr_alloc inlined. */
  function AllocPages(h: Heap, n: nat, form: Form): (r: (Heap, Reply))
    requires Shape(h)
    ensures Keeps(h, r.0)
  {
    match ApplyOutcome(h.vm, n)
    case Found(b) =>
      (h.(vm := SetRange(h.vm, b, n, true), phys := SetBitsAs(form, h.phys, b, n, true)), Granted(PageAddr(b)))
    case NoneFree => (h, Denied)
    case AssertFails => (h, Hangs(false))
    case LoopsForever => (h, Hangs(true))
  }

  /** phy_free on the n page frames behind a kernel address: frames of the user pool are not ours. */
  function PhysFree(h: Heap, v: nat, n: nat): (r: seq<bool>)
    requires Shape(h) && HEAP_BASE <= v && PageOf(v) + n <= |h.vm|
    ensures |r| == |h.phys|
    decreases n
  {
    if n == 0 then h.phys
    else
      var rest := PhysFree(h, v, n - 1);
      var pa := v - PAGE_OFFSET + (n - 1) * PAGE_SIZE;
      if pa >= h.userStart then rest else rest[(pa - (HEAP_BASE - PAGE_OFFSET)) / PAGE_SIZE := false]
  }

  /** page_free(PF_KERNEL, v, n), where v need not be page aligned. */
  function FreePages(h: Heap, v: nat, n: nat, form: Form): (r: Heap)
    requires Shape(h) && HEAP_BASE <= v && PageOf(v) + n <= |h.vm|
    ensures Keeps(h, r)
  {
    h.(phys := PhysFree(h, v, n), vm := SetBitsAs(form, h.vm, PageOf(v), n, false))
  }

  /** The first k blocks of a page, in order. */
  function FirstBlocks(p: nat, c: nat, k: nat): (r: seq<nat>)
    requires c < SIZES
    ensures |r| == k && forall i :: 0 <= i < k ==> r[i] == Block(p, c, i)
  {
    seq(k, i requires 0 <= i => Block(p, c, i))
  }

  /** The branch of sys_malloc that cuts a new page into blocks. */
  function Refill(h: Heap, c: nat, form: Form): (r: (Heap, Reply))
    requires Shape(h) && c < SIZES
    ensures Keeps(h, r.0)
  {
    var (h', reply) := AllocPages(h, 1, form);
    match reply
    case Granted(a) =>
      var p := PageOf(a);
      (h'.(headers := h'.headers[p := Header(SizeDesc(c), Blocks(c))],
           free := h'.free[c := h'.free[c] + FirstBlocks(p, c, Blocks(c))]), reply)
    case _ => (h', reply)
  }

  /** list_pop and the counter update. */
  function Take(h: Heap, c: nat): (r: (Heap, nat))
    requires Shape(h) && c < SIZES && h.free[c] != []
    ensures Keeps(h, r.0)
  {
    var x := h.free[c][0];
    var p := if HEAP_BASE <= x then PageOf(x) else 0;
    var hd := HeaderAt(h, p);
    (h.(free := h.free[c := h.free[c][1..]], headers := h.headers[p := hd.(cnt := hd.cnt - 1)]), x)
  }

  /** sys_malloc */
  function Malloc(h: Heap, size: nat, form: Form): (r: (Heap, Reply))
    requires Shape(h)
    ensures Keeps(h, r.0)
  {
    if size > h.poolSize || size <= 0 then (h, Denied)
    else if size > 1024 then
      var n := PagesFor(size);
      var (h', reply) := AllocPages(h, n, form);
      match reply
      case Granted(a) =>
        (h'.(headers := h'.headers[PageOf(a) := Header(NullDesc, n)]), Granted(a + ARENA_HEADER))
      case _ => (h', reply)
    else
      var c := ClassFor(size);
      if h.free[c] != [] then
        var (h', x) := Take(h, c);
        (h', Granted(x))
      else
        var (h', reply) := Refill(h, c, form);
        match reply
        case Granted(_) =>
          var (h'', x) := Take(h', c);
          (h'', Granted(x))
        case _ => (h', reply)
  }

  /** list_del_safe on the list that holds x. */
  function Remove(s: seq<nat>, x: nat): (r: seq<nat>)
    ensures Distinct(s) ==> forall y :: y in r <==> y in s && y != x
    ensures Distinct(s) ==> Distinct(r)
  {
    if s == [] then []
    else if s[0] == x then s[1..]
    else
      var rest := Remove(s[1..], x);
      assert Distinct(s) ==> Distinct(s[1..]) && s[0] !in s[1..];
      [s[0]] + rest
  }

  /** The loop of sys_free that unlinks the first k blocks of a page. */
  function Unlinked(s: seq<nat>, p: nat, c: nat, k: nat): (r: seq<nat>)
    requires c < SIZES
    ensures Distinct(s) ==> Distinct(r)
    ensures Distinct(s) ==> forall y :: y in r <==> y in s && !exists i :: 0 <= i < k && y == Block(p, c, i)
    decreases k
  {
    if k == 0 then s else Remove(Unlinked(s, p, c, k - 1), Block(p, c, k - 1))
  }

  /** What sys_free reads before it writes must make sense: true of every live pointer (HeapRuns.LiveIsFreeable). */
  predicate Freeable(h: Heap, ptr: nat)
  {
    && HEAP_BASE <= ptr && PageOf(ptr) < |h.vm|
    && match HeaderAt(h, PageOf(ptr))
       case Header(NullDesc, cnt) => cnt >= 1 && PageOf(ptr) + cnt <= |h.vm|
       case Header(SizeDesc(c), cnt) => c < SIZES && 0 <= cnt
  }

  /** The part of sys_free that links a block back and counts it. */
  function Put(h: Heap, ptr: nat): (r: Heap)
    requires Shape(h) && Freeable(h, ptr) && HeaderAt(h, PageOf(ptr)).desc.SizeDesc?
    ensures Keeps(h, r)
  {
    var p := PageOf(ptr);
    var hd := HeaderAt(h, p);
    h.(free := h.free[hd.desc.c := h.free[hd.desc.c] + [ptr]], headers := h.headers[p := hd.(cnt := hd.cnt + 1)])
  }

  /** The part of sys_free that gives a fully free arena back. */
  function Drain(h: Heap, ptr: nat, c: nat, form: Form): (r: Heap)
    requires Shape(h) && HEAP_BASE <= ptr && PageOf(ptr) < |h.vm| && c < SIZES
    ensures Keeps(h, r)
  {
    FreePages(h.(free := h.free[c := Unlinked(h.free[c], PageOf(ptr), c, Blocks(c))]), ptr, 1, form)
  }

  /** sys_free */
  function Free(h: Heap, ptr: nat, form: Form): (r: Heap)
    requires Shape(h) && Freeable(h, ptr)
    ensures Keeps(h, r)
  {
    var hd := HeaderAt(h, PageOf(ptr));
    match hd.desc
    case NullDesc => FreePages(h, ptr, hd.cnt, form)
    case SizeDesc(c) =>
      var h' := Put(h, ptr);
      if hd.cnt + 1 == Blocks(c) then Drain(h', ptr, c, form) else h'
  }
}
