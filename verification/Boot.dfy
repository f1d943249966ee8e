/**
  Boot-time arithmetic of mm/memory.c: sizing the two pools and their bitmaps from the amount of
  memory, and building the kernel's page tables. The paging format is that of 32-bit paging, section
  4.3 of the Intel SDM, Volume 3A.
 */
module Boot {
  import opened Machine
  import opened Heap

  const MB := 0x10_0000
  const KERNEL_PHYS_START := HEAP_BASE - PAGE_OFFSET
  const MEM_BITMAP_BASE := 0xc007_e000
  const KERNEL_VM_BITMAP_BASE := 0xc007_5000
  const KERNEL_PCB := 0xc009_e000
  const KERNEL_THRESHOLD := 0x8000_0000
  const KERNEL_MAX_SIZE := 0x4000_0000

  /** Storing into a uint32_t. */
  function U32(x: int): nat
  {
    x % TWO_32
  }

  // ---------------------------------------------------------------------------
  // Pools
  // ---------------------------------------------------------------------------

  /** A bitmap: where it lies and how many bytes it has. */
  datatype Area = Area(start: nat, length: nat)

  datatype Pools = Pools(
    kernelBitmap: Area, kernelPool: Area,
    userBitmap: Area, userPool: Area,
    vmBitmap: Area)

  /** mem_pool_init */
  function MemPoolInit(total: nat): Pools
  {
    var kernelMem := if total >= KERNEL_THRESHOLD then KERNEL_MAX_SIZE - KERNEL_PHYS_START
                     else U32(total / 2 - KERNEL_PHYS_START);
    var userMem := U32(total - kernelMem - KERNEL_PHYS_START);
    var kernelPages, userPages := kernelMem / PAGE_SIZE, userMem / PAGE_SIZE;
    Pools(
      Area(MEM_BITMAP_BASE, kernelPages / 8),
      Area(KERNEL_PHYS_START, U32(kernelPages * PAGE_SIZE)),
      Area(U32(MEM_BITMAP_BASE + kernelPages / 8), userPages / 8),
      Area(U32(kernelPages * PAGE_SIZE + KERNEL_PHYS_START), U32(userPages * PAGE_SIZE)),
      Area(KERNEL_VM_BITMAP_BASE, kernelPages / 8))
  }

  predicate Inside(a: Area, lo: nat, hi: nat)
  {
    lo <= a.start && a.start + a.length <= hi
  }

  predicate Disjoint(a: Area, b: Area)
  {
    Apart(a.start, a.length, b.start, b.length)
  }

  /** What the layout is for: nothing overlaps, nothing lies outside memory, no bitmap outgrows its pool. */
  predicate SoundLayout(total: nat, p: Pools)
  {
    && Inside(p.kernelPool, 0, total) && Inside(p.userPool, 0, total) && Disjoint(p.kernelPool, p.userPool)
    && Disjoint(p.kernelBitmap, p.userBitmap) && Disjoint(p.kernelBitmap, p.vmBitmap) && Disjoint(p.userBitmap, p.vmBitmap)
    && Inside(p.kernelBitmap, PAGE_OFFSET, KERNEL_PCB)
    && Inside(p.userBitmap, PAGE_OFFSET, KERNEL_PCB)
    && Inside(p.vmBitmap, PAGE_OFFSET, KERNEL_PCB)
    && p.kernelBitmap.length * 8 * PAGE_SIZE <= p.kernelPool.length
    && p.userBitmap.length * 8 * PAGE_SIZE <= p.userPool.length
    && p.vmBitmap.length == p.kernelBitmap.length
    && HEAP_BASE + p.kernelPool.length <= TWO_32
    && p.userPool.start == p.kernelPool.start + p.kernelPool.length
  }

  /** From 32 MB on, none of the 32-bit stores wraps. */
  lemma NoWrap(total: nat, kernelMem: nat, userMem: nat)
    requires 32 * MB <= total < TWO_32
    requires kernelMem == if total >= KERNEL_THRESHOLD then KERNEL_MAX_SIZE - KERNEL_PHYS_START else total / 2 - KERNEL_PHYS_START
    requires userMem == total - kernelMem - KERNEL_PHYS_START
    ensures MemPoolInit(total) == Pools(
      Area(MEM_BITMAP_BASE, kernelMem / PAGE_SIZE / 8),
      Area(KERNEL_PHYS_START, kernelMem / PAGE_SIZE * PAGE_SIZE),
      Area(MEM_BITMAP_BASE + kernelMem / PAGE_SIZE / 8, userMem / PAGE_SIZE / 8),
      Area(kernelMem / PAGE_SIZE * PAGE_SIZE + KERNEL_PHYS_START, userMem / PAGE_SIZE * PAGE_SIZE),
      Area(KERNEL_VM_BITMAP_BASE, kernelMem / PAGE_SIZE / 8))
  {
    var kernelPages, userPages := kernelMem / PAGE_SIZE, userMem / PAGE_SIZE;
    assert 0 <= kernelPages * PAGE_SIZE <= kernelMem <= 1008 * MB && 0 <= userPages * PAGE_SIZE <= userMem < TWO_32;
    Fits32(kernelMem);
    Fits32(userMem);
    Fits32(kernelPages * PAGE_SIZE);
    Fits32(userPages * PAGE_SIZE);
    Fits32(MEM_BITMAP_BASE + kernelPages / 8);
    Fits32(kernelPages * PAGE_SIZE + KERNEL_PHYS_START);
  }

  lemma Fits32(x: int)
    requires 0 <= x < TWO_32
    ensures U32(x) == x
  {
  }

  /** Below 32 MB the size of the kernel pool wraps around and the pool leaves memory. */
  lemma SmallMemoryWraps(total: nat)
    requires total < 32 * MB
    ensures !SoundLayout(total, MemPoolInit(total))
  {
    var kernelMem := U32(total / 2 - KERNEL_PHYS_START);
    assert kernelMem == total / 2 - KERNEL_PHYS_START + TWO_32;
    var p := MemPoolInit(total);
    assert p.kernelPool == Area(KERNEL_PHYS_START, kernelMem / PAGE_SIZE * PAGE_SIZE);
    assert p.kernelPool.start + p.kernelPool.length > total;
  }

  /** The layout is sound for 32 MB of memory or more, and for no less. */
  lemma LayoutIsSound(total: nat)
    requires total < TWO_32
    ensures SoundLayout(total, MemPoolInit(total)) <==> total >= 32 * MB
  {
    if total < 32 * MB {
      SmallMemoryWraps(total);
    } else {
      var kernelMem := if total >= KERNEL_THRESHOLD then KERNEL_MAX_SIZE - KERNEL_PHYS_START else total / 2 - KERNEL_PHYS_START;
      NoWrap(total, kernelMem, total - kernelMem - KERNEL_PHYS_START);
    }
  }

  /** A bitmap covers its pool but for less than eight pages. */
  predicate Covers(bitmap: Area, pool: Area)
  {
    bitmap.length * 8 * PAGE_SIZE <= pool.length < (bitmap.length + 1) * 8 * PAGE_SIZE
  }

  /**
    And little is lost: the kernel's part, the 16 MB below its pool included, is within a page of half the memory or
    1 GB, the user pool reaches to within two pages of the end, and the bitmaps cover all but less than eight pages.
   */
  lemma LayoutWastesLittle(total: nat)
    requires 32 * MB <= total < TWO_32
    ensures var p := MemPoolInit(total);
            var share := if total >= KERNEL_THRESHOLD then KERNEL_MAX_SIZE else total / 2;
            && share - PAGE_SIZE < KERNEL_PHYS_START + p.kernelPool.length <= share
            && total - 2 * PAGE_SIZE < p.userPool.start + p.userPool.length <= total
            && Covers(p.kernelBitmap, p.kernelPool) && Covers(p.userBitmap, p.userPool)
  {
    var kernelMem := if total >= KERNEL_THRESHOLD then KERNEL_MAX_SIZE - KERNEL_PHYS_START else total / 2 - KERNEL_PHYS_START;
    NoWrap(total, kernelMem, total - kernelMem - KERNEL_PHYS_START);
  }

  /** The heap module starts from exactly what boot leaves behind. */
  lemma BootGivesHeapShape(total: nat, h: Heap)
    requires 32 * MB <= total < TWO_32
    requires var p := MemPoolInit(total);
             && |h.vm| == p.vmBitmap.length * 8 && |h.phys| == p.kernelBitmap.length * 8 && |h.free| == SIZES
             && h.poolSize == p.kernelPool.length && h.userStart == p.userPool.start
    ensures Shape(h)
  {
    LayoutIsSound(total);
  }

  // ---------------------------------------------------------------------------
  // Page tables
  // ---------------------------------------------------------------------------

  const PAGE_DIR := 0x10_0000
  const TABLE_BASE := PAGE_DIR + 0x1000
  const DIR_SPAN := 0x40_0000
  const MARK := 7

  /** total_kernel_pages */
  function TotalKernelPages(total: nat): nat
  {
    (if total >= KERNEL_THRESHOLD then KERNEL_MAX_SIZE else total / 2) / PAGE_SIZE
  }

  function PdeAddr(i: nat): nat
  {
    PAGE_DIR + 4 * i
  }

  function PteAddr(t: nat, j: nat): nat
  {
    TABLE_BASE + t * 0x1000 + 4 * j
  }

  /** One 4-byte word of a paging structure, by physical address. */
  type Words = map<nat, nat>

  /** memset over whole words. */
  function ZeroFill(w: Words, from: nat, bytes: nat): (r: Words)
    ensures forall a :: from <= a < from + bytes && a % 4 == 0 ==> a in r && r[a] == 0
    ensures forall a :: !(from <= a < from + bytes) ==> (a in r <==> a in w) && (a in w ==> r[a] == w[a])
  {
    w + map a | from <= a < from + bytes && a % 4 == 0 :: 0
  }

  /**
    What the processor does with a linear address: directory entry, table entry, offset. Writing, and user mode, need
    the right in both entries.
   */
  datatype Translation = Fault | Frame(pa: nat, write: bool, user: bool)

  function Walk(w: Words, cr3: nat, v: nat): Translation
  {
    var pdeAddr := cr3 + 4 * (v / DIR_SPAN);
    if pdeAddr !in w || w[pdeAddr] % 2 == 0 then Fault
    else
      var pteAddr := w[pdeAddr] - w[pdeAddr] % 0x1000 + 4 * (v / PAGE_SIZE % 1024);
      if pteAddr !in w || w[pteAddr] % 2 == 0 then Fault
      else
        Frame(w[pteAddr] - w[pteAddr] % 0x1000 + v % PAGE_SIZE,
              Bit(w[pdeAddr], 2) && Bit(w[pteAddr], 2), Bit(w[pdeAddr], 4) && Bit(w[pteAddr], 4))
  }

  /** The bit of that value in an entry. */
  predicate Bit(entry: nat, value: nat)
    requires value > 0
  {
    entry / value % 2 == 1
  }

  /** Where the pages of a last, partly filled table start: the loop variable is only right after a full table. */
  function PartialBase(dirs: nat): nat
  {
    if dirs == 0 then DIR_SPAN else dirs * DIR_SPAN
  }

  /** The directory entry of the k-th 4 MB of the kernel's half. */
  function KernelPde(k: nat): nat
  {
    PdeAddr(768 + k)
  }

  ghost predicate Directory(w: Words, dirs: nat)
  {
    forall k :: 0 <= k < dirs ==> KernelPde(k) in w && w[KernelPde(k)] == PteAddr(k, 0) + MARK
  }

  ghost predicate Table(w: Words, t: nat, base: nat, entries: nat)
  {
    forall j :: 0 <= j < entries ==> PteAddr(t, j) in w && w[PteAddr(t, j)] == base + j * PAGE_SIZE + MARK
  }

  ghost predicate FullTables(w: Words, dirs: nat)
  {
    forall t :: 0 <= t < dirs ==> Table(w, t, t * DIR_SPAN, 1024)
  }

  /** The paging structures of `pages` kernel pages: full tables, a partly filled one, and the self map. */
  ghost predicate Tables(w: Words, pages: nat)
  {
    var dirs, rest := pages / 1024, pages % 1024;
    && PdeAddr(0) in w && w[PdeAddr(0)] == 0
    && Directory(w, if dirs < 255 then dirs else 255)
    && FullTables(w, dirs)
    && (rest > 0 && dirs < 255 ==> KernelPde(dirs) in w && w[KernelPde(dirs)] == PteAddr(dirs + 1, 0) + MARK)
    && (rest > 0 ==> Table(w, dirs + 1, PartialBase(dirs), rest))
    && PdeAddr(1023) in w && w[PdeAddr(1023)] == PAGE_DIR + MARK
  }

  predicate Zero(w: Words, a: nat)
  {
    a in w && w[a] == 0
  }

  /** A word that nothing has written. */
  predicate SameWord(w: Words, w': Words, a: nat)
  {
    (a in w' <==> a in w) && (a in w ==> w'[a] == w[a])
  }

  /** The entries of table t from `from` on. */
  ghost predicate ZeroRest(w: Words, t: nat, from: nat)
  {
    forall j: nat :: from <= j < 1024 ==> Zero(w, PteAddr(t, j))
  }

  ghost predicate SameRest(w: Words, w': Words, t: nat, from: nat)
  {
    forall j: nat :: from <= j < 1024 ==> SameWord(w, w', PteAddr(t, j))
  }

  /**
    What maps nothing is zero: the directory entries below the kernel's half and behind its last, and the rest of
    the partly filled table; unless that one lies behind the megabyte that is cleared. Then its rest is what it was.
   */
  ghost predicate Unused(w0: Words, w: Words, pages: nat)
  {
    var dirs, rest := pages / 1024, pages % 1024;
    && (forall i :: 0 <= i < 768 ==> Zero(w, PdeAddr(i)))
    && (forall k :: dirs + (if rest > 0 then 1 else 0) <= k < 255 ==> Zero(w, KernelPde(k)))
    && (rest > 0 && dirs < 254 ==> ZeroRest(w, dirs + 1, rest))
    && (rest > 0 && dirs == 254 ==> SameRest(w0, w, dirs + 1, rest))
  }

  /** Only words with addresses in [lo, hi) may differ. */
  ghost predicate SameOutside(w: Words, w': Words, lo: nat, hi: nat)
  {
    forall a: nat :: !(lo <= a < hi) ==> (a in w' <==> a in w) && (a in w ==> w'[a] == w[a])
  }

  lemma DirectoryStays(w: Words, w': Words, lo: nat, hi: nat, dirs: nat)
    requires Directory(w, dirs) && SameOutside(w, w', lo, hi) && (hi <= PAGE_DIR || KernelPde(dirs) <= lo)
    ensures Directory(w', dirs)
  {
    forall k | 0 <= k < dirs
      ensures KernelPde(k) in w' && w'[KernelPde(k)] == PteAddr(k, 0) + MARK
    {
      assert KernelPde(k) in w;
    }
  }

  lemma TableStays(w: Words, w': Words, lo: nat, hi: nat, t: nat, base: nat, entries: nat)
    requires Table(w, t, base, entries) && SameOutside(w, w', lo, hi) && entries <= 1024
    requires hi <= PteAddr(t, 0) || PteAddr(t, entries) <= lo
    ensures Table(w', t, base, entries)
  {
    forall j | 0 <= j < entries
      ensures PteAddr(t, j) in w' && w'[PteAddr(t, j)] == base + j * PAGE_SIZE + MARK
    {
      assert PteAddr(t, j) in w;
    }
  }

  lemma FullTablesStay(w: Words, w': Words, lo: nat, hi: nat, dirs: nat)
    requires FullTables(w, dirs) && SameOutside(w, w', lo, hi) && (hi <= TABLE_BASE || PteAddr(dirs, 0) <= lo)
    ensures FullTables(w', dirs)
  {
    forall t | 0 <= t < dirs
      ensures Table(w', t, t * DIR_SPAN, 1024)
    {
      assert Table(w, t, t * DIR_SPAN, 1024);
      TableStays(w, w', lo, hi, t, t * DIR_SPAN, 1024);
    }
  }

  /** Only the entries of a partly filled table, and its directory entry, may differ. */
  ghost predicate PartialWrites(w: Words, w': Words, dirs: nat, rest: nat)
  {
    forall a: nat :: !(PteAddr(dirs + 1, 0) <= a < PteAddr(dirs + 1, rest)) && a != KernelPde(dirs) ==> SameWord(w, w', a)
  }

  lemma PartialFrame(w: Words, w1: Words, w': Words, dirs: nat, rest: nat)
    requires dirs <= 255 && 0 < rest < 1024 && SameOutside(w, w1, PteAddr(dirs + 1, 0), PteAddr(dirs + 1, rest))
    requires w' == w1[KernelPde(dirs) := TABLE_BASE + (dirs + 1) * 0x1000 + MARK]
    ensures PartialWrites(w, w', dirs, rest) && SameOutside(w, w', KernelPde(0), KERNEL_PHYS_START)
  {
  }

  /** The words the loops write: directory entries, full tables, and a partly filled one with its directory entry. */
  predicate WrittenTo(a: nat, dirs: nat, rest: nat)
  {
    || KernelPde(0) <= a < KernelPde(dirs) || TABLE_BASE <= a < PteAddr(dirs, 0)
    || (rest > 0 && (PteAddr(dirs + 1, 0) <= a < PteAddr(dirs + 1, rest) || a == KernelPde(dirs)))
  }

  ghost predicate LoopsWrote(w: Words, w': Words, dirs: nat, rest: nat)
  {
    forall a: nat :: !WrittenTo(a, dirs, rest) ==> SameWord(w, w', a)
  }

  /** What no loop reaches is cleared, or as it was. */
  lemma RestIsUnused(w0: Words, w1: Words, w: Words, w': Words, dirs: nat, rest: nat)
    requires dirs <= 256 && rest < 1024 && (dirs == 256 ==> rest == 0)
    requires w1 == ZeroFill(w0, PAGE_DIR, 1024 * 1024) && LoopsWrote(w1, w, dirs, rest)
    requires w' == w[PdeAddr(1023) := PAGE_DIR + MARK]
    ensures Unused(w0, w', dirs * 1024 + rest)
  {
    assert (dirs * 1024 + rest) / 1024 == dirs && (dirs * 1024 + rest) % 1024 == rest;
    forall i | 0 <= i < 768
      ensures Zero(w', PdeAddr(i))
    {
      assert SameWord(w1, w, PdeAddr(i));
    }
    forall k | dirs + (if rest > 0 then 1 else 0) <= k < 255
      ensures Zero(w', KernelPde(k))
    {
      assert SameWord(w1, w, KernelPde(k));
    }
    if rest > 0 && dirs < 255 { RestOfTable(w0, w1, w, w', dirs, rest, dirs + 1); }
  }

  lemma RestOfTable(w0: Words, w1: Words, w: Words, w': Words, dirs: nat, rest: nat, t: nat)
    requires dirs < 255 && 0 < rest < 1024 && t == dirs + 1
    requires w1 == ZeroFill(w0, PAGE_DIR, 1024 * 1024) && LoopsWrote(w1, w, dirs, rest)
    requires w' == w[PdeAddr(1023) := PAGE_DIR + MARK]
    ensures if t < 255 then ZeroRest(w', t, rest) else SameRest(w0, w', t, rest)
  {
    forall j: nat | rest <= j < 1024
      ensures if t < 255 then Zero(w', PteAddr(t, j)) else SameWord(w0, w', PteAddr(t, j))
    {
      assert SameWord(w1, w, PteAddr(t, j));
    }
  }

  lemma LoopsTogether(w1: Words, w2: Words, w3: Words, w4: Words, dirs: nat, rest: nat)
    requires SameOutside(w1, w2, KernelPde(0), KernelPde(dirs)) && SameOutside(w2, w3, TABLE_BASE, PteAddr(dirs, 0))
    requires if rest > 0 then PartialWrites(w3, w4, dirs, rest) else w4 == w3
    ensures LoopsWrote(w1, w4, dirs, rest)
  {
    forall a: nat | !WrittenTo(a, dirs, rest)
      ensures SameWord(w1, w4, a)
    {
      assert rest > 0 ==> SameWord(w3, w4, a);
    }
  }

  lemma BelowTheHeap(w0: Words, w1: Words, w: Words, w': Words)
    requires w1 == ZeroFill(w0, PAGE_DIR, 1024 * 1024) && SameOutside(w1, w, KernelPde(0), KERNEL_PHYS_START)
    requires w' == w[PdeAddr(1023) := PAGE_DIR + MARK]
    ensures SameOutside(w0, w', PAGE_DIR, KERNEL_PHYS_START)
  {
  }

  class PagingMemory {
    var words: Words

    /** The loop over the directory entries of the kernel half. */
    method FillDirectory(dirs: nat)
      requires dirs <= 256
      modifies this
      ensures Directory(words, dirs) && SameOutside(old(words), words, KernelPde(0), KernelPde(dirs))
    {
      var i := 768;
      while i < 768 + dirs
        invariant 768 <= i <= 768 + dirs
        invariant Directory(words, i - 768) && SameOutside(old(words), words, KernelPde(0), KernelPde(i - 768))
      {
        ghost var before := words;
        words := words[PdeAddr(i) := TABLE_BASE + (i - 768) * 0x1000 + MARK];
        assert PdeAddr(i) == KernelPde(i - 768);
        DirectoryStays(before, words, PdeAddr(i), PdeAddr(i) + 4, i - 768);
        i := i + 1;
      }
    }

    /** The loop over the entries of one table. */
    method FillTable(t: nat, base: nat, entries: nat)
      requires entries <= 1024
      modifies this
      ensures Table(words, t, base, entries) && SameOutside(old(words), words, PteAddr(t, 0), PteAddr(t, entries))
    {
      var j := 0;
      while j < entries
        invariant 0 <= j <= entries
        invariant Table(words, t, base, j) && SameOutside(old(words), words, PteAddr(t, 0), PteAddr(t, j))
      {
        ghost var before := words;
        words := words[PteAddr(t, j) := base + j * PAGE_SIZE + MARK];
        TableStays(before, words, PteAddr(t, j), PteAddr(t, j) + 4, t, base, j);
        j := j + 1;
      }
    }

    /** The outer loop over the full tables; it leaves behind the base of the last one. */
    method FillTables(dirs: nat) returns (memoryAddr: nat)
      requires dirs <= 256
      modifies this
      ensures memoryAddr == if dirs == 0 then 0 else (dirs - 1) * DIR_SPAN
      ensures FullTables(words, dirs) && SameOutside(old(words), words, TABLE_BASE, PteAddr(dirs, 0))
    {
      memoryAddr := 0;
      var i := 0;
      while i < dirs
        invariant 0 <= i <= dirs
        invariant memoryAddr == if i == 0 then 0 else (i - 1) * DIR_SPAN
        invariant FullTables(words, i) && SameOutside(old(words), words, TABLE_BASE, PteAddr(i, 0))
      {
        memoryAddr := i * DIR_SPAN;
        ghost var before := words;
        FillTable(i, memoryAddr, 1024);
        FullTablesStay(before, words, PteAddr(i, 0), PteAddr(i, 1024), i);
        i := i + 1;
      }
    }

    /** The table of a last, partly filled 4 MB: it lies one page further on than the pattern suggests. */
    method FillPartial(dirs: nat, memoryAddr: nat, rest: nat)
      requires dirs <= 255 && 0 < rest < 1024 && memoryAddr == if dirs == 0 then 0 else (dirs - 1) * DIR_SPAN
      requires Directory(words, dirs) && FullTables(words, dirs)
      modifies this
      ensures Directory(words, dirs) && FullTables(words, dirs) && Table(words, dirs + 1, PartialBase(dirs), rest)
      ensures KernelPde(dirs) in words && words[KernelPde(dirs)] == PteAddr(dirs + 1, 0) + MARK
      ensures SameOutside(old(words), words, KernelPde(0), KERNEL_PHYS_START)
      ensures PartialWrites(old(words), words, dirs, rest)
    {
      FillTable(dirs + 1, memoryAddr + DIR_SPAN, rest);
      DirectoryStays(old(words), words, PteAddr(dirs + 1, 0), PteAddr(dirs + 1, rest), dirs);
      FullTablesStay(old(words), words, PteAddr(dirs + 1, 0), PteAddr(dirs + 1, rest), dirs);
      ghost var before := words;
      words := words[KernelPde(dirs) := TABLE_BASE + (dirs + 1) * 0x1000 + MARK];
      DirectoryStays(before, words, KernelPde(dirs), KernelPde(dirs) + 4, dirs);
      FullTablesStay(before, words, KernelPde(dirs), KernelPde(dirs) + 4, dirs);
      TableStays(before, words, KernelPde(dirs), KernelPde(dirs) + 4, dirs + 1, PartialBase(dirs), rest);
      PartialFrame(old(words), before, words, dirs, rest);
    }

    /** How many full directory entries the kernel needs, and how many pages of one more. */
    method SplitPages(kernelPages: nat) returns (dirs: nat, rest: nat)
      ensures dirs == kernelPages / 1024 && rest == kernelPages % 1024
    {
      var bytes := kernelPages * PAGE_SIZE;
      if bytes % DIR_SPAN == 0 {
        dirs, rest := bytes / DIR_SPAN, 0;
      } else {
        dirs := bytes / DIR_SPAN;
        rest := (bytes - DIR_SPAN * dirs) / PAGE_SIZE;
      }
    }

    /** page_table_init; everything it writes lies below the physical start of the heap. */
    method PageTableInit(kernelPages: nat)
      requires kernelPages <= KERNEL_MAX_SIZE / PAGE_SIZE
      modifies this
      ensures Tables(words, kernelPages)
      ensures SameOutside(old(words), words, PAGE_DIR, KERNEL_PHYS_START)
      ensures Unused(old(words), words, kernelPages)
    {
      var dirs, rest := SplitPages(kernelPages);
      words := ZeroFill(words, PAGE_DIR, 1024 * 1024);
      ghost var cleared := words;
      FillAll(dirs, rest);
      ghost var filled := words;
      words := words[PdeAddr(1023) := PAGE_DIR + MARK];
      SelfMapEntry(filled, words, dirs, rest);
      RestIsUnused(old(words), cleared, filled, words, dirs, rest);
      BelowTheHeap(old(words), cleared, filled, words);
    }

    /** All but the clearing and the self map. */
    method FillAll(dirs: nat, rest: nat)
      requires dirs <= 256 && rest < 1024 && (dirs == 256 ==> rest == 0) && Zero(words, PdeAddr(0))
      modifies this
      ensures Directory(words, dirs) && FullTables(words, dirs) && Zero(words, PdeAddr(0))
      ensures rest > 0 ==> Table(words, dirs + 1, PartialBase(dirs), rest)
      ensures rest > 0 ==> KernelPde(dirs) in words && words[KernelPde(dirs)] == PteAddr(dirs + 1, 0) + MARK
      ensures SameOutside(old(words), words, KernelPde(0), KERNEL_PHYS_START)
      ensures LoopsWrote(old(words), words, dirs, rest)
    {
      FillDirectory(dirs);
      ghost var directory := words;
      var memoryAddr := FillTables(dirs);
      ghost var tables := words;
      DirectoryStays(directory, words, TABLE_BASE, PteAddr(dirs, 0), dirs);
      if rest != 0 {
        FillPartial(dirs, memoryAddr, rest);
      }
      LoopsTogether(old(words), directory, tables, words, dirs, rest);
    }
  }

  /** Writing the last directory entry spoils at most the entry of the last 4 MB. */
  lemma SelfMapEntry(w: Words, w': Words, dirs: nat, rest: nat)
    requires dirs <= 256 && rest < 1024 && w' == w[PdeAddr(1023) := PAGE_DIR + MARK]
    requires Directory(w, dirs) && FullTables(w, dirs) && (rest > 0 ==> Table(w, dirs + 1, PartialBase(dirs), rest))
    requires PdeAddr(0) in w && w[PdeAddr(0)] == 0
    requires rest > 0 ==> KernelPde(dirs) in w && w[KernelPde(dirs)] == PteAddr(dirs + 1, 0) + MARK
    ensures Tables(w', dirs * 1024 + rest)
  {
    assert SameOutside(w, w', PdeAddr(1023), PdeAddr(1024));
    DirectoryStays(w, w', PdeAddr(1023), PdeAddr(1024), if dirs < 255 then dirs else 255);
    FullTablesStay(w, w', PdeAddr(1023), PdeAddr(1024), dirs);
    if rest > 0 {
      TableStays(w, w', PdeAddr(1023), PdeAddr(1024), dirs + 1, PartialBase(dirs), rest);
    }
    assert (dirs * 1024 + rest) / 1024 == dirs && (dirs * 1024 + rest) % 1024 == rest;
  }

  /** Directory index, table index and offset of a kernel address. */
  lemma SplitAddress(v: nat, i: nat, j: nat)
    requires PAGE_OFFSET <= v < TWO_32 && i == (v - PAGE_OFFSET) / DIR_SPAN && j == (v - PAGE_OFFSET) / PAGE_SIZE % 1024
    ensures v / DIR_SPAN == 768 + i && v / PAGE_SIZE % 1024 == j && j < 1024
    ensures v - PAGE_OFFSET == i * DIR_SPAN + j * PAGE_SIZE + v % PAGE_SIZE
  {
    var q := (v - PAGE_OFFSET) / PAGE_SIZE;
    assert q / 1024 == i && q == i * 1024 + j;
    assert v / PAGE_SIZE == 0xc_0000 + q;
  }

  /** An entry is a page address and the mark. */
  lemma MarkedEntry(page: nat)
    ensures (page * 0x1000 + MARK) % 0x1000 == MARK && (page * 0x1000 + MARK) % 2 == 1
    ensures Bit(page * 0x1000 + MARK, 2) && Bit(page * 0x1000 + MARK, 4)
  {
    assert page * 0x1000 + MARK == 2 * (page * 0x800 + MARK / 2) + 1;
  }

  /** Two present entries that point to the right places make a translation. */
  lemma WalkVia(w: Words, v: nat, i: nat, t: nat, j: nat, frame: nat)
    requires v / DIR_SPAN == 768 + i && v / PAGE_SIZE % 1024 == j
    requires KernelPde(i) in w && w[KernelPde(i)] == PteAddr(t, 0) + MARK
    requires PteAddr(t, j) in w && w[PteAddr(t, j)] == frame * PAGE_SIZE + MARK
    ensures Walk(w, PAGE_DIR, v) == Frame(frame * PAGE_SIZE + v % PAGE_SIZE, true, true)
  {
    var table := TABLE_BASE / 0x1000 + t;
    assert PteAddr(t, 0) == table * 0x1000 && PteAddr(t, j) == table * 0x1000 + 4 * j;
    MarkedEntry(table);
    MarkedEntry(frame);
    assert KernelPde(i) == PAGE_DIR + 4 * (v / DIR_SPAN);
  }

  /** A kernel address below the self map is translated to the linear map of physical memory. */
  lemma WalkIsLinear(w: Words, pages: nat, v: nat)
    requires Tables(w, pages) && 1024 <= pages
    requires PAGE_OFFSET <= v < PAGE_OFFSET + pages * PAGE_SIZE && v < PAGE_OFFSET + 255 * DIR_SPAN
    ensures Walk(w, PAGE_DIR, v) == Frame(v - PAGE_OFFSET, true, true)
  {
    var dirs := pages / 1024;
    var i: nat := (v - PAGE_OFFSET) / DIR_SPAN;
    var j: nat := (v - PAGE_OFFSET) / PAGE_SIZE % 1024;
    SplitAddress(v, i, j);
    if i < dirs {
      assert Table(w, i, i * DIR_SPAN, 1024);
      WalkVia(w, v, i, i, j, i * 1024 + j);
    } else {
      assert i == dirs && j < pages % 1024;
      WalkVia(w, v, dirs, dirs + 1, j, dirs * 1024 + j);
    }
  }

  /** The first address behind the self map is not mapped at all. */
  lemma SelfMapFaults(w: Words, pages: nat)
    requires Tables(w, pages)
    ensures Walk(w, PAGE_DIR, PAGE_OFFSET + 255 * DIR_SPAN) == Fault
  {
    assert PdeAddr(1023) == PAGE_DIR + 4 * 1023;
    assert PdeAddr(0) == PAGE_DIR;
  }

  /** Through the last 4 MB one sees the tables: the page of a directory entry is its table, the last one the directory. */
  lemma SelfMapShowsTables(w: Words, pages: nat, i: nat, o: nat)
    requires Tables(w, pages) && o < PAGE_SIZE && (i < pages / 1024 || i == 255) && i <= 255
    ensures Walk(w, PAGE_DIR, PAGE_OFFSET + 255 * DIR_SPAN + (768 + i) * PAGE_SIZE + o) ==
              Frame((if i == 255 then PAGE_DIR else PteAddr(i, 0)) + o, true, true)
  {
    var v := PAGE_OFFSET + 255 * DIR_SPAN + (768 + i) * PAGE_SIZE + o;
    assert v / DIR_SPAN == 1023 && v / PAGE_SIZE % 1024 == 768 + i && v % PAGE_SIZE == o;
    var table := if i == 255 then PAGE_DIR / 0x1000 else TABLE_BASE / 0x1000 + i;
    assert KernelPde(i) in w && w[KernelPde(i)] == table * 0x1000 + MARK;
    MarkedEntry(PAGE_DIR / 0x1000);
    MarkedEntry(table);
    assert PdeAddr(1023) == PAGE_DIR + 4 * 1023 && KernelPde(i) == PAGE_DIR + 4 * (768 + i);
  }

  /** The user's half is not mapped. */
  lemma UserHalfFaults(w0: Words, w: Words, pages: nat, v: nat)
    requires Unused(w0, w, pages) && v < PAGE_OFFSET
    ensures Walk(w, PAGE_DIR, v) == Fault
  {
    assert Zero(w, PdeAddr(v / DIR_SPAN));
  }

  /**
    Behind the kernel's pages, up to the self map, nothing is mapped, but where the partly filled table lies behind the
    megabyte that is cleared: there a word that was in memory before decides.
   */
  lemma NothingBehindThePages(w0: Words, w: Words, pages: nat, v: nat)
    requires Tables(w, pages) && Unused(w0, w, pages) && pages <= KERNEL_MAX_SIZE / PAGE_SIZE
    requires PAGE_OFFSET + pages * PAGE_SIZE <= v < PAGE_OFFSET + 255 * DIR_SPAN
    ensures var stale := PteAddr(255, (v - PAGE_OFFSET) / PAGE_SIZE % 1024);
            Walk(w, PAGE_DIR, v) == Fault <==>
              !(pages / 1024 == 254 && pages % 1024 > 0 && stale in w0 && w0[stale] % 2 == 1)
  {
    var dirs, rest := pages / 1024, pages % 1024;
    var i: nat := (v - PAGE_OFFSET) / DIR_SPAN;
    var j: nat := (v - PAGE_OFFSET) / PAGE_SIZE % 1024;
    SplitAddress(v, i, j);
    assert PdeAddr(768 + i) == PAGE_DIR + 4 * (v / DIR_SPAN) == KernelPde(i);
    if i == dirs && rest > 0 {
      EntryDecides(w, v, i, dirs + 1, j);
      if dirs == 254 { assert SameWord(w0, w, PteAddr(255, j)); } else { assert Zero(w, PteAddr(dirs + 1, j)); }
    } else {
      assert Zero(w, KernelPde(i));
    }
  }

  /** Behind a present directory entry the table entry decides. */
  lemma EntryDecides(w: Words, v: nat, i: nat, t: nat, j: nat)
    requires v / DIR_SPAN == 768 + i && v / PAGE_SIZE % 1024 == j
    requires KernelPde(i) in w && w[KernelPde(i)] == PteAddr(t, 0) + MARK
    ensures Walk(w, PAGE_DIR, v) == Fault <==> PteAddr(t, j) !in w || w[PteAddr(t, j)] % 2 == 0
  {
    var table := TABLE_BASE / 0x1000 + t;
    assert PteAddr(t, 0) == table * 0x1000 && PteAddr(t, j) == table * 0x1000 + 4 * j;
    MarkedEntry(table);
    assert KernelPde(i) == PAGE_DIR + 4 * (v / DIR_SPAN);
  }

  /** How far the kernel pool reaches. */
  lemma PoolReach(total: nat)
    requires 32 * MB <= total < TWO_32
    ensures var pool := MemPoolInit(total).kernelPool.length;
            && TotalKernelPages(total) >= 1024
            && pool + KERNEL_PHYS_START == TotalKernelPages(total) * PAGE_SIZE
            && HEAP_BASE + pool <= TWO_32
            && (pool <= 1004 * MB <==> total < 2040 * MB + 2 * PAGE_SIZE)
  {
    var kernelMem := if total >= KERNEL_THRESHOLD then KERNEL_MAX_SIZE - KERNEL_PHYS_START else total / 2 - KERNEL_PHYS_START;
    NoWrap(total, kernelMem, total - kernelMem - KERNEL_PHYS_START);
    var k := kernelMem / PAGE_SIZE;
    assert TotalKernelPages(total) == k + KERNEL_PHYS_START / PAGE_SIZE;
    assert kernelMem < 1004 * MB + PAGE_SIZE <==> k <= 1004 * MB / PAGE_SIZE;
  }

  /**
    Every address of the kernel pool is translated to the frame the page layer assumes exactly when
    there is less than 2040 MB and two pages of memory: above that the pool reaches into the directory
    entry that points back at the directory.
   */
  lemma HeapIsMapped(total: nat, w: Words)
    requires 32 * MB <= total < TWO_32 && Tables(w, TotalKernelPages(total))
    ensures (forall v: nat :: HEAP_BASE <= v < HEAP_BASE + MemPoolInit(total).kernelPool.length ==>
              Walk(w, PAGE_DIR, v) == Frame(v - PAGE_OFFSET, true, true))
            <==> total < 2040 * MB + 2 * PAGE_SIZE
  {
    PoolReach(total);
    var pages, pool := TotalKernelPages(total), MemPoolInit(total).kernelPool.length;
    if pool <= 1004 * MB {
      forall v: nat | HEAP_BASE <= v < HEAP_BASE + pool
        ensures Walk(w, PAGE_DIR, v) == Frame(v - PAGE_OFFSET, true, true)
      {
        WalkIsLinear(w, pages, v);
      }
    } else {
      SelfMapFaults(w, pages);
    }
  }
}
