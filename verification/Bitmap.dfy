/**
  The page bitmaps of lib/kernel/bitmap.c: a byte array read and changed one bit at a time, a
  first-fit scan for a run of clear bits, and a bulk setter.

  A failed ASSERT hangs the machine (kernel/debug.c), so an assertion the scan can trip over is an
  outcome of its own here, as is the loop that never ends.
 */
module Bitmap {
  import opened Machine

  const BITS_PER_BYTE := 8
  const TWO_64 := 0x1_0000_0000_0000_0000

  // ---------------------------------------------------------------------------
  // Bits inside bytes
  // ---------------------------------------------------------------------------

  /** `BITMAP_MASK << BITS_IN_INDEX(i)`, tabulated; see ShiftIsMask. */
  function Mask(k: nat): bv8
    requires k < 8
  {
    match k
    case 0 => 1 case 1 => 2 case 2 => 4 case 3 => 8
    case 4 => 16 case 5 => 32 case 6 => 64 case _ => 128
  }

  predicate TestByte(b: bv8, k: nat)
    requires k < 8
  {
    b & Mask(k) != 0
  }

  lemma ShiftIsMask(k: bv8)
    requires k < 8
    ensures (1 as bv8) << k == Mask(k as int)
  {
  }

  lemma OneBitMasks(b: bv8, m: bv8, n: bv8)
    requires m & (m - 1) == 0 && n & (n - 1) == 0 && n != 0
    ensures ((b | m) & n != 0) == (m == n || b & n != 0)
    ensures ((b & !m) & n != 0) == (m != n && b & n != 0)
  {
  }

  /** The bit view of a byte string: bit i lives in byte i / 8 at place i % 8. */
  function BitsOf(bytes: seq<bv8>): (bits: seq<bool>)
    ensures |bits| == |bytes| * 8
  {
    seq(|bytes| * 8, i requires 0 <= i < |bytes| * 8 => TestByte(bytes[i / 8], i % 8))
  }

  /** Oring a mask into a byte, or anding its complement, changes exactly one of its eight bits. */
  function WriteByte(b: bv8, k: nat, on: bool): (r: bv8)
    requires k < 8
    ensures forall j :: 0 <= j < 8 ==> TestByte(r, j) == if j == k then on else TestByte(b, j)
  {
    OneBitMasks(b, Mask(k), 1); OneBitMasks(b, Mask(k), 2); OneBitMasks(b, Mask(k), 4); OneBitMasks(b, Mask(k), 8);
    OneBitMasks(b, Mask(k), 16); OneBitMasks(b, Mask(k), 32); OneBitMasks(b, Mask(k), 64); OneBitMasks(b, Mask(k), 128);
    if on then b | Mask(k) else b & !Mask(k)
  }

  /** Writing one bit of one byte is writing one bit of the map. */
  lemma ByteUpdateIsBitUpdate(bytes: seq<bv8>, i: nat, on: bool)
    requires i < |bytes| * 8
    ensures BitsOf(bytes[i / 8 := WriteByte(bytes[i / 8], i % 8, on)]) == BitsOf(bytes)[i := on]
  {
    var b' := WriteByte(bytes[i / 8], i % 8, on);
    var after := BitsOf(bytes[i / 8 := b']);
    forall j | 0 <= j < |bytes| * 8
      ensures after[j] == BitsOf(bytes)[i := on][j]
    {
      assert after[j] == TestByte(bytes[i / 8 := b'][j / 8], j % 8);
    }
  }

  // ---------------------------------------------------------------------------
  // The scan, as the code runs it
  // ---------------------------------------------------------------------------

  /** First clear bit at or after `from`, or -1. */
  function NextZero(s: seq<bool>, from: nat): (r: int)
    requires from <= |s|
    ensures r == -1 ==> forall i :: from <= i < |s| ==> s[i]
    ensures r != -1 ==> from <= r < |s| && !s[r] && forall i :: from <= i < r ==> s[i]
    decreases |s| - from
  {
    if from == |s| then -1 else if !s[from] then from else NextZero(s, from + 1)
  }

  /** First set bit in [from, stop), or -1. */
  function NextSet(s: seq<bool>, from: nat, stop: nat): (r: int)
    requires from <= stop <= |s|
    ensures r == -1 ==> forall i :: from <= i < stop ==> !s[i]
    ensures r != -1 ==> from <= r < stop && s[r] && forall i :: from <= i < r ==> !s[i]
    decreases stop - from
  {
    if from == stop then -1 else if s[from] then from else NextSet(s, from + 1, stop)
  }

  /** `nbits - 1` in uint32_t arithmetic. */
  function WindowLength(n: nat): nat
  {
    if n == 0 then TWO_32 - 1 else n - 1
  }

  /** Where find_next_bit stops looking: it always reads the first bit, then at most `limit` in all. */
  function WindowEnd(s: seq<bool>, from: nat, limit: nat): (e: nat)
    requires from < |s|
    ensures from < e <= |s|
  {
    if from + (if limit <= 1 then 1 else limit) <= |s| then from + (if limit <= 1 then 1 else limit) else |s|
  }

  /** What bitmap_apply can answer; FailedAssert is the hang of kernel/debug.c. */
  datatype Answer = Base(b: nat) | MinusOne | FailedAssert

  /** The loop of bitmap_apply between two passes. */
  datatype Scan = Scanning(base: int, top: int) | Stopped(answer: Answer)

  function Unsigned64(x: int): int
  {
    if x < 0 then x + TWO_64 else x
  }

  /** The code before the loop. */
  function Start(s: seq<bool>): Scan
  {
    if |s| == 0 then Stopped(FailedAssert)
    else
      var base := NextZero(s, 0);
      if base == -1 then Stopped(MinusOne) else Scanning(base, 0)
  }

  /** `return __base_idx`: the caller sees -1 as a failure. */
  function Return(base: int): Answer
  {
    if base < 0 then MinusOne else Base(base)
  }

  /** One evaluation of the loop test and, if it holds, one pass of the loop body. */
  function Pass(s: seq<bool>, n: nat, st: Scan): Scan
  {
    match st
    case Stopped(_) => st
    case Scanning(base, top) =>
      if !(Unsigned64(base) < |s| || Unsigned64(top) < |s|) then Stopped(MinusOne)
      else if !(0 <= base + 1 < |s|) then Stopped(FailedAssert)
      else
        var top' := NextSet(s, base + 1, WindowEnd(s, base + 1, WindowLength(n)));
        if top' == -1 then
          Stopped(if |s| - 1 - base >= n then Return(base) else MinusOne)
        else if top' - base >= n then Stopped(Return(base))
        else if !(top' + 1 < |s|) then Stopped(FailedAssert)
        else Scanning(NextZero(s, top' + 1), top')
  }

  function PassOf(s: seq<bool>, n: nat): Scan -> Scan
  {
    st => Pass(s, n, st)
  }

  /** The loop after k passes. */
  function Passes(s: seq<bool>, n: nat, k: nat): Scan
  {
    Iterate(PassOf(s, n), Start(s), k)
  }

  function Iterate<S>(f: S -> S, x: S, k: nat): S
    decreases k
  {
    if k == 0 then x else f(Iterate(f, x, k - 1))
  }

  // ---------------------------------------------------------------------------
  // What the scan means
  // ---------------------------------------------------------------------------

  /** How many bits the scan really looks for: a request for none is served like one for one. */
  function Wanted(n: nat): nat
  {
    if n == 0 then 1 else n
  }

  /** A run of clear bits from `b` that ends before the last bit of the map. */
  predicate Fits(s: seq<bool>, n: nat, b: nat)
  {
    b + Wanted(n) < |s| && forall i :: b <= i < b + Wanted(n) ==> !s[i]
  }

  predicate LeastFit(s: seq<bool>, n: nat, b: nat)
  {
    Fits(s, n, b) && forall b': nat :: b' < b ==> !Fits(s, n, b')
  }

  /** The least base at or after `from` that fits, or -1. */
  function FirstFitFrom(s: seq<bool>, n: nat, from: nat): (r: int)
    ensures r == -1 ==> forall b: nat :: from <= b ==> !Fits(s, n, b)
    ensures r != -1 ==> from <= r && Fits(s, n, r) && forall b: nat :: from <= b < r ==> !Fits(s, n, b)
    decreases |s| - from
  {
    if from >= |s| then -1 else if Fits(s, n, from) then from else FirstFitFrom(s, n, from + 1)
  }

  /** The last run of equal bits is one bit long (or there is nothing but one clear bit, or no bit). */
  predicate LoneLastBit(s: seq<bool>)
  {
    |s| == 0 || (|s| == 1 && !s[0]) || (|s| >= 2 && s[|s| - 1] != s[|s| - 2])
  }

  /** Some, not all, bits are set, the map ends in a set bit, and one of its first n - 1 bits is set. */
  predicate Wraps(s: seq<bool>, n: nat)
  {
    |s| > 0 && s[|s| - 1] && (exists i :: 0 <= i < |s| && !s[i]) && exists i :: 0 <= i < n - 1 && i < |s| && s[i]
  }

  datatype Outcome = Found(base: nat) | NoneFree | AssertFails | LoopsForever

  /** What a call of bitmap_apply does, said without the scan. */
  function ApplyOutcome(s: seq<bool>, n: nat): (r: Outcome)
    ensures r.Found? ==> LeastFit(s, n, r.base)
    ensures (exists b: nat :: Fits(s, n, b)) ==> r.Found?
  {
    var b := FirstFitFrom(s, n, 0);
    if b != -1 then Found(b)
    else if LoneLastBit(s) then AssertFails
    else if Wraps(s, n) then LoopsForever
    else NoneFree
  }

  /** The literal loop run from the start behaves as `r` says. */
  ghost predicate Behaves(s: seq<bool>, n: nat, r: Outcome)
  {
    match r
    case Found(b) => exists k: nat :: Passes(s, n, k) == Stopped(Base(b))
    case NoneFree => exists k: nat :: Passes(s, n, k) == Stopped(MinusOne)
    case AssertFails => exists k: nat :: Passes(s, n, k) == Stopped(FailedAssert)
    case LoopsForever => forall k: nat :: Passes(s, n, k).Scanning?
  }

  // ---------------------------------------------------------------------------
  // First sweep: everything below `base` has been ruled out
  // ---------------------------------------------------------------------------

  predicate Swept(s: seq<bool>, n: nat, base: nat)
  {
    base < |s| && !s[base] && (base == 0 || s[base - 1]) && forall b: nat :: b < base ==> !Fits(s, n, b)
  }

  /** The sweep ran off the end inside a tail of at least two set bits, having last seen `top` set. */
  ghost predicate SweptAll(s: seq<bool>, n: nat, top: int)
  {
    && 2 <= |s| && s[|s| - 1] && s[|s| - 2]
    && 0 <= top < |s| && 2 <= n
    && (exists i :: 0 <= i < |s| && !s[i])
    && forall b: nat :: !Fits(s, n, b)
  }

  /** One pass from a swept base either stops with the right outcome or sweeps further. */
  lemma SweepPass(s: seq<bool>, n: nat, base: nat, top: int)
    requires |s| < TWO_32 && n < TWO_32
    requires Swept(s, n, base)
    ensures match Pass(s, n, Scanning(base, top))
            case Stopped(Base(b)) => ApplyOutcome(s, n) == Found(b)
            case Stopped(MinusOne) => ApplyOutcome(s, n) == NoneFree
            case Stopped(FailedAssert) => ApplyOutcome(s, n) == AssertFails
            case Scanning(base', top') =>
              if base' == -1 then SweptAll(s, n, top')
              else base < base' && Swept(s, n, base') && 0 <= top' < |s|
  {
    if base + 1 < |s| {
      var stop := WindowEnd(s, base + 1, WindowLength(n));
      var top' := NextSet(s, base + 1, stop);
      if top' == -1 {
        SweepPassClear(s, n, base, stop);
      } else if top' - base < n {
        NoFitUpTo(s, n, base, top');
        if top' + 1 < |s| {
          var z := NextZero(s, top' + 1);
          UsedStretchBlocks(s, n, top' + 1, if z == -1 then |s| else z);
        } else {
          assert !s[top' - 1];
        }
      } else {
        assert Fits(s, n, base);
      }
    }
  }

  /** No used bit in the window: the answer depends only on how much room is left. */
  lemma SweepPassClear(s: seq<bool>, n: nat, base: nat, stop: nat)
    requires |s| < TWO_32 && n < TWO_32
    requires Swept(s, n, base) && base + 1 < |s|
    requires stop == WindowEnd(s, base + 1, WindowLength(n))
    requires forall i :: base + 1 <= i < stop ==> !s[i]
    ensures if |s| - 1 - base >= n then ApplyOutcome(s, n) == Found(base) else ApplyOutcome(s, n) == NoneFree
  {
    if |s| - 1 - base >= n {
      assert Fits(s, n, base);
    } else {
      assert !s[|s| - 1] && !s[|s| - 2];
      assert forall b: nat :: base <= b ==> !Fits(s, n, b);
    }
  }

  /** No run that fits covers a used bit. */
  lemma UsedBitBlocks(s: seq<bool>, n: nat, from: nat, i: nat)
    requires i < |s| && s[i] && i < from + Wanted(n)
    ensures forall b: nat :: from <= b <= i ==> !Fits(s, n, b)
  {
    forall b: nat | from <= b <= i
      ensures !Fits(s, n, b)
    {
      assert b <= i < b + Wanted(n) && s[i];
    }
  }

  /** A stretch of used bits holds no base. */
  lemma UsedStretchBlocks(s: seq<bool>, n: nat, from: nat, to: nat)
    requires from <= to <= |s| && forall i :: from <= i < to ==> s[i]
    ensures forall b: nat :: from <= b < to ==> !Fits(s, n, b)
  {
    forall b: nat | from <= b < to
      ensures !Fits(s, n, b)
    {
      UsedBitBlocks(s, n, b, b);
    }
  }

  /** A used bit closer than `n` rules out every base up to it. */
  lemma NoFitUpTo(s: seq<bool>, n: nat, base: nat, top: nat)
    requires Swept(s, n, base) && base < top < |s| && s[top] && top - base < n
    ensures forall b: nat :: b <= top ==> !Fits(s, n, b)
  {
    UsedBitBlocks(s, n, base, top);
  }

  // ---------------------------------------------------------------------------
  // After the sweep: base is -1, yet the loop test still holds
  // ---------------------------------------------------------------------------

  /** The pass with base -1 restarts from bit 0: it gives up, or comes back to a state already seen. */
  lemma WrapPass(s: seq<bool>, n: nat, top: int)
    requires |s| < TWO_32 && n < TWO_32
    requires SweptAll(s, n, top)
    ensures match Pass(s, n, Scanning(-1, top))
            case Stopped(a) => a == MinusOne && ApplyOutcome(s, n) == NoneFree
            case Scanning(_, _) =>
              && ApplyOutcome(s, n) == LoopsForever
              && (Pass(s, n, Scanning(-1, top)) == Start(s) || Pass(s, n, Scanning(-1, top)) == Pass(s, n, Start(s)))
  {
    var stop := WindowEnd(s, 0, n - 1);
    var top' := NextSet(s, 0, stop);
    if top' == -1 {
      assert !Wraps(s, n) by {
        forall i | 0 <= i < n - 1 && i < |s| ensures !s[i] { assert i < stop; }
      }
    } else {
      assert Wraps(s, n);
      assert top' + 1 < |s| by {
        assert s[|s| - 2];
      }
      if s[0] {
        assert top' == 0;
        assert NextZero(s, 0) == NextZero(s, 1);
      } else {
        assert NextZero(s, 0) == 0;
        SameFirstSet(s, n, top');
      }
    }
  }

  /** When bit 0 is clear, looking from bit 0 and from bit 1 finds the same used bit. */
  lemma SameFirstSet(s: seq<bool>, n: nat, top: nat)
    requires 2 <= n < TWO_32 && 2 <= |s| < TWO_32 && !s[0]
    requires top == NextSet(s, 0, WindowEnd(s, 0, n - 1))
    ensures NextSet(s, 1, WindowEnd(s, 1, n - 1)) == top
  {
    assert top >= 1;
    var r := NextSet(s, 1, WindowEnd(s, 1, n - 1));
    assert WindowEnd(s, 0, n - 1) <= WindowEnd(s, 1, n - 1);
  }

  // ---------------------------------------------------------------------------
  // Whole runs of the loop
  // ---------------------------------------------------------------------------

  lemma {:induction false} IterateSplit<S>(f: S -> S, x: S, i: nat, j: nat)
    ensures Iterate(f, Iterate(f, x, i), j) == Iterate(f, x, i + j)
    decreases j
  {
    if j > 0 {
      IterateSplit(f, x, i, j - 1);
    }
  }

  /** A state that f leaves alone is never left. */
  lemma {:induction false} FixedPointStays<S>(f: S -> S, x: S, i: nat, j: nat)
    requires i <= j && f(Iterate(f, x, i)) == Iterate(f, x, i)
    ensures Iterate(f, x, j) == Iterate(f, x, i)
    decreases j
  {
    if i < j {
      FixedPointStays(f, x, i, j - 1);
    }
  }

  /** An iteration that comes back to an earlier state visits nothing else from then on. */
  lemma {:induction false} CycleRepeats<S>(f: S -> S, x: S, i: nat, j: nat, k: nat) returns (m: nat)
    requires i < j && Iterate(f, x, i) == Iterate(f, x, j)
    ensures m <= j && Iterate(f, x, k) == Iterate(f, x, m)
    decreases k
  {
    if k <= j {
      m := k;
    } else {
      m := CycleRepeats(f, x, i, j, k - (j - i));
      IterateSplit(f, x, i, k - j);
      IterateSplit(f, x, j, k - j);
    }
  }

  /** A stopped loop stays stopped. */
  lemma StoppedStays(s: seq<bool>, n: nat, i: nat, j: nat)
    requires i <= j && Passes(s, n, i).Stopped?
    ensures Passes(s, n, j) == Passes(s, n, i)
  {
    FixedPointStays(PassOf(s, n), Start(s), i, j);
  }

  /** A loop that comes back to a state it was in before never ends. */
  lemma CycleNeverEnds(s: seq<bool>, n: nat, i: nat, j: nat, k: nat)
    requires i < j && Passes(s, n, i) == Passes(s, n, j) && Passes(s, n, j).Scanning?
    ensures Passes(s, n, k).Scanning?
  {
    var m := CycleRepeats(PassOf(s, n), Start(s), i, j, k);
    if Passes(s, n, m).Stopped? {
      StoppedStays(s, n, m, j);
    }
  }

  /** The outcome a stopped loop stands for. */
  function OutcomeOf(a: Answer): Outcome
  {
    match a
    case Base(b) => Found(b)
    case MinusOne => NoneFree
    case FailedAssert => AssertFails
  }

  lemma StopBehaves(s: seq<bool>, n: nat, k: nat, a: Answer)
    requires Passes(s, n, k) == Stopped(a)
    ensures Behaves(s, n, OutcomeOf(a))
  {
  }

  /** From any swept base, the rest of the run does what ApplyOutcome says. */
  lemma {:induction false} SweepEnds(s: seq<bool>, n: nat, k: nat, base: nat, top: int)
    requires |s| < TWO_32 && n < TWO_32
    requires Passes(s, n, k) == Scanning(base, top) && Swept(s, n, base)
    ensures Behaves(s, n, ApplyOutcome(s, n))
    decreases |s| - base
  {
    SweepPass(s, n, base, top);
    var st := Passes(s, n, k + 1);
    assert st == Pass(s, n, Scanning(base, top));
    match st {
      case Stopped(a) =>
        StopBehaves(s, n, k + 1, a);
      case Scanning(base', top') =>
        if base' == -1 {
          WrapEnds(s, n, k + 1, top');
        } else {
          SweepEnds(s, n, k + 1, base', top');
        }
    }
  }

  lemma WrapEnds(s: seq<bool>, n: nat, k: nat, top: int)
    requires |s| < TWO_32 && n < TWO_32
    requires 1 <= k && Passes(s, n, k) == Scanning(-1, top) && SweptAll(s, n, top)
    ensures Behaves(s, n, ApplyOutcome(s, n))
  {
    WrapPass(s, n, top);
    var st := Passes(s, n, k + 1);
    assert st == Pass(s, n, Scanning(-1, top));
    if st.Stopped? {
      StopBehaves(s, n, k + 1, st.answer);
    } else {
      assert Passes(s, n, 0) == Start(s);
      assert Passes(s, n, 1) == Pass(s, n, Passes(s, n, 0));
      var i: nat := if st == Start(s) then 0 else 1;
      forall m: nat
        ensures Passes(s, n, m).Scanning?
      {
        CycleNeverEnds(s, n, i, k + 1, m);
      }
    }
  }

  /**
    The literal scan, for every bitmap and every request: it returns b exactly when b is the least
    base of a run that ends before the last bit; when there is none it fails an assertion, loops
    forever or answers -1, and the shape of the map alone decides which.
   */
  lemma ApplyIsExact(s: seq<bool>, n: nat)
    requires |s| < TWO_32 && n < TWO_32
    ensures Behaves(s, n, ApplyOutcome(s, n))
    ensures forall b: nat :: Behaves(s, n, Found(b)) <==> LeastFit(s, n, b)
    ensures Behaves(s, n, LoopsForever) <==> (!exists b: nat :: Fits(s, n, b)) && !LoneLastBit(s) && Wraps(s, n)
    ensures Behaves(s, n, AssertFails) <==> (!exists b: nat :: Fits(s, n, b)) && LoneLastBit(s)
  {
    var st := Start(s);
    assert Passes(s, n, 0) == st;
    match st {
      case Stopped(a) =>
        UsedStretchBlocks(s, n, 0, |s|);
        StopBehaves(s, n, 0, a);
      case Scanning(base, top) =>
        UsedStretchBlocks(s, n, 0, base);
        SweepEnds(s, n, 0, base, top);
    }
    OneOutcome(s, n, ApplyOutcome(s, n));
  }

  /** A run has only one outcome. */
  lemma OneOutcome(s: seq<bool>, n: nat, r: Outcome)
    requires Behaves(s, n, r)
    ensures forall r' :: Behaves(s, n, r') ==> r' == r
  {
    forall r' | Behaves(s, n, r')
      ensures r' == r
    {
      if r.LoopsForever? {
        assert Behaves(s, n, r);
      } else if !r'.LoopsForever? {
        var k: nat :| Passes(s, n, k).Stopped? && OutcomeOf(Passes(s, n, k).answer) == r;
        var k': nat :| Passes(s, n, k').Stopped? && OutcomeOf(Passes(s, n, k').answer) == r';
        if k <= k' { StoppedStays(s, n, k, k'); } else { StoppedStays(s, n, k', k); }
      }
    }
  }

  /** One byte suffices for each failure: a clear bit before used ones, and a clear bit behind them. */
  lemma FailuresOfOneByte(used: seq<bool>)
    requires |used| == 7 && forall i :: 0 <= i < 7 ==> used[i]
    ensures Behaves([false] + used, 3, LoopsForever)
    ensures Behaves(used + [false], 1, AssertFails)
  {
    var a, b := [false] + used, used + [false];
    assert a[1] && a[7] && a[6] && !a[0] && !b[7] && b[6];
    forall k: nat
      ensures !Fits(a, 3, k) && !Fits(b, 1, k)
    {
      if k + 3 < 8 { assert a[k + 1]; }
      if k + 1 < 8 { assert b[k]; }
    }
    ApplyIsExact(a, 3);
    ApplyIsExact(b, 1);
  }

  /** A request for one page never loops forever; it can still fail the assertion. */
  lemma OnePageNeverLoops(s: seq<bool>, n: nat)
    requires |s| < TWO_32 && n <= 1
    ensures !Behaves(s, n, LoopsForever)
    ensures Behaves(s, n, AssertFails) <==>
            |s| == 0 || (!s[|s| - 1] && forall i :: 0 <= i < |s| - 1 ==> s[i])
  {
    ApplyIsExact(s, n);
    assert forall b: nat :: b < |s| - 1 && !s[b] ==> Fits(s, n, b);
    assert forall b: nat :: Fits(s, n, b) ==> b < |s| - 1 && !s[b];
    if |s| > 0 && !s[|s| - 1] && forall i :: 0 <= i < |s| - 1 ==> s[i] {
      assert !exists b: nat :: Fits(s, n, b);
    } else if |s| >= 2 && !exists b: nat :: Fits(s, n, b) {
      assert forall i :: 0 <= i < |s| - 1 ==> Fits(s, n, i) || s[i];
    }
  }

  // ---------------------------------------------------------------------------
  // The bulk setter
  // ---------------------------------------------------------------------------

  /** What the header of bitmap_set_bits promises: n consecutive bits take the value. */
  function SetRange(s: seq<bool>, i: nat, n: nat, on: bool): (r: seq<bool>)
    requires i + n <= |s|
    ensures |r| == |s|
    ensures forall j :: 0 <= j < |s| ==> r[j] == if i <= j < i + n then on else s[j]
  {
    s[..i] + seq(n, _ => on) + s[i + n..]
  }

  /** What its loop does: every pass writes the first bit. */
  function SetFirst(s: seq<bool>, i: nat, n: nat, on: bool): (r: seq<bool>)
    requires n > 0 ==> i < |s|
    ensures |r| == |s|
  {
    if n == 0 then s else s[i := on]
  }

  /** The loop keeps the header's promise exactly when the other bits already have the value. */
  lemma SetFirstIsSetRange(s: seq<bool>, i: nat, n: nat, on: bool)
    requires i + n <= |s|
    ensures SetFirst(s, i, n, on) == SetRange(s, i, n, on) <==> forall j :: i < j < i + n ==> s[j] == on
  {
    if SetFirst(s, i, n, on) == SetRange(s, i, n, on) {
      forall j | i < j < i + n
        ensures s[j] == on
      {
        assert SetRange(s, i, n, on)[j] == on;
        assert SetFirst(s, i, n, on)[j] == s[j];
      }
    }
  }

  /** One byte and two pages are enough to see the difference, on allocation and on release. */
  lemma SetFirstMissesTheSecondBit(rest: seq<bool>)
    requires |rest| == 6
    ensures SetFirst([false, false] + rest, 0, 2, true) != SetRange([false, false] + rest, 0, 2, true)
    ensures SetFirst([true, true] + rest, 0, 2, false) != SetRange([true, true] + rest, 0, 2, false)
  {
    SetFirstIsSetRange([false, false] + rest, 0, 2, true);
    SetFirstIsSetRange([true, true] + rest, 0, 2, false);
    assert !([false, false] + rest)[1] && ([true, true] + rest)[1];
  }

  // ---------------------------------------------------------------------------
  // The structure and its operations
  // ---------------------------------------------------------------------------

  class PageBitmap {
    const bytes: array<bv8>

    ghost predicate Valid()
    {
      bytes.Length * BITS_PER_BYTE < TWO_32
    }

    ghost function Bits(): (s: seq<bool>)
      reads bytes
      ensures |s| == bytes.Length * BITS_PER_BYTE
    {
      BitsOf(bytes[..])
    }

    constructor (length: nat)
      requires length * BITS_PER_BYTE < TWO_32
      ensures Valid() && fresh(bytes) && bytes.Length == length
      ensures Bits() == seq(length * BITS_PER_BYTE, _ => false)
    {
      bytes := new bv8[length](_ => 0);
    }

    method TestBit(i: nat) returns (on: bool)
      requires i < bytes.Length * BITS_PER_BYTE
      ensures on == Bits()[i]
    {
      on := bytes[i / 8] & Mask(i % 8) != 0;
    }

    method SetBit(i: nat, on: bool)
      requires i < bytes.Length * BITS_PER_BYTE
      modifies bytes
      ensures Bits() == old(Bits())[i := on]
    {
      ByteUpdateIsBitUpdate(bytes[..], i, on);
      bytes[i / 8] := WriteByte(bytes[i / 8], i % 8, on);
      assert bytes[..] == old(bytes[..])[i / 8 := bytes[i / 8]];
    }

    method SetBits(i: nat, n: nat, on: bool)
      requires n > 0 ==> i < bytes.Length * BITS_PER_BYTE
      modifies bytes
      ensures Bits() == SetFirst(old(Bits()), i, n, on)
    {
      var j := i;
      while j < i + n
        invariant i <= j <= i + n
        invariant Bits() == SetFirst(old(Bits()), i, j - i, on)
      {
        SetBit(i, on);
        j := j + 1;
      }
    }

    method FindNextZeroBit(offset: nat) returns (r: int)
      requires offset < bytes.Length * BITS_PER_BYTE
      ensures r == NextZero(Bits(), offset)
    {
      var off := offset;
      var on := TestBit(off);
      while on && off + 1 < bytes.Length * BITS_PER_BYTE
        invariant offset <= off < bytes.Length * BITS_PER_BYTE
        invariant on == Bits()[off]
        invariant NextZero(Bits(), offset) == NextZero(Bits(), off)
        decreases bytes.Length * BITS_PER_BYTE - off
      {
        off := off + 1;
        on := TestBit(off);
      }
      r := if on then -1 else off;
    }

    method FindNextBit(offset: nat, limit: nat) returns (r: int)
      requires offset < bytes.Length * BITS_PER_BYTE
      ensures r == NextSet(Bits(), offset, WindowEnd(Bits(), offset, limit))
    {
      ghost var stop := WindowEnd(Bits(), offset, limit);
      var off, count := offset, 0;
      var on := TestBit(off);
      while !on && off + 1 < bytes.Length * BITS_PER_BYTE && count + 1 < limit
        invariant offset <= off < stop && count == off - offset
        invariant on == Bits()[off]
        invariant NextSet(Bits(), offset, stop) == NextSet(Bits(), off, stop)
        decreases bytes.Length * BITS_PER_BYTE - off
      {
        off, count := off + 1, count + 1;
        on := TestBit(off);
      }
      r := if on then off else -1;
    }

    /** One evaluation of the loop test and body of bitmap_apply. */
    method ApplyPass(n: nat, base: int, top: int) returns (st: Scan)
      requires n < TWO_32 && -1 <= base && 0 <= top
      ensures st == Pass(Bits(), n, Scanning(base, top))
    {
      var total := bytes.Length * BITS_PER_BYTE;
      if !(Unsigned64(base) < total || Unsigned64(top) < total) {
        return Stopped(MinusOne);
      }
      if !(base + 1 < total) {
        return Stopped(FailedAssert);
      }
      var used := FindNextBit(base + 1, WindowLength(n));
      if used == -1 {
        if total - 1 - base >= n {
          return Stopped(Return(base));
        } else {
          return Stopped(MinusOne);
        }
      }
      if used - base >= n {
        return Stopped(Return(base));
      }
      if !(used + 1 < total) {
        return Stopped(FailedAssert);
      }
      var free := FindNextZeroBit(used + 1);
      st := Scanning(free, used);
    }

    /**
      bitmap_apply. The one liberty: when the pass that restarts with base -1 does not stop, the
      method answers LoopsForever instead of running on.
     */
    method Apply(n: nat) returns (r: Outcome)
      requires Valid() && n < TWO_32
      ensures r == ApplyOutcome(Bits(), n)
      ensures Behaves(Bits(), n, r)
    {
      ghost var s := Bits();
      ApplyIsExact(s, n);
      if bytes.Length == 0 {
        return AssertFails;
      }
      var base := FindNextZeroBit(0);
      UsedStretchBlocks(s, n, 0, if base == -1 then |s| else base);
      if base == -1 {
        return NoneFree;
      }
      var top := 0;
      while base != -1
        invariant 0 <= top
        invariant if base == -1 then SweptAll(s, n, top) else 0 <= base && Swept(s, n, base)
        decreases if base == -1 then 0 else |s| - base
      {
        SweepPass(s, n, base, top);
        var st := ApplyPass(n, base, top);
        if st.Stopped? {
          return OutcomeOf(st.answer);
        }
        base, top := st.base, st.top;
      }
      WrapPass(s, n, top);
      var st := ApplyPass(n, base, top);
      r := if st.Stopped? then OutcomeOf(st.answer) else LoopsForever;
    }
  }
}
