/**
  device/ide.c: how a transfer is split into commands of at most 256 sectors, what the drive is told
  through its registers, and the handshake between driver and interrupt handler.

  A register reads back what was last written to it. The drive itself is not modelled, beyond that it may
  interrupt at any time.
 */
module Ide {
  import opened Machine

  const SECTOR: nat := 512
  const TWO_28: nat := 0x1000_0000
  const TWO_24: nat := 0x100_0000

  // ---------------------------------------------------------------------------
  // Splitting
  // ---------------------------------------------------------------------------

  /** `a | b` */
  function Or(a: nat, b: nat): nat
  {
    if a == 0 then b
    else if b == 0 then a
    else 2 * Or(a / 2, b / 2) + (if a % 2 == 1 || b % 2 == 1 then 1 else 0)
  }

  /** The command registers of a channel. */
  datatype Registers = Registers(count: nat, low: nat, mid: nat, high: nat, dev: nat)

  /** The first sector a drive takes from its registers. */
  function SelectedLba(r: Registers): nat
  {
    r.low + r.mid * 0x100 + r.high * 0x1_0000 + r.dev % 16 * TWO_24
  }

  /** How many; 0 stands for 256. */
  function SelectedCount(r: Registers): nat
  {
    if r.count == 0 then 256 else r.count
  }

  /** One command as the drive sees it, and the memory its data goes to or comes from. */
  datatype Transfer = Transfer(lba: nat, sectors: nat, addr: nat, bytes: nat)

  /** disk_select_hd for device number `dev_no` */
  function SelectHd(devNo: nat): nat
  {
    if devNo == 1 then 0xF0 else 0xE0
  }

  function ChunkCount(n: nat): nat
  {
    (n + 255) / 256
  }

  /** The transfers a caller wants: one after the other, none but the last short. */
  function Wanted(lba: nat, buf: nat, n: nat): seq<Transfer>
  {
    seq(ChunkCount(n), k requires 0 <= k < ChunkCount(n) => WantedChunk(lba, buf, n, k))
  }

  function WantedChunk(lba: nat, buf: nat, n: nat, k: nat): Transfer
    requires 256 * k < n
  {
    var size := if n - 256 * k >= 256 then 256 else n - 256 * k;
    Transfer(lba + 256 * k, size, buf + 256 * k * SECTOR, size * SECTOR)
  }

  /** The device register when the k-th command is sent: nobody clears the address bits of earlier ones. */
  function DevAt(lba: nat, dev: nat, k: nat): nat
  {
    Or(if k == 0 then dev else DevAt(lba, dev, k - 1), (lba + 256 * k) % TWO_32 / TWO_24)
  }

  /** The k-th command as it comes out. */
  function SentChunk(lba: nat, buf: nat, n: nat, dev: nat, k: nat): Transfer
    requires 256 * k < n
  {
    var w := WantedChunk(lba, buf, n, k);
    Transfer(w.lba % TWO_24 + DevAt(lba, dev, k) % 16 * TWO_24, w.sectors, w.addr % TWO_32, w.bytes)
  }

  function Sent(lba: nat, buf: nat, n: nat, dev: nat): seq<Transfer>
  {
    seq(ChunkCount(n), k requires 0 <= k < ChunkCount(n) => SentChunk(lba, buf, n, dev, k))
  }

  /** SECTOR_TO_BYTES, of an 8-bit count; the same as the two branches of disk_sector_to_buf */
  function SectorToBytes(count: Byte): nat
  {
    if count == 0 then 256 * SECTOR else count * SECTOR
  }

  lemma LbaBytes(lba: nat)
    ensures lba % 256 + lba / 0x100 % 256 * 0x100 + lba / 0x1_0000 % 256 * 0x1_0000 == lba % TWO_24
  {
    var a, b := lba / 0x100, lba / 0x1_0000;
    assert a == 0x100 * b + a % 256 && b == 0x100 * (lba / TWO_24) + b % 256;
  }

  /** An 8-bit count loses 256, and both readers of it give 256 back. */
  lemma CountSurvives(once: nat)
    requires 1 <= once <= 256
    ensures (if once % 256 == 0 then 256 else once % 256) == once && SectorToBytes(once % 256) == once * SECTOR
  {
  }

  /** The k-th turn of the loop sends the k-th command. */
  lemma TurnSends(lba: Word32, buf: Word32, n: nat, dev: nat, k: nat, once: nat)
    requires 256 * k < n && once == if n - 256 * k >= 256 then 256 else n - 256 * k
    ensures var at := (lba + 256 * k) % TWO_32;
            SentChunk(lba, buf, n, dev, k) ==
            Transfer(at % TWO_24 + DevAt(lba, dev, k) % 16 * TWO_24, once, (buf + 256 * k * SECTOR) % TWO_32, once * SECTOR)
  {
    LowOfWord(lba + 256 * k);
  }

  lemma LowOfWord(x: nat)
    ensures x % TWO_32 % TWO_24 == x % TWO_24
  {
    var q, r := x / TWO_32, x % TWO_32;
    assert x == TWO_24 * (256 * q + r / TWO_24) + r % TWO_24;
  }

  class Channel {
    var regs: Registers
    const devNo: nat

    constructor (devNo: nat)
      ensures this.devNo == devNo
    {
      this.devNo := devNo;
      regs := Registers(0, 0, 0, 0, 0);
    }

    /** disk_select_sector: `count` arrives as a uint8_t */
    method SelectSector(lba: Word32, count: Byte)
      modifies this
      ensures SelectedLba(regs) == lba % TWO_24 + Or(old(regs.dev), lba / TWO_24) % 16 * TWO_24
      ensures SelectedCount(regs) == (if count == 0 then 256 else count) && regs.dev == Or(old(regs.dev), lba / TWO_24)
    {
      LbaBytes(lba);
      regs := Registers(count, lba % 256, lba / 0x100 % 256, lba / 0x1_0000 % 256, regs.dev);
      var device := regs.dev;
      regs := regs.(dev := Or(device, lba / TWO_24));
    }

    /** One turn of the loop, without the wait. */
    method OneCommand(lba: Word32, buf: Word32, n: Word32, done: nat, ghost dev: nat, ghost k: nat)
      returns (once: nat, t: Transfer)
      requires done == 256 * k < n && regs.dev == if k == 0 then dev else DevAt(lba, dev, k - 1)
      modifies this
      ensures t == SentChunk(lba, buf, n, dev, k) && regs.dev == DevAt(lba, dev, k)
      ensures once == if n - done >= 256 then 256 else n - done
    {
      once := if n - done >= 256 then 256 else n - done;
      CountSurvives(once);
      TurnSends(lba, buf, n, dev, k, once);
      SelectSector((lba + done) % TWO_32, once % 256);
      var bytes := SectorToBytes(once % 256);
      t := Transfer(SelectedLba(regs), SelectedCount(regs), (buf + done * SECTOR) % TWO_32, bytes);
    }

    /**
      The loop of ide_read and, with the data moved before the wait instead of after it, of ide_write: the
      commands sent, each with the data moved for it. Not `ok` is the assertion on the sector count.
     */
    method IdeTransfer(lba: Word32, buf: Word32, n: Word32) returns (ok: bool, log: seq<Transfer>)
      modifies this
      ensures ok <==> n > 0
      ensures ok ==> log == Sent(lba, buf, n, SelectHd(devNo))
    {
      log := [];
      if n == 0 { return false, log; }
      regs := regs.(dev := SelectHd(devNo));
      var done: nat := 0;
      while done < n
        invariant done <= n && |log| <= ChunkCount(n)
        invariant if done < n then done == 256 * |log| else |log| == ChunkCount(n)
        invariant forall k :: 0 <= k < |log| ==> log[k] == SentChunk(lba, buf, n, SelectHd(devNo), k)
        invariant regs.dev == if log == [] then SelectHd(devNo) else DevAt(lba, SelectHd(devNo), |log| - 1)
        decreases n - done
      {
        var once, t := OneCommand(lba, buf, n, done, SelectHd(devNo), |log|);
        log := log + [t];
        done := done + once;
      }
      return true, log;
    }
  }

  // ---------------------------------------------------------------------------
  // Is what is sent what is wanted?
  // ---------------------------------------------------------------------------

  /** Sector s of the disk and the 512 bytes at `addr` belong together in this transfer. */
  predicate Carries(t: Transfer, s: nat, addr: nat)
  {
    t.lba <= s < t.lba + t.sectors && addr == t.addr + (s - t.lba) * SECTOR && addr + SECTOR <= t.addr + t.bytes
  }

  /** What is wanted tiles: every sector in one chunk, exactly, at its own place in the buffer, and none beside. */
  lemma WantedTiles(lba: nat, buf: nat, n: nat, k: nat, s: nat, addr: nat)
    requires k < ChunkCount(n)
    ensures Carries(Wanted(lba, buf, n)[k], s, addr) <==>
            lba <= s < lba + n && addr == buf + (s - lba) * SECTOR && k == (s - lba) / 256
  {
  }

  lemma {:induction false} OrIsAtLeast(a: nat, b: nat)
    ensures a <= Or(a, b) && b <= Or(a, b)
  {
    if a > 0 && b > 0 { OrIsAtLeast(a / 2, b / 2); }
  }

  lemma {:induction false} OrOfOne(a: nat)
    ensures Or(a, a) == a
  {
    if a > 0 { OrOfOne(a / 2); }
  }

  /** Two neighbours agree on all bits but the last only if the first is even. */
  lemma OrOfNeighbours(a: nat)
    ensures Or(a, a + 1) == a + 1 <==> a % 2 == 0
  {
    OrHalves(a, a + 1);
    if a % 2 == 0 {
      assert (a + 1) / 2 == a / 2;
      OrOfOne(a / 2);
    }
  }

  lemma OrHalves(a: nat, b: nat)
    ensures Or(a, b) / 2 == Or(a / 2, b / 2)
    ensures Or(a, b) % 2 == (if a % 2 == 1 || b % 2 == 1 then 1 else 0)
  {
  }

  /** The low bits of `a | b` are those of a or those of b. */
  predicate SplitsAt(a: nat, b: nat, p: nat)
    requires p > 0
  {
    Or(a, b) % p == Or(a % p, b % p)
  }

  lemma {:induction false} OrLow(a: nat, b: nat, bits: nat, p: nat)
    requires p == Pow2(bits)
    ensures SplitsAt(a, b, p)
    decreases bits
  {
    if bits > 0 {
      var half := Pow2(bits - 1);
      OrHalves(a, b);
      OrLow(a / 2, b / 2, bits - 1, half);
      ModHalf(Or(a, b), half);
      ModHalf(a, half);
      ModHalf(b, half);
      OrHalves(a % p, b % p);
    }
  }

  function Pow2(n: nat): (r: nat)
    ensures r > 0
  {
    if n == 0 then 1 else 2 * Pow2(n - 1)
  }

  lemma ModHalf(a: nat, p: nat)
    requires p > 0
    ensures a % (2 * p) == a / 2 % p * 2 + a % 2
    ensures a % (2 * p) / 2 == a / 2 % p && a % (2 * p) % 2 == a % 2
  {
    var q, r := a / 2 / p, a / 2 % p;
    assert a / 2 == q * p + r;
    assert a == (2 * p) * q + (2 * r + a % 2);
    Euclid(a, 2 * p, q, 2 * r + a % 2);
  }

  lemma Euclid(a: int, d: int, q: int, r: int)
    requires 0 <= r < d && a == d * q + r
    ensures a / d == q && a % d == r
  {
    assert a - d * (a / d) == a % d;
    var e := a / d - q;
    assert d * e == r - a % d;
    MultipleIsFar(d, e);
  }

  lemma MultipleIsFar(d: int, e: int)
    requires d > 0
    ensures e >= 1 ==> d * e >= d
    ensures e <= -1 ==> d * e <= -d
  {
  }

  /** Bits 24 to 27 of the k-th start. */
  function High(lba: nat, k: nat): nat
  {
    (lba + 256 * k) / TWO_24
  }

  /** The starts stay within 16M sectors, or cross once from an even block of 16M to the next. */
  predicate FewCrossings(lba: nat, k: nat)
  {
    High(lba, k) == High(lba, 0) || (High(lba, 0) % 2 == 0 && High(lba, k) == High(lba, 0) + 1)
  }

  lemma DevLow(lba: nat, dev: nat, k: nat)
    requires dev % 16 == 0 && lba + 256 * k < TWO_28
    ensures DevAt(lba, dev, k) % 16 == Or(if k == 0 then 0 else DevAt(lba, dev, k - 1) % 16, High(lba, k))
  {
    OrNibble(if k == 0 then dev else DevAt(lba, dev, k - 1), High(lba, k));
    HighFits(lba, k);
  }

  lemma HighFits(lba: nat, k: nat)
    requires lba + 256 * k < TWO_28
    ensures High(lba, k) % 16 == High(lba, k) == (lba + 256 * k) % TWO_32 / TWO_24
  {
  }

  lemma OrNibble(a: nat, b: nat)
    ensures SplitsAt(a, b, 16)
  {
    Sixteen();
    OrLow(a, b, 4, 16);
  }

  lemma Sixteen()
    ensures Pow2(4) == 16
  {
  }

  /** The address bits are right up to the k-th command exactly with few crossings. */
  lemma {:induction false} HighBits(lba: nat, dev: nat, k: nat)
    requires dev % 16 == 0 && lba + 256 * k < TWO_28
    ensures (forall j :: 0 <= j <= k ==> DevAt(lba, dev, j) % 16 == High(lba, j)) <==> FewCrossings(lba, k)
    decreases k
  {
    DevLow(lba, dev, k);
    if k > 0 {
      HighBits(lba, dev, k - 1);
      var h := High(lba, k - 1);
      assert h <= High(lba, k) <= h + 1;
      OrOfOne(h);
      OrOfNeighbours(h);
      assert DevAt(lba, dev, k - 1) % 16 == h ==>
               (DevAt(lba, dev, k) % 16 == High(lba, k) <==> High(lba, k) == h || h % 2 == 0);
    }
  }

  lemma SentLba(lba: nat, buf: nat, n: nat, dev: nat, k: nat)
    requires 256 * k < n && buf + n * SECTOR <= TWO_32
    ensures SentChunk(lba, buf, n, dev, k) == WantedChunk(lba, buf, n, k) <==>
            lba + 256 * k < TWO_28 && DevAt(lba, dev, k) % 16 == High(lba, k)
  {
  }

  /**
    For a buffer inside memory: the commands sent are those wanted, if and only if the last of them starts
    inside the 28-bit range and their starts cross no boundary of 16M sectors, or one from an even block to
    an odd one.
   */
  lemma SplitExactly(lba: nat, buf: nat, n: nat, devNo: nat)
    requires n > 0 && buf + n * SECTOR <= TWO_32
    ensures var last := ChunkCount(n) - 1;
            Sent(lba, buf, n, SelectHd(devNo)) == Wanted(lba, buf, n) <==> lba + 256 * last < TWO_28 && FewCrossings(lba, last)
  {
    var dev, last := SelectHd(devNo), ChunkCount(n) - 1;
    forall k | 0 <= k <= last
      ensures Sent(lba, buf, n, dev)[k] == Wanted(lba, buf, n)[k] <==>
              lba + 256 * k < TWO_28 && DevAt(lba, dev, k) % 16 == High(lba, k)
    {
      SentLba(lba, buf, n, dev, k);
    }
    var sent, wanted := Sent(lba, buf, n, dev), Wanted(lba, buf, n);
    assert sent == wanted <==> forall k :: 0 <= k <= last ==> sent[k] == wanted[k];
    if lba + 256 * last < TWO_28 {
      HighBits(lba, dev, last);
    } else {
      assert sent[last] != wanted[last];
    }
  }

  /** A transfer that crosses from an odd block goes astray: the register still holds the old address bits. */
  lemma OddCrossingGoesAstray(buf: nat)
    requires buf + 512 * SECTOR <= TWO_32
    ensures Wanted(0x1FF_FF80, buf, 512)[1].lba == 0x200_0080
    ensures Sent(0x1FF_FF80, buf, 512, SelectHd(0)) != Wanted(0x1FF_FF80, buf, 512)
  {
    SplitExactly(0x1FF_FF80, buf, 512, 0);
  }
}
