/** A mounted partition: which inode owns which block, and the block bitmap that must agree. */
module Volumes {
  import opened Options
  import opened Disks
  import opened InodeTable
  import Bitmaps

  const BLOCKS := 140     // 12 direct and 128 indirect blocks
  const TABLE := 12       // i_sectors[12] is the block of the indirect table

  // ---------------------------------------------------------------- the blocks of an inode

  /** The words of the indirect table, or zeros. */
  function Indirect(d: Disk, n: Inode): (ws: seq<nat>)
    requires |n.sectors| == 13
    ensures |ws| == 128
  {
    if n.sectors[TABLE] == 0 then seq(128, _ => 0) else SectorWords(ReadSector(d, n.sectors[TABLE]))
  }

  /** all_blocks, as inode_release or dir_read collect it. */
  function BlocksOf(d: Disk, n: Inode): (r: seq<nat>)
    requires |n.sectors| == 13
    ensures |r| == BLOCKS
  {
    n.sectors[..12] + Indirect(d, n)
  }

  /** All blocks in use: the data blocks, and last the table. */
  function Slots(d: Disk, n: Inode): (r: seq<nat>)
    requires |n.sectors| == 13
    ensures |r| == BLOCKS + 1
  {
    BlocksOf(d, n) + [n.sectors[TABLE]]
  }

  ghost predicate Clash(s: seq<nat>, i: nat, j: nat) {
    i < j < |s| && s[i] != 0 && s[i] == s[j]
  }

  /** No block number but 0 occurs twice. */
  ghost predicate Distinct(s: seq<nat>) {
    forall i, j :: !Clash(s, i, j)
  }

  ghost function NonZero(s: seq<nat>): (r: set<nat>)
    ensures forall x :: x in r <==> x != 0 && x in s
  {
    set x | x in s && x != 0
  }

  ghost function Owns(d: Disk, n: Inode): set<nat>
    requires |n.sectors| == 13
  {
    NonZero(Slots(d, n))
  }

  /** What an inode owns depends on its table block alone. */
  lemma SlotsKept(d: Disk, d': Disk, n: Inode)
    requires |n.sectors| == 13
    requires n.sectors[TABLE] != 0 ==> ReadSector(d', n.sectors[TABLE]) == ReadSector(d, n.sectors[TABLE])
    ensures Slots(d', n) == Slots(d, n)
  {
  }

  // ---------------------------------------------------------------- the bitmap against the owners

  type Ownership = map<nat, set<nat>>

  ghost predicate Shares(o: Ownership, i: nat, j: nat, b: nat) {
    i in o && j in o && i != j && b in o[i] && b in o[j]
  }

  ghost predicate Taken(o: Ownership, b: nat) {
    exists i :: i in o && b in o[i]
  }

  /** Blocks are numbered from `base`.  No block has two owners, and a bit is set exactly if its block has
      an owner or is reserved: a bit behind the end of the partition. */
  ghost predicate Accounted(o: Ownership, bits: seq<bool>, base: nat, reserved: set<nat>) {
    && (forall i, j, b :: !Shares(o, i, j, b))
    && (forall b: nat {:trigger Taken(o, b)} :: Taken(o, b) ==> base <= b < base + |bits| && b !in reserved)
    && (forall b: nat {:trigger Marked(bits, base, b)} :: base <= b < base + |bits| ==>
          (Marked(bits, base, b) <==> Taken(o, b) || b in reserved))
  }

  predicate Marked(bits: seq<bool>, base: nat, b: nat) {
    base <= b < base + |bits| && bits[b - base]
  }

  ghost function OwnedBy(o: Ownership, i: nat): set<nat> {
    if i in o then o[i] else {}
  }

  /** Owner i goes from one set of blocks to another, and exactly the bits that differ are changed. */
  lemma Reassign(o: Ownership, o': Ownership, bits: seq<bool>, bits': seq<bool>, base: nat, reserved: set<nat>, i: nat)
    requires Accounted(o, bits, base, reserved) && |bits'| == |bits|
    requires forall j :: j != i ==> OwnedBy(o', j) == OwnedBy(o, j)
    requires forall b :: b in OwnedBy(o', i) && b !in OwnedBy(o, i) ==>
               base <= b < base + |bits| && !Marked(bits, base, b)
    requires forall b :: Marked(bits', base, b) <==>
               (Marked(bits, base, b) && !(b in OwnedBy(o, i) && b !in OwnedBy(o', i))) ||
               (b in OwnedBy(o', i) && b !in OwnedBy(o, i))
    ensures Accounted(o', bits', base, reserved)
  {
    forall j, k, b ensures !Shares(o', j, k, b) {
      assert !Shares(o, j, k, b);
      if Shares(o', j, k, b) {
        assert b in OwnedBy(o', j) && b in OwnedBy(o', k);
        StillTaken(o, o', i, j, b);
        StillTaken(o, o', i, k, b);
      }
    }
    forall b: nat ensures Taken(o', b) ==> base <= b < base + |bits| && b !in reserved {
      TakenAfter(o, o', i, b);
    }
    forall b: nat | base <= b < base + |bits| ensures Marked(bits', base, b) <==> Taken(o', b) || b in reserved {
      TakenAfter(o, o', i, b);
    }
  }

  lemma StillTaken(o: Ownership, o': Ownership, i: nat, j: nat, b: nat)
    requires forall k :: k != i ==> OwnedBy(o', k) == OwnedBy(o, k)
    requires b in OwnedBy(o', j) && j != i
    ensures b in OwnedBy(o, j) && Taken(o, b)
  {
    assert j in o && b in o[j];
  }

  lemma TakenAfter(o: Ownership, o': Ownership, i: nat, b: nat)
    requires forall j :: j != i ==> OwnedBy(o', j) == OwnedBy(o, j)
    requires forall j, k, c :: !Shares(o, j, k, c)
    ensures b in OwnedBy(o, i) ==> Taken(o, b) && (Taken(o', b) <==> b in OwnedBy(o', i))
    ensures b !in OwnedBy(o, i) && b !in OwnedBy(o', i) ==> (Taken(o', b) <==> Taken(o, b))
    ensures b in OwnedBy(o', i) ==> Taken(o', b)
  {
    if Taken(o', b) {
      var j :| j in o' && b in o'[j];
      assert b in OwnedBy(o', j);
      if j != i {
        StillTaken(o, o', i, j, b);
        assert !Shares(o, i, j, b);
      }
    }
    if Taken(o, b) {
      var j :| j in o && b in o[j];
      assert b in OwnedBy(o, j);
      if j != i {
        StillTaken(o', o, i, j, b);
      }
    }
  }

  // ---------------------------------------------------------------- allocation in progress

  /** The slots of an inode while new blocks are entered: `slots0` and `bits0` from before, `slots` and
      `bits` now.  Every new block was free, is in one slot, and is marked. */
  ghost predicate Growing(slots0: seq<nat>, bits0: seq<bool>, slots: seq<nat>, bits: seq<bool>, base: nat) {
    && |slots| == |slots0| && |bits| == |bits0| && Distinct(slots)
    && (forall b :: b in NonZero(slots0) ==> b in NonZero(slots) && Marked(bits0, base, b))
    && (forall b :: Marked(bits, base, b) <==> Marked(bits0, base, b) || b in NonZero(slots))
    && (forall b :: b in NonZero(slots) && b !in NonZero(slots0) ==>
          base <= b < base + |bits| && !Marked(bits0, base, b))
  }

  lemma SetSlot(s: seq<nat>, k: nat, x: nat)
    requires Distinct(s) && k < |s| && s[k] == 0 && x != 0 && x !in s
    ensures Distinct(s[k := x]) && NonZero(s[k := x]) == NonZero(s) + {x}
  {
    var t := s[k := x];
    forall i, j ensures !Clash(t, i, j) {
      assert !Clash(s, i, j);
    }
    forall y ensures y in t && y != 0 <==> (y in s && y != 0) || y == x {
      if y in s && y != 0 {
        var i :| 0 <= i < |s| && s[i] == y;
        assert t[i] == y;
      }
      if y == x {
        assert t[k] == x;
      }
    }
  }

  lemma GrowOne(slots0: seq<nat>, bits0: seq<bool>, slots: seq<nat>, bits: seq<bool>, base: nat, k: nat, b: nat)
    requires Growing(slots0, bits0, slots, bits, base) && k < |slots| && slots[k] == 0
    requires 0 < base <= b < base + |bits| && !Marked(bits, base, b)
    ensures Growing(slots0, bits0, slots[k := b], bits[b - base := true], base)
  {
    assert b !in NonZero(slots);
    SetSlot(slots, k, b);
    forall c ensures Marked(bits[b - base := true], base, c) <==> Marked(bits, base, c) || c == b {
    }
  }

  // ---------------------------------------------------------------- the partition

  ghost function OwnMap(d: Disk, inodes: map<nat, Inode>): Ownership
    requires forall i <- inodes :: |inodes[i].sectors| == 13
  {
    map i | i in inodes :: Owns(d, inodes[i])
  }

  predicate Numbered(inodes: map<nat, Inode>) {
    forall i <- inodes :: inodes[i].Fits() && inodes[i].no == i
  }

  /** Inode j has the same blocks on both disks, with the same contents. */
  ghost predicate Untouched(d: Disk, d': Disk, n: Inode)
    requires |n.sectors| == 13
  {
    Slots(d', n) == Slots(d, n) && forall b :: b in Owns(d, n) ==> ReadSector(d', b) == ReadSector(d, b)
  }

  lemma DisjointUntouched(d: Disk, d': Disk, n: Inode)
    requires |n.sectors| == 13
    requires forall b :: b in Owns(d, n) ==> ReadSector(d', b) == ReadSector(d, b)
    ensures Untouched(d, d', n)
  {
    if n.sectors[TABLE] != 0 {
      assert Slots(d, n)[BLOCKS] == n.sectors[TABLE];
      assert n.sectors[TABLE] in Owns(d, n);
    }
    SlotsKept(d, d', n);
  }

  /** A change that stays within the blocks of inode i, old and new, leaves every other inode alone. */
  lemma OthersUntouched(d: Disk, d': Disk, inodes: map<nat, Inode>, bits: seq<bool>, base: nat, reserved: set<nat>,
                        i: nat, mine: set<nat>)
    requires Numbered(inodes) && Accounted(OwnMap(d, inodes), bits, base, reserved)
    requires forall b :: b in mine ==> b in OwnedBy(OwnMap(d, inodes), i) || !Taken(OwnMap(d, inodes), b)
    requires forall b: nat :: b >= base && b !in mine ==> ReadSector(d', b) == ReadSector(d, b)
    ensures forall j <- inodes :: j != i ==> Untouched(d, d', inodes[j])
  {
    var o := OwnMap(d, inodes);
    forall j <- inodes | j != i ensures Untouched(d, d', inodes[j]) {
      forall b | b in Owns(d, inodes[j]) ensures ReadSector(d', b) == ReadSector(d, b) {
        assert j in o && b in o[j] && Taken(o, b);
        assert !Shares(o, i, j, b);
      }
      DisjointUntouched(d, d', inodes[j]);
    }
  }

  /** Inode i has grown; nothing else has changed. */
  lemma CommitGrowth(d: Disk, d': Disk, inodes: map<nat, Inode>, i: nat, n: Inode, bits: seq<bool>, bits': seq<bool>,
                     base: nat, reserved: set<nat>)
    requires Numbered(inodes) && i in inodes && n.Fits() && n.no == i
    requires Accounted(OwnMap(d, inodes), bits, base, reserved)
    requires Growing(Slots(d, inodes[i]), bits, Slots(d', n), bits', base)
    requires forall b: nat :: b >= base && b !in Owns(d', n) ==> ReadSector(d', b) == ReadSector(d, b)
    ensures Accounted(OwnMap(d', inodes[i := n]), bits', base, reserved)
    ensures forall j <- inodes :: j != i ==> Untouched(d, d', inodes[j])
  {
    var o, o' := OwnMap(d, inodes), OwnMap(d', inodes[i := n]);
    forall b | b in Owns(d', n) ensures b in OwnedBy(o, i) || !Taken(o, b) {
      if b !in Owns(d, inodes[i]) {
        assert !Marked(bits, base, b);
      }
    }
    OthersUntouched(d, d', inodes, bits, base, reserved, i, Owns(d', n));
    forall j | j != i ensures OwnedBy(o', j) == OwnedBy(o, j) {
      if j in inodes {
        assert Untouched(d, d', inodes[j]);
      }
    }
    assert OwnedBy(o', i) == Owns(d', n) && OwnedBy(o, i) == Owns(d, inodes[i]);
    Reassign(o, o', bits, bits', base, reserved, i);
  }

  function Limit(n: nat): nat {
    if n == 0 then 1 else 2 * Limit(n - 1)
  }

  /** The number whose n bits are those of the map from bit i on, the lowest first; there are zeros behind the map. */
  function PackBits(bits: seq<bool>, i: nat, n: nat): (r: nat)
    ensures r < Limit(n)
    decreases n
  {
    if n == 0 then 0 else (if i < |bits| && bits[i] then 1 else 0) + 2 * PackBits(bits, i + 1, n - 1)
  }

  function PackByte(bits: seq<bool>, i: nat): Byte {
    assert Limit(2) == 4 && Limit(4) == 16 && Limit(6) == 64 && Limit(8) == 256;
    PackBits(bits, i, 8)
  }

  /** Sector `sec` of the bitmap, as bitmap_sync writes it. */
  function PackSector(bits: seq<bool>, sec: nat): Sector {
    seq<Byte>(512, j requires 0 <= j => PackByte(bits, sec * 4096 + 8 * j))
  }

  /** Bit k of a number. */
  predicate BitOf(x: nat, k: nat) {
    if k == 0 then x % 2 == 1 else BitOf(x / 2, k - 1)
  }

  lemma {:induction false} PackedBit(bits: seq<bool>, i: nat, n: nat, k: nat)
    requires k < n
    ensures BitOf(PackBits(bits, i, n), k) <==> i + k < |bits| && bits[i + k]
    decreases n
  {
    var low, high := if i < |bits| && bits[i] then 1 else 0, PackBits(bits, i + 1, n - 1);
    assert PackBits(bits, i, n) == low + 2 * high;
    Halves(low, high);
    if k > 0 {
      PackedBit(bits, i + 1, n - 1, k - 1);
    }
  }

  lemma Halves(low: nat, high: nat)
    requires low <= 1
    ensures (low + 2 * high) % 2 == low && (low + 2 * high) / 2 == high
  {
  }

  /** Bit k of byte j of the sector that is written is the bit of the map in memory. */
  lemma PackedByte(bits: seq<bool>, sec: nat, j: nat, k: nat)
    requires j < 512 && k < 8
    ensures BitOf(PackSector(bits, sec)[j], k) <==> sec * 4096 + 8 * j + k < |bits| && bits[sec * 4096 + 8 * j + k]
  {
    PackedBit(bits, sec * 4096 + 8 * j, 8, k);
  }

  /** Bit k of the bitmap that is on the disk from sector lba on. */
  predicate DiskBit(d: Disk, lba: nat, k: nat) {
    BitOf(ReadSector(d, lba + k / 4096)[k % 4096 / 8], k % 8)
  }

  /** The sector with bit k is on the disk as in memory. */
  ghost predicate SectorSynced(d: Disk, lba: nat, bits: seq<bool>, k: nat) {
    ReadSector(d, lba + k / 4096) == PackSector(bits, k / 4096)
  }

  /** Sector, byte and bit of bit k. */
  lemma BitIndex(k: nat)
    ensures k == k / 4096 * 4096 + 8 * (k % 4096 / 8) + k % 8
  {
  }

  lemma SyncedBit(d: Disk, lba: nat, bits: seq<bool>, k: nat)
    requires k < |bits| && SectorSynced(d, lba, bits, k)
    ensures DiskBit(d, lba, k) == bits[k]
  {
    BitIndex(k);
    PackedByte(bits, k / 4096, k % 4096 / 8, k % 8);
  }

  /** Bit k of the bitmap is on the disk as in memory, or it stands for a block in `tables`. */
  ghost predicate NotedAt(d: Disk, lba: nat, bits: seq<bool>, base: nat, tables: set<nat>, k: nat) {
    k < |bits| && base + k !in tables ==> DiskBit(d, lba, k) == bits[k]
  }

  /** The bitmap on the disk, from sector lba on, is the one in memory, but for the blocks in `tables`: the bit of an
      indirect table is not synced. */
  ghost predicate Noted(d: Disk, lba: nat, bits: seq<bool>, base: nat, tables: set<nat>) {
    forall k: nat {:trigger NotedAt(d, lba, bits, base, tables, k)} :: NotedAt(d, lba, bits, base, tables, k)
  }

  /** The indirect tables of all inodes. */
  ghost function Tables(inodes: map<nat, Inode>): set<nat> {
    set i | i in inodes && |inodes[i].sectors| == 13 :: inodes[i].sectors[TABLE]
  }

  /** The two disks agree on the sectors from lba up to t. */
  ghost predicate SameBitmap(d: Disk, d': Disk, lba: nat, t: nat) {
    forall l: nat :: lba <= l < t ==> ReadSector(d', l) == ReadSector(d, l)
  }

  /** The sectors of the bitmap are as before, and no table is left out but 0. */
  lemma NotedKept(d: Disk, d': Disk, lba: nat, bits: seq<bool>, base: nat, tables: set<nat>, tables': set<nat>)
    requires Noted(d, lba, bits, base, tables) && base > 0 && tables - {0} <= tables' && |bits| % 4096 == 0
    requires SameBitmap(d, d', lba, lba + |bits| / 4096)
    ensures Noted(d', lba, bits, base, tables')
  {
    forall k: nat ensures NotedAt(d', lba, bits, base, tables', k) {
      assert NotedAt(d, lba, bits, base, tables, k);
      assert k < |bits| ==> k / 4096 < |bits| / 4096;
    }
  }

  /** Bit b - base has changed, and its sector was synced. */
  lemma NotedSynced(d: Disk, d': Disk, lba: nat, bits: seq<bool>, bits': seq<bool>, base: nat, tables: set<nat>,
                    tables': set<nat>, b: nat, v: bool)
    requires Noted(d, lba, bits, base, tables) && base <= b < base + |bits| && tables - {b} <= tables'
    requires bits' == bits[b - base := v]
    requires var sec := (b - base) / 4096; d' == d[lba + sec := PackSector(bits', sec)]
    ensures Noted(d', lba, bits', base, tables')
  {
    forall k: nat ensures NotedAt(d', lba, bits', base, tables', k) {
      assert NotedAt(d, lba, bits, base, tables, k);
      if k < |bits| && k / 4096 == (b - base) / 4096 {
        SyncedBit(d', lba, bits', k);
      }
    }
  }

  /** The bit of a table has changed, and was not synced. */
  lemma NotedTable(d: Disk, lba: nat, bits: seq<bool>, bits': seq<bool>, base: nat, tables: set<nat>, b: nat)
    requires Noted(d, lba, bits, base, tables) && base <= b < base + |bits| && bits' == bits[b - base := true]
    ensures Noted(d, lba, bits', base, tables + {b})
  {
    forall k: nat ensures NotedAt(d, lba, bits', base, tables + {b}, k) {
      assert NotedAt(d, lba, bits, base, tables, k);
    }
  }

  /** Bit t of a table is set in memory and, if the next block is in another sector of the bitmap, not on the disk. */
  lemma TableBitLost(d: Disk, lba: nat, bits: seq<bool>, t: nat, b: nat)
    requires t < |bits| && b < |bits| && !bits[t] && !bits[b] && t / 4096 != b / 4096 && DiskBit(d, lba, t) == bits[t]
    ensures var bits' := bits[t := true][b := true];
            var d' := d[lba + b / 4096 := PackSector(bits', b / 4096)];
            DiskBit(d', lba, t) != bits'[t] && DiskBit(d', lba, b) == bits'[b]
  {
    var bits' := bits[t := true][b := true];
    SyncedBit(d[lba + b / 4096 := PackSector(bits', b / 4096)], lba, bits', b);
  }

  /** The two disks agree on the data region. */
  ghost predicate SameData(d: Disk, d': Disk, dataStart: nat) {
    forall b: nat :: b >= dataStart ==> ReadSector(d', b) == ReadSector(d, b)
  }

  lemma RootMarked(d: Disk, inodes: map<nat, Inode>, bits: seq<bool>, base: nat, reserved: set<nat>)
    requires Numbered(inodes) && Accounted(OwnMap(d, inodes), bits, base, reserved)
    requires 0 in inodes && inodes[0].sectors[0] == base && base > 0
    ensures Marked(bits, base, base)
  {
    var o := OwnMap(d, inodes);
    assert Slots(d, inodes[0])[0] == base;
    assert 0 in o && base in o[0];
    assert Taken(o, base);
  }

  /** What makes a partition valid, apart from its layout and its root. */
  ghost predicate Sound(d: Disk, inodes: map<nat, Inode>, bits: seq<bool>, base: nat, reserved: set<nat>) {
    && Numbered(inodes)
    && (forall i {:trigger Slots(d, inodes[i])} :: i in inodes ==> Distinct(Slots(d, inodes[i])))
    && Accounted(OwnMap(d, inodes), bits, base, reserved)
  }

  /** The number of blocks that are free. */
  ghost function FreeBits(bits: seq<bool>): nat {
    multiset(bits)[false]
  }

  lemma FreeNone(bits: seq<bool>)
    ensures FreeBits(bits) == 0 <==> forall i :: 0 <= i < |bits| ==> bits[i]
  {
    assert FreeBits(bits) > 0 <==> false in multiset(bits);
    assert false in multiset(bits) <==> false in bits;
  }

  lemma FreeSet(bits: seq<bool>, k: nat)
    requires k < |bits|
    ensures !bits[k] ==> FreeBits(bits[k := true]) == FreeBits(bits) - 1
  {
  }

  class Partition {
    const bitmapLba: nat
    const tableLba: nat
    const dataStart: nat
    var disk: Disk
    var bits: seq<bool>
    /** The inodes in use, as inode_open gives them. */
    var inodes: map<nat, Inode>
    /** Bits set from the start: behind the end of the partition. */
    ghost const reserved: set<nat>

    constructor (bitmapLba: nat, tableLba: nat, dataStart: nat, disk: Disk, bits: seq<bool>, inodes: map<nat, Inode>,
                 ghost reserved: set<nat>)
      ensures this.bitmapLba == bitmapLba && this.tableLba == tableLba && this.dataStart == dataStart
      ensures this.disk == disk && this.bits == bits && this.inodes == inodes && this.reserved == reserved
    {
      this.bitmapLba, this.tableLba, this.dataStart := bitmapLba, tableLba, dataStart;
      this.disk, this.bits, this.inodes, this.reserved := disk, bits, inodes, reserved;
    }

    ghost predicate Layout()
      reads this
    {
      && |bits| % 4096 == 0 && 0 < bitmapLba && bitmapLba + |bits| / 4096 <= tableLba
      && tableLba + TABLE_SECTS <= dataStart && dataStart + |bits| < WORDS
    }

    /** The first data block belongs to the root directory. */
    ghost predicate RootOk()
      reads this
    {
      0 in inodes && |inodes[0].sectors| == 13 && inodes[0].sectors[0] == dataStart
    }

    /** The bitmap is on the disk, but for the tables of the inodes and of n. */
    ghost predicate NotedFor(n: Inode)
      requires |n.sectors| == 13
      reads this
    {
      Noted(disk, bitmapLba, bits, dataStart, Tables(inodes) + {n.sectors[TABLE]})
    }

    /** No block has two owners or two places in one inode, and the bitmap marks the owned blocks, on the disk as in
        memory. */
    ghost predicate Valid()
      reads this
    {
      && Layout() && RootOk() && Sound(disk, inodes, bits, dataStart, reserved)
      && Noted(disk, bitmapLba, bits, dataStart, Tables(inodes))
    }

    /** block_bitmap_alloc; the scan panics on a full map. */
    method BlockAlloc() returns (r: Option<nat>)
      modifies this`bits
      ensures r.None? <==> FreeBits(old(bits)) == 0
      ensures r.None? ==> bits == old(bits)
      ensures r.Some? ==>
                && FreeBits(bits) == FreeBits(old(bits)) - 1
                && Bitmaps.FirstFit(old(bits), |old(bits)|, 1) == Some(r.value - dataStart)
                && dataStart <= r.value < dataStart + |old(bits)| && !Marked(old(bits), dataStart, r.value)
                && bits == old(bits)[r.value - dataStart := true]
    {
      var bit := Bitmaps.Answer(bits, 1);
      FreeNone(bits);
      if !bit.At? {
        return None;
      }
      assert !bits[bit.start];
      FreeSet(bits, bit.start);
      bits := bits[bit.start := true];
      return Some(dataStart + bit.start);
    }

    /** bitmap_sync for the block bitmap */
    method BitmapSync(b: nat)
      requires Layout() && dataStart <= b < dataStart + |bits|
      modifies this`disk
      ensures SameData(old(disk), disk, tableLba)
      ensures var sec := (b - dataStart) / 4096; disk == old(disk)[bitmapLba + sec := PackSector(bits, sec)]
    {
      var off_sec := (b - dataStart) / 4096;
      assert off_sec < |bits| / 4096;
      disk := disk[bitmapLba + off_sec := PackSector(bits, off_sec)];
    }

    /** Allocate a block and sync its part of the bitmap, as every loop of file_write does. */
    method NewBlock(ghost tables: set<nat>) returns (r: Option<nat>)
      requires Layout()
      modifies this`bits, this`disk
      ensures Layout() && SameData(old(disk), disk, tableLba)
      ensures Noted(old(disk), bitmapLba, old(bits), dataStart, tables) ==>
                Noted(disk, bitmapLba, bits, dataStart, tables)
      ensures r.None? <==> FreeBits(old(bits)) == 0
      ensures r.None? ==> bits == old(bits)
      ensures r.Some? ==>
                && FreeBits(bits) == FreeBits(old(bits)) - 1
                && dataStart <= r.value < dataStart + |old(bits)| && !Marked(old(bits), dataStart, r.value)
                && bits == old(bits)[r.value - dataStart := true]
                && SectorSynced(disk, bitmapLba, bits, r.value - dataStart)
    {
      r := BlockAlloc();
      if r.Some? {
        BitmapSync(r.value);
        if Noted(old(disk), bitmapLba, old(bits), dataStart, tables) {
          NotedSynced(old(disk), disk, bitmapLba, old(bits), bits, dataStart, tables, tables, r.value, true);
        }
      }
    }
  }
}
