/** fs/fs.c: partition_format, and the runs that start from a formatted partition. */
module Formats {
  import opened Options
  import opened Disks
  import opened InodeTable
  import opened Volumes
  import opened Entries
  import opened DirSlots
  import opened Dirs
  import opened Paths
  import opened Walks
  import opened WorkingDirs
  import opened Trees
  import opened Worlds
  import Bitmaps
  import NewDirs
  import Files
  import Heaps

  // ---------------------------------------------------------------- the layout

  const BITS_PER_SECTOR := 4096
  const USED := 3 + TABLE_SECTS   // boot sector, super block, inode bitmap and inode table

  function DivRoundUp(a: nat, b: nat): (r: nat)
    requires b > 0
    ensures b * r - b < a <= b * r || (a == 0 && r == 0)
  {
    (a + b - 1) / b
  }

  /** The first guess at block_bitmap_sects, for all sectors that are not used. */
  function FirstSects(sec_cnt: nat): nat
    requires sec_cnt >= USED
  {
    DivRoundUp(sec_cnt - USED, BITS_PER_SECTOR)
  }

  /** block_bitmap_bit_len */
  function BitLen(sec_cnt: nat): nat
    requires sec_cnt >= USED
  {
    sec_cnt - USED - FirstSects(sec_cnt)
  }

  /** block_bitmap_sects */
  function BitmapSects(sec_cnt: nat): nat
    requires sec_cnt >= USED
  {
    DivRoundUp(BitLen(sec_cnt), BITS_PER_SECTOR)
  }

  /** data_start_lba */
  function DataStart(start: nat, sec_cnt: nat): nat
    requires sec_cnt >= USED
  {
    start + BitmapSects(sec_cnt) + USED
  }

  // ---------------------------------------------------------------- the block bitmap

  /** Bit k of a bitmap that was formatted for len blocks: set behind the end, but for one bit, and for the root. */
  predicate BitIs(len: nat, k: nat) {
    k > len || (k == 0 && len >= 8)
  }

  /** The block bitmap, as it is formatted for len blocks. */
  function NewBits(len: nat, sects: nat): (bits: seq<bool>)
    ensures |bits| == BITS_PER_SECTOR * sects
  {
    seq(BITS_PER_SECTOR * sects, k requires 0 <= k => BitIs(len, k))
  }

  /** The bytes of the buffer at the end. */
  ghost predicate Filled(bytes: seq<bv8>, len: nat) {
    var last := len / 8;
    && last < |bytes|
    && (forall i :: 0 <= i < 8 ==> Bitmaps.BitOf(bytes[last], i) == (i > len % 8))
    && (forall j :: 0 <= j < |bytes| && j != last ==>
          bytes[j] == if last < j < last + 512 - last % 512 then 0xff else if j == 0 then 1 else 0)
  }

  lemma ConstantBytes(i: nat)
    requires i < 8
    ensures Bitmaps.BitOf(0xff, i) && !Bitmaps.BitOf(0, i) && (Bitmaps.BitOf(1, i) <==> i == 0)
  {
  }

  lemma FilledBit(bytes: seq<bv8>, len: nat, k: nat)
    requires Filled(bytes, len) && k < BITS_PER_SECTOR * DivRoundUp(len, BITS_PER_SECTOR) && k / 8 < |bytes|
    ensures Bitmaps.BitOf(bytes[k / 8], k % 8) == BitIs(len, k)
  {
    ConstantBytes(k % 8);
    InLastSector(len, k);
    assert k == 8 * (k / 8) + k % 8 && len == 8 * (len / 8) + len % 8;
  }

  /** A byte of the map behind the last one is in the same sector. */
  lemma InLastSector(len: nat, k: nat)
    requires k < BITS_PER_SECTOR * DivRoundUp(len, BITS_PER_SECTOR)
    ensures k / 8 > len / 8 ==> k / 8 < len / 8 + 512 - len / 8 % 512
  {
    var last, q := len / 8, len / BITS_PER_SECTOR;
    assert last / 512 == q && last == 512 * q + last % 512;
    assert DivRoundUp(len, BITS_PER_SECTOR) <= q + 1;
    assert k / 8 < 512 * (q + 1);
  }

  /** memset(&buf[at], 0xff, n) */
  method Memset(buf: array<bv8>, at: nat, n: nat)
    requires at + n <= buf.Length
    modifies buf
    ensures forall j :: 0 <= j < buf.Length ==> buf[j] == if at <= j < at + n then 0xff else old(buf[j])
  {
    for k := 0 to n
      invariant forall j :: 0 <= j < buf.Length ==> buf[j] == if at <= j < at + k then 0xff else old(buf[j])
    {
      buf[at + k] := 0xff;
    }
  }

  /** The loop that clears the bits of the last byte, from 0 up to last_bit. */
  method ClearLast(buf: array<bv8>, at: nat, last_bit: nat)
    requires at < buf.Length && buf[at] == 0xff && last_bit < 8
    modifies buf
    ensures forall i :: 0 <= i < 8 ==> Bitmaps.BitOf(buf[at], i) == (i > last_bit)
    ensures forall j :: 0 <= j < buf.Length && j != at ==> buf[j] == old(buf[j])
  {
    Bitmaps.FullByte(buf[at]);
    var bit_idx := 0;
    while bit_idx <= last_bit
      invariant 0 <= bit_idx <= last_bit + 1
      invariant forall i :: 0 <= i < 8 ==> Bitmaps.BitOf(buf[at], i) == (i >= bit_idx)
      invariant forall j :: 0 <= j < buf.Length && j != at ==> buf[j] == old(buf[j])
    {
      ghost var was := buf[at];
      buf[at] := buf[at] & !Bitmaps.Mask(bit_idx);
      Bitmaps.ByteSet(was, buf[at], bit_idx, false);
      bit_idx := bit_idx + 1;
    }
  }

  /** Panic: sys_malloc was asked for 3840 pages or more.  Overrun: memset ran over the end of the buffer. */
  datatype BitmapBuffer = Panic | Overrun | Bits(bits: seq<bool>)

  /** The buffer has the size of the inode table or of the bitmap, whichever is larger. */
  function BufferSize(sects: nat): nat {
    512 * (if sects > TABLE_SECTS then sects else TABLE_SECTS)
  }

  /** The assertion of malloc_page on the number of pages fails. */
  predicate TooLarge(sects: nat) {
    Heaps.PagesFor(BufferSize(sects)) >= 3840
  }

  /** In numbers: the buffer takes 3840 pages or more. */
  lemma TooLargeFrom(sects: nat)
    ensures TooLarge(sects) <==> sects >= 30712
  {
  }

  /** The number of blocks does not fit the arithmetic of uint32_t, or the bitmap fills all its sectors and the
      buffer. */
  predicate Overruns(len: nat, sects: nat) {
    len + BITS_PER_SECTOR - 1 >= WORDS || (len % BITS_PER_SECTOR == 0 && sects >= TABLE_SECTS)
  }

  /** DIV_ROUND_UP in uint32_t */
  function Sects32(len: nat): nat {
    Files.U32(len + BITS_PER_SECTOR - 1) / BITS_PER_SECTOR
  }

  /** The block bitmap for len blocks in `sects` sectors. */
  method FormatBitmap(len: nat, sects: nat) returns (r: BitmapBuffer)
    requires len < WORDS && sects == Sects32(len)
    ensures r.Panic? <==> TooLarge(sects)
    ensures r.Overrun? <==> !TooLarge(sects) && Overruns(len, sects)
    ensures r.Bits? ==> r.bits == NewBits(len, sects)
  {
    if TooLarge(sects) {
      return BitmapBuffer.Panic;
    }
    var size := BufferSize(sects);
    var buf := new bv8[size](_ => 0);
    buf[0] := buf[0] | 1;
    var last_byte, last_bit := len / 8, len % 8;
    var last_size := 512 - last_byte % 512;
    BufferHolds(len, sects, size);
    if last_byte + last_size > size {
      return BitmapBuffer.Overrun;
    }
    Memset(buf, last_byte, last_size);
    ClearLast(buf, last_byte, last_bit);
    var bytes := buf[..];
    assert Filled(bytes, len);
    forall k: nat | k < BITS_PER_SECTOR * sects
      ensures k / 8 < |bytes| && Bitmaps.BitOf(bytes[k / 8], k % 8) == BitIs(len, k) {
      FilledBit(bytes, len, k);
    }
    r := Bits(seq(BITS_PER_SECTOR * sects,
                  k requires 0 <= k < BITS_PER_SECTOR * sects => Bitmaps.BitOf(bytes[k / 8], k % 8)));
  }

  lemma BufferHolds(len: nat, sects: nat, size: nat)
    requires len < WORDS && sects == Sects32(len) && size == BufferSize(sects)
    ensures len / 8 + 512 - len / 8 % 512 > size <==> Overruns(len, sects)
    ensures !Overruns(len, sects) ==> sects == DivRoundUp(len, BITS_PER_SECTOR)
  {
    var q := len / BITS_PER_SECTOR;
    assert len / 8 / 512 == q;
    assert len / 8 + 512 - len / 8 % 512 == 512 * (q + 1);
    if len + BITS_PER_SECTOR - 1 < WORDS {
      assert sects == if len % BITS_PER_SECTOR == 0 then q else q + 1;
    } else {
      assert Files.U32(len + BITS_PER_SECTOR - 1) == len + BITS_PER_SECTOR - 1 - WORDS;
      assert sects == 0;
    }
  }

  /** The bit that is cleared too many: if it is in the map, it offers the block behind the last one counted, and that
      is the sector behind the partition, unless the first guess at the size of the bitmap was too large. */
  lemma OneBlockTooMany(start: nat, sec_cnt: nat, bits: seq<bool>)
    requires sec_cnt >= USED && |bits| == BITS_PER_SECTOR * BitmapSects(sec_cnt)
    requires forall k :: 0 <= k < |bits| ==> bits[k] == BitIs(BitLen(sec_cnt), k)
    ensures (exists k :: 0 <= k < |bits| && !bits[k] && DataStart(start, sec_cnt) + k >= start + sec_cnt)
            <==> BitLen(sec_cnt) % BITS_PER_SECTOR != 0 && BitmapSects(sec_cnt) == FirstSects(sec_cnt)
  {
    var len := BitLen(sec_cnt);
    if len % BITS_PER_SECTOR != 0 && BitmapSects(sec_cnt) == FirstSects(sec_cnt) {
      assert len < |bits| && !bits[len];
      assert DataStart(start, sec_cnt) + len == start + sec_cnt;
    }
  }

  /** On a partition of 1000 sectors: bit 388 offers sector 1000 of them. */
  lemma TooManyExample(start: nat, bits: seq<bool>)
    requires |bits| == BITS_PER_SECTOR && forall k :: 0 <= k < |bits| ==> bits[k] == BitIs(388, k)
    ensures BitLen(1000) == 388 && BitmapSects(1000) == 1
    ensures !bits[388] && DataStart(start, 1000) + 388 == start + 1000
  {
  }

  // ---------------------------------------------------------------- the inode table

  /** The two disks differ in the n sectors from lba on at most. */
  ghost predicate Only(d: Disk, d': Disk, lba: nat, n: nat) {
    forall l: nat :: !(lba <= l < lba + n) ==> ReadSector(d', l) == ReadSector(d, l)
  }

  /** Sector lba of the buffer that is written to sector t on. */
  function TableSector(t: nat, root: Inode, lba: nat): Sector
    requires |root.sectors| == 13
  {
    if lba == t then Splice(ZEROS, 0, Pure(root)) else ZEROS
  }

  /** The root's record, and zeros for all others. */
  ghost predicate RootRecorded(d: Disk, t: nat, root: Inode)
    requires |root.sectors| == 13
  {
    forall j: nat :: j < MAX_FILES_PER_PART ==> Record(d, t, j) == if j == 0 then Pure(root) else Zeros(INODE_SIZE)
  }

  /** The table as it is written. */
  method WriteTable(d: Disk, t: nat, root: Inode) returns (d': Disk)
    requires |root.sectors| == 13
    ensures RootRecorded(d', t, root)
    ensures Only(d, d', t, TABLE_SECTS)
  {
    d' := d;
    for s := 0 to TABLE_SECTS
      invariant forall lba: nat :: t <= lba < t + s ==> ReadSector(d', lba) == TableSector(t, root, lba)
      invariant Only(d, d', t, s)
    {
      d' := d'[t + s := TableSector(t, root, t + s)];
    }
    forall j: nat | j < MAX_FILES_PER_PART
      ensures Record(d', t, j) == if j == 0 then Pure(root) else Zeros(INODE_SIZE) {
      forall x | 0 <= x < INODE_SIZE ensures Record(d', t, j)[x] == if j == 0 then Pure(root)[x] else 0 {
        TableByte(d', t, root, j * INODE_SIZE + x);
      }
    }
  }

  lemma TableByte(d: Disk, t: nat, root: Inode, k: nat)
    requires |root.sectors| == 13 && k < INODE_SIZE * MAX_FILES_PER_PART
    requires forall lba: nat :: t <= lba < t + TABLE_SECTS ==> ReadSector(d, lba) == TableSector(t, root, lba)
    ensures ByteAt(d, t, k) == if k < INODE_SIZE then Pure(root)[k] else 0
  {
    assert k / SECTOR_SIZE < TABLE_SECTS;
  }

  // ---------------------------------------------------------------- partition_format

  /** The regions follow one another and end inside the partition, if it has more than its tables. */
  lemma LayoutFits(start: nat, sec_cnt: nat)
    requires sec_cnt >= USED && start + sec_cnt + BITS_PER_SECTOR <= WORDS
    ensures DataStart(start, sec_cnt) + BITS_PER_SECTOR * BitmapSects(sec_cnt) < WORDS
    ensures BitmapSects(sec_cnt) > 0 <==> sec_cnt > USED + 1
    ensures DataStart(start, sec_cnt) < start + sec_cnt <==> sec_cnt > USED
  {
  }

  /** The fields of the super block. */
  function SuperWords(start: nat, sec_cnt: nat, sects: nat, base: nat): (ws: seq<nat>)
    ensures |ws| == 13
  {
    [0x19590318, sec_cnt, MAX_FILES_PER_PART, start, start + 2, sects, start + 2 + sects, 1, start + 3 + sects,
     TABLE_SECTS, base, 0, SLOT]
  }

  const PAD := 460   // the bytes of struct super_block that partition_format leaves as they were on the stack

  function SuperSector(ws: seq<nat>, pad: seq<Byte>): Sector
    requires |ws| == 13 && |pad| == PAD
  {
    Encode(ws) + pad
  }

  ghost predicate FieldAt(sb: Sector, ws: seq<nat>, i: nat)
    requires |ws| == 13 && i < 13
  {
    Word(sb, i) == ws[i]
  }

  /** The sector holds this super block. */
  ghost predicate SuperIs(sb: Sector, ws: seq<nat>) {
    |ws| == 13 && forall i {:trigger FieldAt(sb, ws, i)} :: 0 <= i < 13 ==> FieldAt(sb, ws, i)
  }

  lemma SuperWritten(ws: seq<nat>, pad: seq<Byte>)
    requires |ws| == 13 && (forall i :: 0 <= i < 13 ==> ws[i] < WORDS) && |pad| == PAD
    ensures SuperIs(SuperSector(ws, pad), ws)
  {
    forall i: nat {:trigger FieldAt(SuperSector(ws, pad), ws, i)} | i < 13
      ensures FieldAt(SuperSector(ws, pad), ws, i) {
      assert SuperSector(ws, pad)[4 * i..4 * i + 4] == Encode(ws)[4 * i..4 * i + 4];
      EncodeWord(ws, i);
    }
  }

  lemma SuperUnique(sb: Sector, ws: seq<nat>, ws': seq<nat>)
    requires SuperIs(sb, ws) && SuperIs(sb, ws')
    ensures ws' == ws
  {
    forall i | 0 <= i < 13 ensures ws'[i] == ws[i] {
      assert FieldAt(sb, ws, i) && FieldAt(sb, ws', i);
    }
  }

  /** The sector of the inode bitmap: the root's number alone. */
  const ROOT_ONLY: Sector := Splice(ZEROS, 0, [1])

  /** The bitmap is on the disk from sector lba on. */
  ghost predicate BitsThere(d: Disk, lba: nat, bits: seq<bool>, sects: nat) {
    forall s: nat {:trigger PackSector(bits, s)} :: s < sects ==> ReadSector(d, lba + s) == PackSector(bits, s)
  }

  /** Region z of three: the inode bitmap in sector lba, the root's record in the table at t, its block. */
  ghost predicate RootRegion(d: Disk, lba: nat, t: nat, base: nat, z: nat) {
    if z == 0 then ReadSector(d, lba) == ROOT_ONLY
    else if z == 1 then Record(d, t, 0) == Pure(NewDirs.DirInode(0, base))
    else base in d && d[base] == NewDirs.Dots(0, 0)
  }

  ghost predicate RootWritten(d: Disk, lba: nat, t: nat, base: nat) {
    forall z: nat {:trigger RootRegion(d, lba, t, base, z)} :: z < 3 ==> RootRegion(d, lba, t, base, z)
  }

  lemma RootRegions(d: Disk, lba: nat, t: nat, base: nat)
    requires RootWritten(d, lba, t, base)
    ensures ReadSector(d, lba) == ROOT_ONLY && Record(d, t, 0) == Pure(NewDirs.DirInode(0, base))
    ensures base in d && d[base] == NewDirs.Dots(0, 0)
  {
    assert RootRegion(d, lba, t, base, 0) && RootRegion(d, lba, t, base, 1) && RootRegion(d, lba, t, base, 2);
  }

  /** What partition_format has written, region by region, for len blocks and a bitmap of `sects` sectors. */
  ghost predicate OnDisk(d: Disk, start: nat, sec_cnt: nat, len: nat, sects: nat, base: nat) {
    && SuperIs(ReadSector(d, start + 1), SuperWords(start, sec_cnt, sects, base))
    && BitsThere(d, start + 2, NewBits(len, sects), sects)
    && RootWritten(d, start + 2 + sects, start + 3 + sects, base)
  }

  /** ide_write of the block bitmap */
  method WriteBitmap(d: Disk, lba: nat, bits: seq<bool>, sects: nat) returns (d': Disk)
    ensures BitsThere(d', lba, bits, sects) && Only(d, d', lba, sects)
  {
    d' := d;
    for s := 0 to sects
      invariant BitsThere(d', lba, bits, s) && Only(d, d', lba, s)
    {
      d' := d'[lba + s := PackSector(bits, s)];
    }
  }

  lemma RootOnlyBit(d: Disk, lba: nat, k: nat)
    requires k < MAX_FILES_PER_PART && ReadSector(d, lba) == ROOT_ONLY
    ensures DiskBit(d, lba, k) == (k == 0)
  {
    SmallBits(k % 8);
    assert k / BITS_PER_SECTOR == 0 && k == 8 * (k / 8) + k % 8;
  }

  lemma {:induction false} SmallBits(k: nat)
    ensures !BitOf(0, k) && (BitOf(1, k) <==> k == 0)
  {
    if k > 0 {
      SmallBits(k - 1);
    }
  }

  /** Sectors outside the partition, and its boot sector, are as before. */
  ghost predicate Confined(d: Disk, d': Disk, start: nat, sec_cnt: nat) {
    forall l: nat :: !(start < l < start + sec_cnt) ==> ReadSector(d', l) == ReadSector(d, l)
  }

  /** The inode table and the root directory. */
  method WriteRoot(d: Disk, t: nat, root: Inode, dots: Sector) returns (d': Disk)
    requires |root.sectors| == 13
    ensures RootRecorded(d', t, root) && Only(d, d', t, TABLE_SECTS + 1)
    ensures t + TABLE_SECTS in d' && d'[t + TABLE_SECTS] == dots
  {
    var d1 := WriteTable(d, t, root);
    d' := d1[t + TABLE_SECTS := dots];
    forall j: nat | j < MAX_FILES_PER_PART ensures Record(d', t, j) == Record(d1, t, j) {
      SameRecord(d1, d', t, j);
    }
  }

  /** Super block, block bitmap and inode bitmap. */
  method WriteMaps(d: Disk, lba: nat, sb: Sector, bits: seq<bool>, sects: nat, used: Sector) returns (d': Disk)
    ensures ReadSector(d', lba) == sb && BitsThere(d', lba + 1, bits, sects) && ReadSector(d', lba + 1 + sects) == used
    ensures Only(d, d', lba, sects + 2)
  {
    var d0 := d[lba := sb];
    var d1 := WriteBitmap(d0, lba + 1, bits, sects);
    d' := d1[lba + 1 + sects := used];
    assert ReadSector(d0, lba) == sb && ReadSector(d1, lba) == sb;
    assert forall l: nat :: l != lba ==> ReadSector(d0, l) == ReadSector(d, l);
  }

  /** All five writes. */
  method WriteAll(d: Disk, start: nat, sb: Sector, bits: seq<bool>, sects: nat, used: Sector, root: Inode,
                  dots: Sector)
    returns (d': Disk)
    requires |root.sectors| == 13
    ensures Written(d', start, sb, bits, sects, used, root, dots) && Only(d, d', start + 1, sects + USED)
  {
    var d1 := WriteMaps(d, start + 1, sb, bits, sects, used);
    d' := WriteRoot(d1, start + 3 + sects, root, dots);
  }

  /** The regions of the partition, one after the other. */
  ghost predicate Written(d: Disk, start: nat, sb: Sector, bits: seq<bool>, sects: nat, used: Sector, root: Inode,
                          dots: Sector)
    requires |root.sectors| == 13
  {
    && ReadSector(d, start + 1) == sb && BitsThere(d, start + 2, bits, sects)
       && ReadSector(d, start + 2 + sects) == used
    && RootRecorded(d, start + 3 + sects, root)
    && start + sects + USED in d && d[start + sects + USED] == dots
  }

  method WritePartition(d: Disk, start: nat, sec_cnt: nat, len: nat, sects: nat, bits: seq<bool>, root: Inode,
                        dots: Sector, pad: seq<Byte>)
    returns (d': Disk)
    requires root == NewDirs.DirInode(0, start + sects + USED) && dots == NewDirs.Dots(0, 0)
    requires sec_cnt < WORDS && start + sects + USED < WORDS && |pad| == PAD && bits == NewBits(len, sects)
    ensures OnDisk(d', start, sec_cnt, len, sects, start + sects + USED) && Only(d, d', start + 1, sects + USED)
    ensures RootRecorded(d', start + 3 + sects, root)
  {
    var sb := SuperSector(SuperWords(start, sec_cnt, sects, start + sects + USED), pad);
    d' := WriteAll(d, start, sb, bits, sects, ROOT_ONLY, root, dots);
    AllOnDisk(d', start, sec_cnt, len, sects, sb, bits, root, dots, pad);
  }

  lemma AllOnDisk(d: Disk, start: nat, sec_cnt: nat, len: nat, sects: nat, sb: Sector, bits: seq<bool>, root: Inode,
                  dots: Sector, pad: seq<Byte>)
    requires sec_cnt < WORDS && start + sects + USED < WORDS && |pad| == PAD && bits == NewBits(len, sects)
    requires sb == SuperSector(SuperWords(start, sec_cnt, sects, start + sects + USED), pad)
    requires root == NewDirs.DirInode(0, start + sects + USED) && dots == NewDirs.Dots(0, 0)
    requires Written(d, start, sb, bits, sects, ROOT_ONLY, root, dots)
    ensures OnDisk(d, start, sec_cnt, len, sects, start + sects + USED) && RootRecorded(d, start + 3 + sects, root)
  {
    SuperWritten(SuperWords(start, sec_cnt, sects, start + sects + USED), pad);
    assert Record(d, start + 3 + sects, 0) == Pure(root);
  }

  /** The arithmetic of partition_format in uint32_t: exact, or the number of blocks is out of range. */
  lemma Layout32(sec_cnt: nat, free: nat, first: nat, len: nat, sects: nat)
    requires sec_cnt + BITS_PER_SECTOR <= WORDS && free == Files.U32(sec_cnt - USED) && first == Sects32(free)
    requires len == Files.U32(free - first) && sects == Sects32(len)
    ensures sec_cnt >= USED ==> len == BitLen(sec_cnt) && sects == BitmapSects(sec_cnt)
                                && len + BITS_PER_SECTOR - 1 < WORDS
    ensures sec_cnt < USED ==> len + BITS_PER_SECTOR - 1 >= WORDS && sects == 0
  {
    if sec_cnt < USED {
      assert free == WORDS + sec_cnt - USED;
      assert Files.U32(free + BITS_PER_SECTOR - 1) == free + BITS_PER_SECTOR - 1 - WORDS;
      assert first == 0 && len == free;
    }
  }

  /** Panic: sys_malloc was asked for too much.  Overrun: a buffer was overrun. */
  datatype Formatting = Panic | Overrun | Made(disk: Disk)

  /** The partition is smaller than its own tables, or its bitmap fills all its sectors and the buffer. */
  predicate Misfits(sec_cnt: nat) {
    sec_cnt < USED || (BitLen(sec_cnt) % BITS_PER_SECTOR == 0 && BitmapSects(sec_cnt) >= TABLE_SECTS)
  }

  /** How partition_format ends, and what is on the disk then. */
  ghost predicate FormatEnds(d: Disk, r: Formatting, start: nat, sec_cnt: nat) {
    && (r.Panic? <==> sec_cnt >= USED && TooLarge(BitmapSects(sec_cnt)))
    && (r.Overrun? <==> Misfits(sec_cnt) && !(sec_cnt >= USED && TooLarge(BitmapSects(sec_cnt))))
    && (r.Made? ==>
          var sects, base := BitmapSects(sec_cnt), DataStart(start, sec_cnt);
          && OnDisk(r.disk, start, sec_cnt, BitLen(sec_cnt), sects, base)
          && RootRecorded(r.disk, start + 3 + sects, NewDirs.DirInode(0, base))
          && (sec_cnt > USED ==> Confined(d, r.disk, start, sec_cnt)))
  }

  /** partition_format; `pad` is what the stack held behind the fields of the super block. */
  method Format(d: Disk, start: nat, sec_cnt: nat, pad: seq<Byte>) returns (r: Formatting)
    requires start + sec_cnt + BITS_PER_SECTOR <= WORDS && |pad| == PAD
    ensures FormatEnds(d, r, start, sec_cnt)
  {
    var free_sects := Files.U32(sec_cnt - USED);
    var first := Sects32(free_sects);
    var block_bitmap_bit_len := Files.U32(free_sects - first);
    var block_bitmap_sects := Sects32(block_bitmap_bit_len);
    Layout32(sec_cnt, free_sects, first, block_bitmap_bit_len, block_bitmap_sects);
    var b := FormatBitmap(block_bitmap_bit_len, block_bitmap_sects);
    if !b.Bits? {
      return if b.Panic? then Formatting.Panic else Formatting.Overrun;
    }
    LayoutFits(start, sec_cnt);
    var root := NewDirs.DirInode(0, start + block_bitmap_sects + USED);
    var d' := WritePartition(d, start, sec_cnt, block_bitmap_bit_len, block_bitmap_sects, b.bits, root,
                             NewDirs.Dots(0, 0), pad);
    r := Made(d');
  }

  // ---------------------------------------------------------------- filesys_init

  /** The super block of a partition has the magic number of this file system. */
  ghost predicate HasFileSystem(d: Disk, start: nat) {
    Word(ReadSector(d, start + 1), 0) == 0x19590318
  }

  lemma FormattedHas(d: Disk, start: nat, sec_cnt: nat, len: nat, sects: nat, base: nat)
    requires OnDisk(d, start, sec_cnt, len, sects, base)
    ensures HasFileSystem(d, start)
  {
    assert FieldAt(ReadSector(d, start + 1), SuperWords(start, sec_cnt, sects, base), 0);
  }

  /** filesys_init for one partition: it is formatted if it exists and has no file system. */
  method InitPartition(d: Disk, start: nat, sec_cnt: nat, pad: seq<Byte>) returns (r: Formatting)
    requires start + sec_cnt + BITS_PER_SECTOR <= WORDS && |pad| == PAD
    ensures sec_cnt == 0 || HasFileSystem(d, start) ==> r == Made(d)
    ensures sec_cnt != 0 && !HasFileSystem(d, start) ==> FormatEnds(d, r, start, sec_cnt)
    ensures sec_cnt != 0 && r.Made? ==> HasFileSystem(r.disk, start)
  {
    r := Made(d);
    if sec_cnt != 0 && Word(ReadSector(d, start + 1), 0) != 0x19590318 {
      r := Format(d, start, sec_cnt, pad);
      if r.Made? {
        FormattedHas(r.disk, start, sec_cnt, BitLen(sec_cnt), BitmapSects(sec_cnt), DataStart(start, sec_cnt));
      }
    }
  }

  /** The next start of the machine does not format again. */
  method InitTwice(d: Disk, start: nat, sec_cnt: nat, pad: seq<Byte>, pad2: seq<Byte>)
    returns (r: Formatting, again: Formatting)
    requires start + sec_cnt + BITS_PER_SECTOR <= WORDS && |pad| == PAD == |pad2|
    ensures again == r
  {
    r := InitPartition(d, start, sec_cnt, pad);
    again := r;
    if r.Made? {
      again := InitPartition(r.disk, start, sec_cnt, pad2);
    }
  }
}
