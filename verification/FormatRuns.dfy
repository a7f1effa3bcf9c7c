/** fs/fs.c: mount_partition, and the runs that start from a formatted partition. */
module FormatRuns {
  import opened Options
  import opened Disks
  import opened InodeTable
  import opened Volumes
  import opened Entries
  import opened DirSlots
  import opened Dirs
  import opened Paths
  import opened Walks
  import opened WorkingDirs
  import opened Trees
  import opened Worlds
  import opened Formats
  import NewDirs
  import Files
  import Heaps
  import opened Mounts
  import Runs

  // ---------------------------------------------------------------- mount_partition

  /** Panic: a buffer was not given.  Overrun: a buffer is smaller than what is read into it. */
  datatype Mounting = Panic | Overrun | Mounted(part: Partition)

  /** sys_malloc gives NULL for no byte, and malloc_page asserts on too many pages. */
  predicate NoBuffer(size: nat) {
    size == 0 || Heaps.PagesFor(size) >= 3840
  }

  /** A buffer for so many sectors is given and holds them: the product is in uint32_t. */
  predicate Buffered(sects: nat) {
    !NoBuffer(Files.U32(SECTOR_SIZE * sects)) && SECTOR_SIZE * sects < WORDS
  }

  /** ide_read of the block bitmap */
  function BitsOn(d: Disk, lba: nat, sects: nat): (bits: seq<bool>)
    ensures |bits| == BITS_PER_SECTOR * sects
  {
    seq(BITS_PER_SECTOR * sects, k requires 0 <= k => DiskBit(d, lba, k))
  }

  /** The inodes in use: those whose bit is set, as inode_open reads their records. */
  function InodesOn(d: Disk, lba: nat, sects: nat, t: nat): map<nat, Inode> {
    map no: nat | no < BITS_PER_SECTOR * sects && DiskBit(d, lba, no) :: Parse(Record(d, t, no))
  }

  /** The partition in memory, as the super block and the bitmaps on the disk say. */
  ghost predicate MountedFrom(p: Partition, d: Disk, sb: seq<nat>)
    requires |sb| == 13
    reads p
  {
    && p.bitmapLba == sb[4] && p.tableLba == sb[8] && p.dataStart == sb[10] && p.disk == d
    && p.bits == BitsOn(d, sb[4], sb[5]) && p.inodes == InodesOn(d, sb[6], sb[7], sb[8])
  }

  /** mount_partition; sb is the copy of the super block in memory. */
  method MountPartition(d: Disk, start: nat, ghost reserved: set<nat>) returns (r: Mounting, sb: seq<nat>)
    ensures SuperIs(ReadSector(d, start + 1), sb)
    ensures r.Mounted? <==> Buffered(sb[5]) && Buffered(sb[7])
    ensures r.Overrun? ==> SECTOR_SIZE * sb[5] >= WORDS || SECTOR_SIZE * sb[7] >= WORDS
    ensures r.Mounted? ==> fresh(r.part) && MountedFrom(r.part, d, sb) && r.part.reserved == reserved
  {
    sb := SectorWords(ReadSector(d, start + 1))[..13];
    if NoBuffer(Files.U32(SECTOR_SIZE * sb[5])) {
      return Mounting.Panic, sb;
    }
    if SECTOR_SIZE * sb[5] >= WORDS {
      return Mounting.Overrun, sb;
    }
    var bits := BitsOn(d, sb[4], sb[5]);
    if NoBuffer(Files.U32(SECTOR_SIZE * sb[7])) {
      return Mounting.Panic, sb;
    }
    if SECTOR_SIZE * sb[7] >= WORDS {
      return Mounting.Overrun, sb;
    }
    var inodes := InodesOn(d, sb[6], sb[7], sb[8]);
    var p := new Partition(sb[4], sb[8], sb[10], d, bits, inodes, reserved);
    r := Mounted(p);
  }

  // ---------------------------------------------------------------- the root directory

  /** The root's inode, as inode_open reads it from a formatted disk. */
  function Root(base: nat): Inode {
    Reopened(NewDirs.DirInode(0, base))
  }

  lemma FormattedRecorded(d: Disk, t: nat, base: nat)
    requires 0 < base < WORDS && Record(d, t, 0) == Pure(NewDirs.DirInode(0, base))
    ensures Recorded(d, t, map[0 := Root(base)])
  {
    assert RecordedAt(d, t, map[0 := Root(base)], 0);
  }

  /** The root directory that partition_format writes. */
  lemma FormattedWorld(d: Disk, base: nat)
    requires 0 < base < WORDS
    ensures var d', inodes := d[base := NewDirs.Dots(0, 0)], map[0 := Root(base)];
            World(d', inodes, map[0 := View(d', inodes[0].sectors)], map[0 := 0])
  {
    var d', inodes := d[base := NewDirs.Dots(0, 0)], map[0 := Root(base)];
    var row := View(d', inodes[0].sectors);
    NewDirs.NewDirOk(d, 0, 0, base);
    assert NewRow(row, 0, 0);
    RootOnly(row);
  }

  lemma FormattedSound(d: Disk, bits: seq<bool>, base: nat, reserved: set<nat>)
    requires 0 < base < WORDS && |bits| > 0 && base !in reserved
    requires forall b: nat :: Marked(bits, base, b) <==> b == base || (b in reserved && base <= b < base + |bits|)
    ensures Sound(d[base := NewDirs.Dots(0, 0)], map[0 := Root(base)], bits, base, reserved)
  {
    var d', n := d[base := NewDirs.Dots(0, 0)], Root(base);
    var inodes := map[0 := n];
    var o := OwnMap(d', inodes);
    FormattedSlots(d', base);
    assert o[0] == {base};
    assert forall b: nat :: Taken(o, b) <==> b == base;
    forall j {:trigger Slots(d', inodes[j])} | j in inodes ensures Distinct(Slots(d', inodes[j])) {
    }
  }

  lemma FormattedSlots(d: Disk, base: nat)
    requires base > 0
    ensures Owns(d, Root(base)) == {base} && Distinct(Slots(d, Root(base)))
  {
    var n := Root(base);
    var s := Slots(d, n);
    Files.NoTable(d, n);
    assert forall k :: 0 <= k < |s| ==> s[k] == if k == 0 then base else 0;
    forall i, j ensures !Clash(s, i, j) {
    }
    assert s[0] == base;
  }

  // ---------------------------------------------------------------- what was formatted is mounted

  ghost predicate After(base: nat, len: nat, b: nat) {
    base + len < b
  }

  /** The blocks behind the end of the partition, but for one. */
  ghost function Behind(base: nat, len: nat, n: nat): set<nat> {
    set b: nat | b < base + n && After(base, len, b)
  }

  lemma FormattedBits(bits: seq<bool>, base: nat, len: nat)
    requires len >= 8 && |bits| > 0 && forall k :: 0 <= k < |bits| ==> bits[k] == BitIs(len, k)
    ensures forall b: nat :: Marked(bits, base, b) <==>
              b == base || (b in Behind(base, len, |bits|) && base <= b < base + |bits|)
  {
  }

  /** The root's bit is not set on a partition of less than eight blocks. */
  lemma FormattedTiny(d: Disk, inodes: map<nat, Inode>, bits: seq<bool>, base: nat, len: nat, reserved: set<nat>)
    requires len < 8 && base > 0 && 0 in inodes && |inodes[0].sectors| == 13 && inodes[0].sectors[0] == base
    requires forall k :: 0 <= k < |bits| ==> bits[k] == BitIs(len, k)
    ensures !Sound(d, inodes, bits, base, reserved)
  {
    if Sound(d, inodes, bits, base, reserved) {
      RootMarked(d, inodes, bits, base, reserved);
    }
  }

  lemma RootAlone(d: Disk, lba: nat, t: nat, base: nat)
    requires base < WORDS && RootWritten(d, lba, t, base)
    ensures InodesOn(d, lba, 1, t) == map[0 := Root(base)]
  {
    RootRegions(d, lba, t, base);
    ParsePure(NewDirs.DirInode(0, base));
    forall k: nat | k < MAX_FILES_PER_PART ensures DiskBit(d, lba, k) == (k == 0) {
      RootOnlyBit(d, lba, k);
    }
  }

  /** The whole invariant for what is on the disk, with this bitmap in memory, if there are eight blocks. */
  lemma FormattedIntact(d: Disk, lba: nat, t: nat, base: nat, len: nat, bits: seq<bool>, tree: Tree)
    requires RootWritten(d, lba, t, base) && 0 < base < WORDS && (len >= 8 ==> |bits| > 0)
    requires tree == map[0 := View(d, Root(base).sectors)] && forall k :: 0 <= k < |bits| ==> bits[k] == BitIs(len, k)
    ensures var inodes, reserved := map[0 := Root(base)], Behind(base, len, |bits|);
            && World(d, inodes, tree, map[0 := 0]) && Recorded(d, t, inodes)
            && (Sound(d, inodes, bits, base, reserved) <==> len >= 8)
    ensures NewRow(tree[0], 0, 0)
  {
    RootRegions(d, lba, t, base);
    assert d[base := NewDirs.Dots(0, 0)] == d;
    NewDirs.NewDirOk(d, 0, 0, base);
    FormattedWorld(d, base);
    FormattedRecorded(d, t, base);
    if len >= 8 {
      FormattedBits(bits, base, len);
      FormattedSound(d, bits, base, Behind(base, len, |bits|));
    } else {
      FormattedTiny(d, map[0 := Root(base)], bits, base, len, Behind(base, len, |bits|));
    }
  }

  lemma BitsBack(d: Disk, lba: nat, bits: seq<bool>, sects: nat)
    requires |bits| == BITS_PER_SECTOR * sects && BitsThere(d, lba, bits, sects)
    ensures BitsOn(d, lba, sects) == bits
  {
    forall k | 0 <= k < |bits| ensures DiskBit(d, lba, k) == bits[k] {
      assert k / BITS_PER_SECTOR < sects;
      SyncedBit(d, lba, bits, k);
    }
  }

  lemma MountedLayout(p: Partition, start: nat, sects: nat)
    requires p.bitmapLba == start + 2 && p.tableLba == start + 3 + sects && p.dataStart == start + sects + USED
    requires |p.bits| == BITS_PER_SECTOR * sects && p.dataStart + |p.bits| < WORDS
    ensures p.Layout() && p.dataStart > 0
  {
    assert |p.bits| / BITS_PER_SECTOR == sects;
  }

  /** A partition with this in memory satisfies the invariant exactly if the bitmap agrees. */
  lemma MountedIntact(p: Partition, d: Disk, t: nat, base: nat, inodes: map<nat, Inode>, tree: Tree)
    requires p.Layout() && p.disk == d && p.tableLba == t && p.dataStart == base && p.inodes == inodes
    requires inodes == map[0 := Root(base)]
    requires World(d, inodes, tree, map[0 := 0]) && Recorded(d, t, inodes)
    requires Noted(d, p.bitmapLba, p.bits, base, Tables(inodes))
    ensures Intact(p, tree, map[0 := 0]) <==> Sound(d, inodes, p.bits, base, p.reserved)
    ensures p.Valid() <==> Sound(d, inodes, p.bits, base, p.reserved)
  {
  }

  /** What mount_partition makes of what partition_format wrote. */
  lemma MountedFormatted(p: Partition, d: Disk, start: nat, len: nat, sects: nat, base: nat, bits: seq<bool>,
                         inodes: map<nat, Inode>, reserved: set<nat>, tree: Tree)
    requires p.bitmapLba == start + 2 && p.tableLba == start + 3 + sects && p.dataStart == base && p.disk == d
    requires base == start + sects + USED && base + BITS_PER_SECTOR * sects < WORDS && (len >= 8 ==> sects > 0)
    requires p.bits == bits && bits == NewBits(len, sects) && p.inodes == inodes && inodes == map[0 := Root(base)]
    requires p.reserved == reserved && reserved == Behind(base, len, BITS_PER_SECTOR * sects)
    requires Noted(d, p.bitmapLba, p.bits, base, Tables(inodes))
    requires RootWritten(d, start + 2 + sects, start + 3 + sects, base) && tree == map[0 := View(d, Root(base).sectors)]
    ensures if len >= 8 then Intact(p, tree, map[0 := 0]) else !p.Valid()
    ensures NewRow(tree[0], 0, 0)
  {
    FormattedIntact(d, start + 2 + sects, start + 3 + sects, base, len, bits, tree);
    MountedLayout(p, start, sects);
    MountedIntact(p, d, start + 3 + sects, base, inodes, tree);
  }

  /** A bitmap that was formatted can be read, unless it is empty. */
  lemma BuffersGiven(sects: nat)
    requires !TooLarge(sects)
    ensures SECTOR_SIZE * sects < WORDS && (Buffered(sects) <==> sects > 0) && Buffered(1)
  {
  }

  /** Right after mounting, disk and memory agree on every bit. */
  lemma MountedNoted(d: Disk, lba: nat, sects: nat, base: nat, tables: set<nat>)
    ensures Noted(d, lba, BitsOn(d, lba, sects), base, tables)
  {
    forall k: nat ensures NotedAt(d, lba, BitsOn(d, lba, sects), base, tables, k) {
    }
  }

  lemma MountedFields(p: Partition, d: Disk, ws: seq<nat>, start: nat, len: nat, sects: nat, base: nat)
    requires |ws| == 13 && MountedFrom(p, d, ws) && ws[4] == start + 2 && ws[5] == sects && ws[6] == start + 2 + sects
    requires ws[7] == 1 && ws[8] == start + 3 + sects && ws[10] == base && base < WORDS
    requires BitsThere(d, start + 2, NewBits(len, sects), sects)
    requires RootWritten(d, start + 2 + sects, start + 3 + sects, base)
    ensures p.bits == NewBits(len, sects) && p.inodes == map[0 := Root(base)]
    ensures p.disk == d && p.bitmapLba == start + 2 && p.tableLba == start + 3 + sects && p.dataStart == base
    ensures Noted(d, p.bitmapLba, p.bits, base, Tables(p.inodes))
  {
    MountedNoted(d, ws[4], ws[5], base, Tables(p.inodes));
    RootAlone(d, ws[6], ws[8], base);
    BitsBack(d, ws[4], NewBits(len, sects), sects);
  }

  /** mount_partition on a disk that was formatted. */
  method MountFormatted(d: Disk, start: nat, ws: seq<nat>, ghost len: nat, sects: nat, base: nat)
    returns (r: Mounting, sb: seq<nat>, ghost tree: Tree)
    requires SuperIs(ReadSector(d, start + 1), ws) && ws[4] == start + 2 && ws[5] == sects && ws[6] == start + 2 + sects
    requires ws[7] == 1 && ws[8] == start + 3 + sects && ws[10] == base && !TooLarge(sects)
    requires BitsThere(d, start + 2, NewBits(len, sects), sects)
    requires RootWritten(d, start + 2 + sects, start + 3 + sects, base)
    requires base == start + sects + USED && base + BITS_PER_SECTOR * sects < WORDS && (len >= 8 ==> sects > 0)
    ensures sb == ws && if sects == 0 then r.Panic? else r.Mounted?
    ensures r.Mounted? ==>
              && fresh(r.part) && r.part.disk == d && r.part.bitmapLba == start + 2
              && r.part.tableLba == start + 3 + sects && r.part.dataStart == base
              && (if len >= 8 then Intact(r.part, tree, map[0 := 0]) else !r.part.Valid())
    ensures r.Mounted? ==> tree.Keys == {0} && NewRow(tree[0], 0, 0) && r.part.inodes.Keys == {0}
  {
    tree := map[];
    BuffersGiven(sects);
    r, sb := MountPartition(d, start, Behind(base, len, BITS_PER_SECTOR * sects));
    SuperUnique(ReadSector(d, start + 1), sb, ws);
    if r.Mounted? {
      tree := map[0 := View(d, Root(base).sectors)];
      MountedFields(r.part, d, ws, start, len, sects, base);
      MountedFormatted(r.part, d, start, len, sects, base, r.part.bits, r.part.inodes, r.part.reserved, tree);
    }
  }

  /** The other fields of the super block. */
  ghost predicate Describes(sb: seq<nat>, start: nat, sec_cnt: nat) {
    && |sb| == 13 && sb[0] == 0x19590318 && sb[1] == sec_cnt && sb[2] == 4096 && sb[3] == start && sb[9] == 608
    && sb[11] == 0 && sb[12] == 24
  }

  /** partition_format and then mount_partition: the disk alone carries the file system from one to the other. */
  method FormatAndMount(d: Disk, start: nat, sec_cnt: nat, pad: seq<Byte>)
    returns (r: Mounting, sb: seq<nat>, ghost tree: Tree)
    requires start + sec_cnt + BITS_PER_SECTOR <= WORDS && |pad| == PAD
    ensures r.Panic? <==> sec_cnt >= USED && (TooLarge(BitmapSects(sec_cnt)) || sec_cnt <= USED + 1)
    ensures r.Overrun? <==> Misfits(sec_cnt) && !(sec_cnt >= USED && TooLarge(BitmapSects(sec_cnt)))
    ensures r.Mounted? ==>
              var p := r.part;
              && fresh(p) && p.bitmapLba == start + 2 && p.tableLba == start + 3 + BitmapSects(sec_cnt)
              && p.dataStart == DataStart(start, sec_cnt) && Confined(d, p.disk, start, sec_cnt)
              && p.inodes.Keys == {0}
              && if BitLen(sec_cnt) >= 8 then Intact(p, tree, map[0 := 0]) else !p.Valid()
    ensures r.Mounted? ==> tree.Keys == {0} && NewRow(tree[0], 0, 0) && Describes(sb, start, sec_cnt)
  {
    tree, sb := map[], [];
    var f := Format(d, start, sec_cnt, pad);
    if !f.Made? {
      return if f.Panic? then Mounting.Panic else Mounting.Overrun, sb, tree;
    }
    LayoutFits(start, sec_cnt);
    var sects, base := BitmapSects(sec_cnt), DataStart(start, sec_cnt);
    var ws := SuperWords(start, sec_cnt, sects, base);
    r, sb, tree := MountFormatted(f.disk, start, ws, BitLen(sec_cnt), sects, base);
  }

  /** Every run on a formatted and mounted partition keeps the invariant, or loses it in one of the known ways; it
      starts with an empty root and no file. */
  method FormatThenRun(d: Disk, start: nat, sec_cnt: nat, pad: seq<Byte>, calls: seq<Runs.Call>, garbage: seq<Byte>)
    returns (m: Option<Mount>, s: Status, data: seq<seq<Byte>>, ghost tree: Tree, ghost depth: map<nat, nat>,
             ghost t: Runs.Story)
    requires start + sec_cnt + BITS_PER_SECTOR <= WORDS && |pad| == PAD
    requires |garbage| == |calls| && forall k :: 0 <= k < |calls| ==> Runs.Admitted(calls[k])
    ensures m.Some? <==> sec_cnt >= USED && !TooLarge(BitmapSects(sec_cnt)) && !Misfits(sec_cnt) && BitLen(sec_cnt) >= 8
    ensures m.Some? && s.Done? ==> Live(m.value, tree, depth) && Runs.Tells(t, calls) && t.data == data
                                   && t.states[|calls|] == Runs.Now(m.value, tree)
    ensures m.Some? && s.Done? ==> t.states[0].files == map[] && t.states[0].table == NoFiles(MAX_FILE_OPEN)
                                   && t.states[0].tree.Keys == {0} && NewRow(t.states[0].tree[0], 0, 0)
    ensures m.Some? && s.Lost? ==> Runs.LossShows(m.value, s.loss)
  {
    m, s, data, depth, t := None, Stopped, [], map[0 := 0], Runs.Story([], {}, []);
    var r, sb;
    r, sb, tree := FormatAndMount(d, start, sec_cnt, pad);
    if r.Mounted? && BitLen(sec_cnt) >= 8 {
      var mount := new Mount(r.part);
      OpenedAtFirst(r.part.inodes, tree);
      NoFilesAtFirst(r.part.disk, r.part.inodes, tree);
      s, data, tree, depth, t := Runs.Run(mount, tree, depth, calls, garbage);
      m := Some(mount);
    }
  }

  lemma NoFilesAtFirst(d: Disk, inodes: map<nat, Inode>, tree: Tree)
    requires inodes.Keys == {0} == tree.Keys
    ensures FilesOf(d, inodes, tree.Keys) == map[]
  {
  }
}
