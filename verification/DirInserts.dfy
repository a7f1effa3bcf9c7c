/** fs/dir.c: a new entry in a directory. */
module DirInserts {
  import opened Options
  import opened Disks
  import opened InodeTable
  import opened Volumes
  import opened Entries
  import opened DirSlots
  import opened Dirs
  import Files

  /** Panic: the block bitmap is full.  Corrupted: i_sectors[13], behind the array, was written. */
  datatype Insert = Panic | Corrupted | Inserted

  // ---------------------------------------------------------------- what an insertion does to the entries

  ghost predicate NewIno(es: seq<Entry>, ino: nat) {
    forall x :: 2 <= x < |es| && es[x].Entry? ==> es[x].ino != ino
  }

  ghost predicate UsedBefore(es: seq<Entry>, x: nat) {
    forall y :: 0 <= y < x && y < |es| ==> es[y].Entry?
  }

  lemma InsertRow(es: seq<Entry>, x: nat, e: Entry, es': seq<Entry>)
    requires RowOk(es) && x < |es| && es[x].Free? && e.Entry? && es' == es[x := e]
    requires (forall y: nat :: !Named(es, y, e.name)) && NewIno(es, e.ino)
    ensures RowOk(es')
  {
    forall y, z ensures !SameName(es', y, z) {
      assert !SameName(es, y, z) && !Named(es, y, e.name) && !Named(es, z, e.name);
    }
    forall y, z ensures !SameIno(es', y, z) {
      assert !SameIno(es, y, z);
    }
  }

  lemma InsertNoSlack(es: seq<Entry>, x: nat, e: Entry, es': seq<Entry>, sectors: seq<nat>, sectors': seq<nat>, b: nat)
    requires NoSlack(es, sectors) && x < |es| && e.Entry? && es' == es[x := e] && b < DIRECT
    requires PER_SECTOR * b <= x < PER_SECTOR * b + PER_SECTOR
    requires |sectors'| == 13 && forall c :: 0 <= c < DIRECT && c != b ==> sectors'[c] == sectors[c]
    ensures NoSlack(es', sectors')
  {
    forall c: nat | 1 <= c < DIRECT && sectors'[c] != 0 ensures HasEntry(es', c) {
      if c == b {
        assert es'[x].Entry?;
      } else {
        assert HasEntry(es, c);
        var y :| PER_SECTOR * c <= y < PER_SECTOR * c + PER_SECTOR && y < |es| && es[y].Entry?;
        assert es'[y].Entry?;
      }
    }
  }

  lemma UnnamedIs(es: seq<Entry>, name: seq<Byte>)
    requires name !in NameMap(es)
    ensures forall y: nat :: !Named(es, y, name)
  {
    NameMapHas(es, name);
  }

  lemma InsertedEntries(es: seq<Entry>, x: nat, e: Entry, es': seq<Entry>)
    requires RowOk(es) && x < |es| && es[x].Free? && e.Entry? && es' == es[x := e]
    requires e.name !in NameMap(es) && NewIno(es, e.ino)
    ensures RowOk(es') && NameMap(es') == NameMap(es)[e.name := e]
    ensures |Listed(es')| == |Listed(es)| + 1 <= CAPACITY
  {
    UnnamedIs(es, e.name);
    InsertRow(es, x, e, es');
    NameMapSet(es, es', x, e);
    ListedSet(es, x, e);
    ListedFull(es');
  }

  lemma InsertedOk(es: seq<Entry>, x: nat, e: Entry, es': seq<Entry>, sectors: seq<nat>, sectors': seq<nat>,
                   size: nat, b: nat)
    requires EntriesOk(es, sectors, size) && b < DIRECT && PER_SECTOR * b <= x < PER_SECTOR * b + PER_SECTOR
    requires es[x].Free? && e.Entry? && es' == es[x := e] && e.name !in NameMap(es) && NewIno(es, e.ino)
    requires |sectors'| == 13 && sectors'[0] != 0 && sectors'[TABLE] == 0
    requires forall c :: 0 <= c < DIRECT && c != b ==> sectors'[c] == sectors[c]
    ensures EntriesOk(es', sectors', size + SLOT) && size + SLOT <= SLOT * CAPACITY
  {
    InsertedEntries(es, x, e, es');
    InsertNoSlack(es, x, e, es', sectors, sectors', b);
  }

  /** Slot x of a directory was set to s. */
  lemma ViewSet(d: Disk, d': Disk, sectors: seq<nat>, sectors': seq<nat>, x: nat, s: Slot)
    requires |sectors| == 13 && |sectors'| == 13 && x < CAPACITY && (s == EMPTY || Decode(s).Entry?)
    requires Row(d', sectors') == Row(d, sectors)[x := s]
    ensures View(d', sectors') == View(d, sectors)[x := Decode(s)]
    ensures Clean(Row(d, sectors)) ==> Clean(Row(d', sectors'))
  {
    DecodeSet(Row(d, sectors), x, s);
    if Clean(Row(d, sectors)) {
      CleanSet(Row(d, sectors), x, s);
    }
  }

  /** The directory after slot s went to slot x, in block b. */
  lemma InsertedDir(d: Disk, d': Disk, n: Inode, n': Inode, b: nat, x: nat, s: Slot)
    requires |n.sectors| == 13 && Insertable(d, n, s) && b < DIRECT && PER_SECTOR * b <= x < PER_SECTOR * b + PER_SECTOR
    requires View(d, n.sectors)[x].Free?
    requires |n'.sectors| == 13 && n'.size == n.size + SLOT && n'.sectors[0] != 0 && n'.sectors[TABLE] == 0
    requires forall c :: 0 <= c < DIRECT && c != b ==> n'.sectors[c] == n.sectors[c]
    requires Row(d', n'.sectors) == Row(d, n.sectors)[x := s]
    ensures DirOk(d', n') && View(d', n'.sectors) == View(d, n.sectors)[x := Decode(s)]
    ensures n'.size <= SLOT * CAPACITY
  {
    ViewSet(d, d', n.sectors, n'.sectors, x, s);
    InsertedOk(View(d, n.sectors), x, Decode(s), View(d', n'.sectors), n.sectors, n'.sectors, n.size, b);
  }

  // ---------------------------------------------------------------- finding the slot

  method FreeInSector(s: Sector) returns (k: nat)
    ensures k <= PER_SECTOR && (k < PER_SECTOR ==> Decode(SlotAt(s, k)).Free?)
    ensures forall j :: 0 <= j < k ==> Decode(SlotAt(s, j)).Entry?
  {
    k := 0;
    while k < PER_SECTOR
      invariant k <= PER_SECTOR && forall j :: 0 <= j < k ==> Decode(SlotAt(s, j)).Entry?
    {
      if !InUse(SlotAt(s, k)) {
        return;
      }
      k := k + 1;
    }
  }

  lemma UsedMore(es: seq<Entry>, x: nat, k: nat)
    requires UsedBefore(es, x) && x + k <= |es| && forall y :: x <= y < x + k ==> es[y].Entry?
    ensures UsedBefore(es, x + k)
  {
  }

  /** The first k slots of block b are in use, and the next one, if there is one, is not. */
  ghost predicate FirstFree(d: Disk, lba: nat, k: nat) {
    && k <= PER_SECTOR && (forall j :: 0 <= j < k ==> Decode(SlotAt(ReadSector(d, lba), j)).Entry?)
    && (k < PER_SECTOR ==> Decode(SlotAt(ReadSector(d, lba), k)).Free?)
  }

  /** One block further. */
  lemma BlockStep(d: Disk, sectors: seq<nat>, es: seq<Entry>, b: nat, k: nat)
    requires |sectors| == 13 && b < DIRECT && sectors[b] != 0 && FirstFree(d, sectors[b], k)
    requires es == View(d, sectors) && UsedBefore(es, PER_SECTOR * b)
    ensures |es| == CAPACITY && UsedBefore(es, PER_SECTOR * b + k) && (k < PER_SECTOR ==> es[PER_SECTOR * b + k].Free?)
  {
    forall y | PER_SECTOR * b <= y < PER_SECTOR * b + k ensures es[y].Entry? {
      EntryAt(d, sectors, b, y - PER_SECTOR * b);
    }
    UsedMore(es, PER_SECTOR * b, k);
    if k < PER_SECTOR {
      EntryAt(d, sectors, b, k);
    }
  }

  /** The search in one block: k is the first free slot, or there is none. */
  method FreeInBlock(d: Disk, sectors: seq<nat>, b: nat, ghost es: seq<Entry>) returns (k: nat)
    requires |sectors| == 13 && b < DIRECT && es == View(d, sectors) && UsedBefore(es, PER_SECTOR * b)
    ensures |es| == CAPACITY && k <= PER_SECTOR && UsedBefore(es, PER_SECTOR * b + k)
    ensures k < PER_SECTOR ==> es[PER_SECTOR * b + k].Free? && (sectors[b] == 0 ==> k == 0)
    ensures k == PER_SECTOR ==> sectors[b] != 0
  {
    if sectors[b] == 0 {
      HoleIsFree(d, sectors, b, 0);
      return 0;
    }
    k := FreeInSector(ReadSector(d, sectors[b]));
    BlockStep(d, sectors, es, b, k);
  }

  /** The loop of sync_dir_entry up to the first slot that is not in use, or the first block that does not
      exist: taking missing blocks for empty ones, the first free slot. */
  method FindFree(d: Disk, sectors: seq<nat>) returns (b: nat, k: nat)
    requires |sectors| == 13
    ensures b <= DIRECT && k < PER_SECTOR && (b == DIRECT ==> k == 0)
            && UsedBefore(View(d, sectors), PER_SECTOR * b + k)
    ensures b < DIRECT ==> View(d, sectors)[PER_SECTOR * b + k].Free? && (sectors[b] == 0 ==> k == 0)
  {
    ghost var es := View(d, sectors);
    b, k := 0, 0;
    while b < DIRECT
      invariant b <= DIRECT && k == 0 && UsedBefore(es, PER_SECTOR * b)
    {
      k := FreeInBlock(d, sectors, b, es);
      if k < PER_SECTOR {
        return;
      }
      assert PER_SECTOR * (b + 1) == PER_SECTOR * b + PER_SECTOR;
      b, k := b + 1, 0;
    }
  }

  // ---------------------------------------------------------------- the books

  /** Inode i was replaced by n after it grew or was rewritten in place. */
  lemma DirCommit(d: Disk, d': Disk, inodes: map<nat, Inode>, i: nat, n: Inode, bits: seq<bool>, bits': seq<bool>,
                  base: nat, reserved: set<nat>)
    requires Sound(d, inodes, bits, base, reserved) && i in inodes && n.Fits() && n.no == i
    requires Growing(Slots(d, inodes[i]), bits, Slots(d', n), bits', base)
    requires forall b: nat :: b >= base && b !in Owns(d', n) ==> ReadSector(d', b) == ReadSector(d, b)
    ensures Sound(d', inodes[i := n], bits', base, reserved) && Files.OthersSame(d, d', inodes, inodes[i := n], i)
  {
    CommitGrowth(d, d', inodes, i, n, bits, bits', base, reserved);
    Files.AllDistinct(d, d', inodes, inodes[i := n], i, n);
    Files.OthersDone(d, d', inodes, inodes[i := n], i, n);
  }

  lemma DirSlotsOf(d: Disk, d': Disk, n: Inode, n': Inode)
    requires |n.sectors| == 13 && |n'.sectors| == 13 && n.sectors[TABLE] == 0 && n'.sectors == n.sectors
    ensures Slots(d', n') == Slots(d, n)
  {
    Files.NoTable(d, n);
    Files.NoTable(d', n');
  }

  lemma DirSlotsSet(d: Disk, d': Disk, n: Inode, n': Inode, b: nat, lba: nat)
    requires |n.sectors| == 13 && n.sectors[TABLE] == 0 && b < DIRECT && n'.sectors == n.sectors[b := lba]
    ensures Slots(d', n') == Slots(d, n)[b := lba]
  {
    Files.NoTable(d, n);
    Files.NoTable(d', n');
    assert Slots(d', n') == Slots(d, n)[b := lba];
  }

  lemma OwnBlock(d: Disk, n: Inode, b: nat)
    requires |n.sectors| == 13 && b < DIRECT && n.sectors[b] != 0
    ensures n.sectors[b] in Owns(d, n)
  {
    assert Slots(d, n)[b] == n.sectors[b];
  }

  lemma DirectDistinct(d: Disk, n: Inode)
    requires |n.sectors| == 13 && Distinct(Slots(d, n))
    ensures Distinct(n.sectors[..12])
  {
    assert Slots(d, n)[..12] == n.sectors[..12];
    Files.DistinctPrefix(Slots(d, n), 12);
  }

  /** Block b of directory i was rewritten in place. */
  lemma RewriteInPlace(d: Disk, d': Disk, inodes: map<nat, Inode>, i: nat, n': Inode, bits: seq<bool>, base: nat,
                       reserved: set<nat>, b: nat, v: Sector)
    requires Sound(d, inodes, bits, base, reserved) && i in inodes && n'.Fits() && n'.no == i && b < DIRECT
    requires inodes[i].sectors[TABLE] == 0 && inodes[i].sectors[b] != 0 && n'.sectors == inodes[i].sectors
    requires d' == d[n'.sectors[b] := v]
    ensures Sound(d', inodes[i := n'], bits, base, reserved) && Files.OthersSame(d, d', inodes, inodes[i := n'], i)
  {
    DirSlotsOf(d, d', inodes[i], n');
    OwnBlock(d', n', b);
    assert Distinct(Slots(d, inodes[i]));
    Files.StartGrowing(d, inodes, bits, base, reserved, i);
    DirCommit(d, d', inodes, i, n', bits, bits, base, reserved);
  }

  // ---------------------------------------------------------------- sync_dir_entry

  /** What a successful insertion has done. */
  ghost predicate Done(d: Disk, d': Disk, inodes: map<nat, Inode>, inodes': map<nat, Inode>, i: nat, x: nat, e: Entry) {
    && Files.OthersSame(d, d', inodes, inodes', i) && i in inodes
    && var n, n' := inodes[i], inodes'[i];
    && |n.sectors| == 13 && |n'.sectors| == 13 && n' == n.(sectors := n'.sectors, size := n.size + SLOT)
    && DirOk(d', n') && x < CAPACITY && View(d, n.sectors)[x].Free? && UsedBefore(View(d, n.sectors), x)
    && View(d', n'.sectors) == View(d, n.sectors)[x := e]
  }

  lemma DoneNow(d: Disk, d': Disk, inodes: map<nat, Inode>, i: nat, n': Inode, x: nat, e: Entry)
    requires i in inodes && Files.OthersSame(d, d', inodes, inodes[i := n'], i)
    requires |inodes[i].sectors| == 13 && |n'.sectors| == 13
             && n' == inodes[i].(sectors := n'.sectors, size := inodes[i].size + SLOT)
    requires DirOk(d', n') && x < CAPACITY && View(d, inodes[i].sectors)[x].Free?
             && UsedBefore(View(d, inodes[i].sectors), x)
    requires View(d', n'.sectors) == View(d, inodes[i].sectors)[x := e]
    ensures Done(d, d', inodes, inodes[i := n'], i, x, e)
  {
  }

  /** The demands of sync_dir_entry on its arguments: the name and the inode are new to the directory. */
  ghost predicate Insertable(d: Disk, n: Inode, s: Slot)
    requires |n.sectors| == 13
  {
    && DirOk(d, n) && Decode(s).Entry? && Decode(s).name !in NameMap(View(d, n.sectors))
    && NewIno(View(d, n.sectors), Decode(s).ino)
  }

  /** An existing block: the directory. */
  lemma InsertRowThere(d: Disk, d': Disk, n: Inode, n': Inode, b: nat, k: nat, s: Slot)
    requires |n.sectors| == 13 && Insertable(d, n, s) && Distinct(Slots(d, n)) && b < DIRECT && k < PER_SECTOR
             && n.sectors[b] != 0
    requires View(d, n.sectors)[PER_SECTOR * b + k].Free? && n' == n.(size := n.size + SLOT)
    requires d' == d[n.sectors[b] := Splice(ReadSector(d, n.sectors[b]), SLOT * k, s)]
    ensures DirOk(d', n') && View(d', n'.sectors) == View(d, n.sectors)[PER_SECTOR * b + k := Decode(s)]
    ensures n'.size <= SLOT * CAPACITY && n.sectors[TABLE] == 0
  {
    DirectDistinct(d, n);
    RowWrite(d, n.sectors, b, k, s);
    InsertedDir(d, d', n, n', b, PER_SECTOR * b + k, s);
  }

  /** An existing block: the new sector, the new inode, and all that follows. */
  lemma InsertExisting(d: Disk, d': Disk, inodes: map<nat, Inode>, i: nat, n': Inode, bits: seq<bool>, base: nat,
                       reserved: set<nat>, b: nat, k: nat, s: Slot)
    requires Sound(d, inodes, bits, base, reserved) && i in inodes && Insertable(d, inodes[i], s)
    requires b < DIRECT && k < PER_SECTOR && inodes[i].sectors[b] != 0
             && View(d, inodes[i].sectors)[PER_SECTOR * b + k].Free?
    requires UsedBefore(View(d, inodes[i].sectors), PER_SECTOR * b + k)
    requires n' == inodes[i].(size := inodes[i].size + SLOT)
    requires d' == d[n'.sectors[b] := Splice(ReadSector(d, n'.sectors[b]), SLOT * k, s)]
    ensures Sound(d', inodes[i := n'], bits, base, reserved)
    ensures Done(d, d', inodes, inodes[i := n'], i, PER_SECTOR * b + k, Decode(s))
  {
    var n := inodes[i];
    assert Distinct(Slots(d, n));
    InsertRowThere(d, d', n, n', b, k, s);
    RewriteInPlace(d, d', inodes, i, n', bits, base, reserved, b, Splice(ReadSector(d, n.sectors[b]), SLOT * k, s));
    DoneNow(d, d', inodes, i, n', PER_SECTOR * b + k, Decode(s));
  }

  lemma NotASector(d: Disk, n: Inode, bits: seq<bool>, bits0: seq<bool>, slots0: seq<nat>, base: nat, lba: nat)
    requires |n.sectors| == 13 && Growing(slots0, bits0, Slots(d, n), bits, base) && lba != 0
             && !Marked(bits, base, lba)
    ensures lba !in n.sectors
  {
    forall c | 0 <= c < 13 ensures n.sectors[c] != lba {
      assert Slots(d, n)[if c < 12 then c else BLOCKS] == n.sectors[c];
      assert lba !in NonZero(Slots(d, n));
    }
  }

  /** A new block: d1 is the disk after the bitmap was synced. */
  lemma InsertInNew(d: Disk, d1: Disk, d': Disk, inodes: map<nat, Inode>, i: nat, n': Inode, bits: seq<bool>, base: nat,
                    reserved: set<nat>, b: nat, s: Slot, lba: nat)
    requires Sound(d, inodes, bits, base, reserved) && i in inodes && Insertable(d, inodes[i], s)
    requires b < DIRECT && inodes[i].sectors[b] == 0 && View(d, inodes[i].sectors)[PER_SECTOR * b].Free?
    requires UsedBefore(View(d, inodes[i].sectors), PER_SECTOR * b)
    requires SameData(d, d1, base) && 0 < base <= lba < base + |bits| && lba < WORDS && !Marked(bits, base, lba)
    requires n' == inodes[i].(size := inodes[i].size + SLOT, sectors := inodes[i].sectors[b := lba])
    requires d' == d1[lba := Splice(ZEROS, 0, s)]
    ensures Sound(d', inodes[i := n'], bits[lba - base := true], base, reserved)
    ensures Done(d, d', inodes, inodes[i := n'], i, PER_SECTOR * b, Decode(s))
  {
    var n := inodes[i];
    Files.StartGrowing(d, inodes, bits, base, reserved, i);
    NotASector(d, n, bits, bits, Slots(d, n), base, lba);
    NewRow(d, d1, n, bits, bits, Slots(d, n), base, b, s, lba);
    InsertedDir(d, d', n, n', b, PER_SECTOR * b, s);
    DirSlotsSet(d, d', n, n', b, lba);
    assert Slots(d, n)[b] == 0;
    GrowOne(Slots(d, n), bits, Slots(d, n), bits, base, b, lba);
    OwnBlock(d', n', b);
    DirCommit(d, d', inodes, i, n', bits, bits[lba - base := true], base, reserved);
    DoneNow(d, d', inodes, i, n', PER_SECTOR * b, Decode(s));
  }

  lemma NewRow(d: Disk, d1: Disk, n: Inode, bits: seq<bool>, bits0: seq<bool>, slots0: seq<nat>, base: nat, b: nat,
               s: Slot, lba: nat)
    requires |n.sectors| == 13 && b < DIRECT && n.sectors[b] == 0 && lba != 0 && lba !in n.sectors
             && SameData(d, d1, base)
    requires Growing(slots0, bits0, Slots(d, n), bits, base)
    ensures Row(d1[lba := Splice(ZEROS, 0, s)], n.sectors[b := lba]) == Row(d, n.sectors)[PER_SECTOR * b := s]
  {
    forall c: nat | c < DIRECT && n.sectors[c] != 0
      ensures ReadSector(d1, n.sectors[c]) == ReadSector(d, n.sectors[c]) {
      OwnBlock(d, n, c);
      assert Marked(bits, base, n.sectors[c]);
    }
    RowKept(d, d1, n.sectors);
    RowNew(d1, n.sectors, b, lba, s);
  }

  lemma BlockInData(d: Disk, inodes: map<nat, Inode>, bits: seq<bool>, base: nat, reserved: set<nat>, i: nat, b: nat)
    requires Sound(d, inodes, bits, base, reserved) && i in inodes && b < DIRECT && inodes[i].sectors[b] != 0
    ensures base <= inodes[i].sectors[b] < base + |bits|
  {
    var o := OwnMap(d, inodes);
    OwnBlock(d, inodes[i], b);
    assert i in o && inodes[i].sectors[b] in o[i];
    assert Taken(o, inodes[i].sectors[b]);
  }

  /** A block of the data region is not in the inode table. */
  lemma OutsideTable(d: Disk, d1: Disk, lba: nat, v: Sector, t: nat, base: nat)
    requires SameData(d, d1, t) && t + TABLE_SECTS <= base <= lba
    ensures SameTable(d, d1[lba := v], t)
  {
  }

  /** The new inode and the new disk take effect. */
  method Install(p: Partition, i: nat, n: Inode, d': Disk)
    requires p.Layout() && p.RootOk() && Sound(d', p.inodes[i := n], p.bits, p.dataStart, p.reserved)
    requires i in p.inodes && |p.inodes[i].sectors| == 13 == |n.sectors| && n.sectors[0] == p.inodes[i].sectors[0]
    requires n.sectors[TABLE] == p.inodes[i].sectors[TABLE] && SameBitmap(p.disk, d', p.bitmapLba, p.tableLba)
    requires Noted(p.disk, p.bitmapLba, p.bits, p.dataStart, Tables(p.inodes))
    modifies p`disk, p`inodes
    ensures p.Valid() && p.disk == d' && p.inodes == old(p.inodes)[i := n]
  {
    Files.TablesSet(p.inodes, i, n);
    Files.NotedCommit(p.disk, d', p.bitmapLba, p.bits, p.dataStart, p.tableLba, p.inodes, i, n);
    p.disk, p.inodes := d', p.inodes[i := n];
  }

  /** Block lba was allocated for block b of the directory; d and bits are from before. */
  ghost predicate Allocated(d: Disk, d1: Disk, inodes: map<nat, Inode>, i: nat, bits: seq<bool>, bits1: seq<bool>,
                            base: nat, reserved: set<nat>, b: nat, s: Slot, lba: nat)
  {
    && Sound(d, inodes, bits, base, reserved) && i in inodes && Insertable(d, inodes[i], s)
    && b < DIRECT && inodes[i].sectors[b] == 0
    && View(d, inodes[i].sectors)[PER_SECTOR * b].Free? && UsedBefore(View(d, inodes[i].sectors), PER_SECTOR * b)
    && SameData(d, d1, base) && 0 < base <= lba < base + |bits| && lba < WORDS && !Marked(bits, base, lba)
    && bits1 == bits[lba - base := true]
  }

  function NewNode(n: Inode, b: nat, lba: nat): Inode
    requires b < |n.sectors|
  {
    n.(size := n.size + SLOT, sectors := n.sectors[b := lba])
  }

  function NewDisk(d: Disk, lba: nat, s: Slot): Disk {
    d[lba := Splice(ZEROS, 0, s)]
  }

  lemma InsertAllocated(d: Disk, d1: Disk, inodes: map<nat, Inode>, i: nat, bits: seq<bool>, bits1: seq<bool>,
                        base: nat, reserved: set<nat>, b: nat, s: Slot, lba: nat)
    requires Allocated(d, d1, inodes, i, bits, bits1, base, reserved, b, s, lba)
    ensures var n', d' := NewNode(inodes[i], b, lba), NewDisk(d1, lba, s);
            && Sound(d', inodes[i := n'], bits1, base, reserved) && n'.sectors[0] == inodes[i].sectors[0]
            && Done(d, d', inodes, inodes[i := n'], i, PER_SECTOR * b, Decode(s))
  {
    InsertInNew(d, d1, NewDisk(d1, lba, s), inodes, i, NewNode(inodes[i], b, lba), bits, base, reserved, b, s, lba);
  }

  /** The branch of sync_dir_entry that allocates a block. */
  method InsertNew(p: Partition, i: nat, b: nat, s: Slot) returns (ok: bool)
    requires p.Valid() && i in p.inodes && Insertable(p.disk, p.inodes[i], s) && b < DIRECT
             && p.inodes[i].sectors[b] == 0
    requires View(p.disk, p.inodes[i].sectors)[PER_SECTOR * b].Free?
    requires UsedBefore(View(p.disk, p.inodes[i].sectors), PER_SECTOR * b)
    modifies p
    ensures ok <==> FreeBits(old(p.bits)) >= 1
    ensures ok ==> p.Valid() && Done(old(p.disk), p.disk, old(p.inodes), p.inodes, i, PER_SECTOR * b, Decode(s))
    ensures ok ==> SameTable(old(p.disk), p.disk, p.tableLba)
  {
    var lba := p.NewBlock(Tables(p.inodes));
    ok := lba.Some?;
    if ok {
      OutsideTable(old(p.disk), p.disk, lba.value, Splice(ZEROS, 0, s), p.tableLba, p.dataStart);
      InsertAllocated(old(p.disk), p.disk, p.inodes, i, old(p.bits), p.bits, p.dataStart, p.reserved, b, s, lba.value);
      Install(p, i, NewNode(p.inodes[i], b, lba.value), NewDisk(p.disk, lba.value, s));
    }
  }

  method InsertThere(p: Partition, i: nat, b: nat, k: nat, s: Slot)
    requires p.Valid() && i in p.inodes && Insertable(p.disk, p.inodes[i], s) && b < DIRECT
             && p.inodes[i].sectors[b] != 0
    requires k < PER_SECTOR && View(p.disk, p.inodes[i].sectors)[PER_SECTOR * b + k].Free?
    requires UsedBefore(View(p.disk, p.inodes[i].sectors), PER_SECTOR * b + k)
    modifies p
    ensures p.Valid() && Done(old(p.disk), p.disk, old(p.inodes), p.inodes, i, PER_SECTOR * b + k, Decode(s))
    ensures SameTable(old(p.disk), p.disk, p.tableLba)
  {
    BlockInData(p.disk, p.inodes, p.bits, p.dataStart, p.reserved, i, b);
    var n := p.inodes[i];
    OutsideTable(p.disk, p.disk, n.sectors[b], Splice(ReadSector(p.disk, n.sectors[b]), SLOT * k, s), p.tableLba,
                 p.dataStart);
    var n' := n.(size := n.size + SLOT);
    var d' := p.disk[n.sectors[b] := Splice(ReadSector(p.disk, n.sectors[b]), SLOT * k, s)];
    InsertExisting(p.disk, d', p.inodes, i, n', p.bits, p.dataStart, p.reserved, b, k, s);
    Install(p, i, n', d');
  }

  lemma FullMeans(es: seq<Entry>, x: nat)
    requires |es| == CAPACITY && x <= CAPACITY && UsedBefore(es, x) && (x < CAPACITY ==> es[x].Free?)
    ensures |Listed(es)| == CAPACITY <==> x == CAPACITY
  {
    ListedFull(es);
  }

  /** The index of the first free slot, or the number of slots. */
  ghost function FreeAt(es: seq<Entry>): (x: nat)
    ensures x <= |es| && UsedBefore(es, x) && (x < |es| ==> es[x].Free?)
  {
    if es == [] || es[0].Free? then 0 else 1 + FreeAt(es[1..])
  }

  /** The blocks that sync_dir_entry takes: none if the first free slot is in a block of the directory, one for a new
      block, and two behind the direct blocks. */
  ghost function EntryBlocks(es: seq<Entry>, sectors: seq<nat>): nat
    requires |es| == CAPACITY && |sectors| == 13
  {
    var x := FreeAt(es);
    if x == CAPACITY then 2 else if sectors[x / PER_SECTOR] == 0 then 1 else 0
  }

  lemma EntryBlocksAt(es: seq<Entry>, sectors: seq<nat>, b: nat, k: nat)
    requires |es| == CAPACITY && |sectors| == 13 && b <= DIRECT && k < PER_SECTOR && UsedBefore(es, PER_SECTOR * b + k)
    requires (b == DIRECT ==> k == 0) && (b < DIRECT ==> es[PER_SECTOR * b + k].Free?)
    ensures EntryBlocks(es, sectors) == if b == DIRECT then 2 else if sectors[b] == 0 then 1 else 0
  {
    var x := FreeAt(es);
    assert x == PER_SECTOR * b + k;
    assert b < DIRECT ==> x / PER_SECTOR == b;
  }

  /** How sync_dir_entry ends, by whether all slots are in use, the blocks that are free and those it takes. */
  predicate EndsBy(r: Insert, full: bool, free: nat, needed: nat) {
    && (r.Panic? <==> free < needed) && (r.Corrupted? <==> free >= needed && full)
    && (r.Inserted? <==> free >= needed && !full)
  }

  /** sync_dir_entry: the entry goes to the first free slot.  With all 252 slots of the direct blocks in use
      it damages memory instead. */
  method SyncDirEntry(p: Partition, i: nat, s: Slot) returns (r: Insert, ghost x: nat)
    requires p.Valid() && i in p.inodes && Insertable(p.disk, p.inodes[i], s)
    modifies p
    ensures EndsBy(r, old(p.inodes[i].size) == SLOT * CAPACITY, FreeBits(old(p.bits)),
                   old(EntryBlocks(View(p.disk, p.inodes[i].sectors), p.inodes[i].sectors)))
    ensures r.Inserted? ==> p.Valid() && Done(old(p.disk), p.disk, old(p.inodes), p.inodes, i, x, Decode(s))
    ensures r.Inserted? ==> SameTable(old(p.disk), p.disk, p.tableLba)
  {
    var b, k := FindFree(p.disk, p.inodes[i].sectors);
    x := PER_SECTOR * b + k;
    FullMeans(View(p.disk, p.inodes[i].sectors), x);
    EntryBlocksAt(View(p.disk, p.inodes[i].sectors), p.inodes[i].sectors, b, k);
    if b == DIRECT {
      var table := p.NewBlock({});
      if table.None? {
        return Panic, x;
      }
      var lba := p.NewBlock({});
      return if lba.None? then Panic else Corrupted, x;
    }
    if p.inodes[i].sectors[b] == 0 {
      var ok := InsertNew(p, i, b, s);
      return if ok then Inserted else Panic, x;
    }
    InsertThere(p, i, b, k, s);
    r := Inserted;
  }

  /** The insertion seen from outside: one more name, one more entry in the listing. */
  lemma InsertMeans(d: Disk, d': Disk, inodes: map<nat, Inode>, inodes': map<nat, Inode>, i: nat, x: nat, e: Entry)
    requires Done(d, d', inodes, inodes', i, x, e) && e.Entry? && DirOk(d, inodes[i])
    requires e.name !in NameMap(View(d, inodes[i].sectors))
    ensures var es, es' := View(d, inodes[i].sectors), View(d', inodes'[i].sectors);
            && NameMap(es') == NameMap(es)[e.name := e]
            && multiset(Listed(es')) == multiset(Listed(es)) + multiset{e}
  {
    var es, es' := View(d, inodes[i].sectors), View(d', inodes'[i].sectors);
    NameMapSet(es, es', x, e);
    ListedSet(es, x, e);
  }
}
