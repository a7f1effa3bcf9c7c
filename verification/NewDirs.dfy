/** fs/fs.c: sys_mkdir, from the new inode on. */
module NewDirs {
  import opened Options
  import opened Disks
  import opened InodeTable
  import opened Volumes
  import opened Entries
  import opened DirSlots
  import opened Dirs
  import opened Paths
  import opened Walks
  import opened WorkingDirs
  import opened Trees
  import opened Worlds
  import DirInserts
  import DirDeletes
  import Files
  import FileSystems
  import Releases

  // ---------------------------------------------------------------- the block with "." and ".."

  function Dot(j: nat): Slot {
    MakeEntry(DOT, j, FT_DIRECTORY)
  }

  function DotDot(a: nat): Slot {
    MakeEntry(DOTDOT, a, FT_DIRECTORY)
  }

  /** io_buf after the two entries were written into it. */
  function Dots(j: nat, a: nat): Sector {
    Splice(Splice(ZEROS, 0, Dot(j)), SLOT, DotDot(a))
  }

  function NoSectors(): seq<nat> {
    seq(13, _ => 0)
  }

  lemma DotEntries(j: nat, a: nat)
    requires j < WORDS && a < WORDS
    ensures Decode(Dot(j)) == Entry(DOT, j, FT_DIRECTORY) && Decode(DotDot(a)) == Entry(DOTDOT, a, FT_DIRECTORY)
  {
    MakeEntryFields(DOT, j, FT_DIRECTORY);
    MakeEntryFields(DOTDOT, a, FT_DIRECTORY);
    MakeEntryName(DOT, j, FT_DIRECTORY);
    MakeEntryName(DOTDOT, a, FT_DIRECTORY);
  }

  lemma DotsRow(d: Disk, lba: nat, j: nat, a: nat)
    requires lba != 0
    ensures Row(d[lba := Dots(j, a)], NoSectors()[0 := lba]) == Row(d, NoSectors())[0 := Dot(j)][1 := DotDot(a)]
  {
    var sectors := NoSectors()[0 := lba];
    var d1 := d[lba := Splice(ZEROS, 0, Dot(j))];
    RowNew(d, NoSectors(), 0, lba, Dot(j));
    OneBlock(sectors, lba);
    RowWrite(d1, sectors, 0, 1, DotDot(a));
    assert d1[lba := Dots(j, a)] == d[lba := Dots(j, a)];
  }

  lemma OneBlock(sectors: seq<nat>, lba: nat)
    requires sectors == NoSectors()[0 := lba]
    ensures Distinct(sectors[..12])
  {
    forall i, j ensures !Clash(sectors[..12], i, j) {
    }
  }

  lemma NothingThere(d: Disk, x: nat)
    requires x < CAPACITY
    ensures Row(d, NoSectors())[x] == EMPTY && View(d, NoSectors())[x].Free?
  {
    EmptySlot(EMPTY);
  }

  lemma DotsView(d: Disk, lba: nat, j: nat, a: nat)
    requires lba != 0 && j < WORDS && a < WORDS
    ensures var d', sectors := d[lba := Dots(j, a)], NoSectors()[0 := lba];
            && Clean(Row(d', sectors)) && View(d', sectors)[0] == Entry(DOT, j, FT_DIRECTORY)
            && View(d', sectors)[1] == Entry(DOTDOT, a, FT_DIRECTORY)
            && forall x :: 2 <= x < CAPACITY ==> View(d', sectors)[x].Free?
  {
    var row := Row(d, NoSectors());
    DotsRow(d, lba, j, a);
    DotEntries(j, a);
    DecodeSet(row, 0, Dot(j));
    DecodeSet(row[0 := Dot(j)], 1, DotDot(a));
    forall x | 0 <= x < CAPACITY ensures row[x] == EMPTY && View(d, NoSectors())[x].Free? {
      NothingThere(d, x);
    }
    CleanSet(row, 0, Dot(j));
    CleanSet(row[0 := Dot(j)], 1, DotDot(a));
  }

  lemma DotsOk(es: seq<Entry>, j: nat, a: nat, sectors: seq<nat>, lba: nat)
    requires |es| == CAPACITY && es[0] == Entry(DOT, j, FT_DIRECTORY) && es[1] == Entry(DOTDOT, a, FT_DIRECTORY)
    requires (forall x :: 2 <= x < CAPACITY ==> es[x].Free?) && sectors == NoSectors()[0 := lba] && lba != 0
    ensures NewRow(es, j, a) && EntriesOk(es, sectors, 2 * SLOT)
  {
    forall x, y ensures !SameName(es, x, y) {
    }
    assert RowOk(es);
    TwoListed(es);
  }

  // ---------------------------------------------------------------- the new inode

  function DirInode(j: nat, lba: nat): Inode {
    Releases.NewInode(j).(size := 2 * SLOT, sectors := NoSectors()[0 := lba])
  }

  lemma NewDirOk(d: Disk, j: nat, a: nat, lba: nat)
    requires lba != 0 && j < WORDS && a < WORDS
    ensures var d' := d[lba := Dots(j, a)];
            DirOk(d', DirInode(j, lba)) && NewRow(View(d', DirInode(j, lba).sectors), j, a)
  {
    DotsView(d, lba, j, a);
    DotsOk(View(d[lba := Dots(j, a)], NoSectors()[0 := lba]), j, a, NoSectors()[0 := lba], lba);
  }

  /** Block lba was allocated for the new inode j: d and bits are from before, d1 and bits1 from after. */
  ghost predicate Allotted(d: Disk, d1: Disk, inodes: map<nat, Inode>, j: nat, bits: seq<bool>, bits1: seq<bool>,
                           base: nat, reserved: set<nat>, lba: nat)
  {
    && Sound(d, inodes, bits, base, reserved) && j in inodes && inodes[j] == Releases.NewInode(j)
    && SameData(d, d1, base) && 0 < base <= lba < base + |bits| && lba < WORDS && !Marked(bits, base, lba)
    && bits1 == bits[lba - base := true]
  }

  lemma NewDirSound(d: Disk, d1: Disk, d': Disk, inodes: map<nat, Inode>, j: nat, bits: seq<bool>, bits1: seq<bool>,
                    base: nat, reserved: set<nat>, lba: nat, v: Sector)
    requires Allotted(d, d1, inodes, j, bits, bits1, base, reserved, lba) && d' == d1[lba := v]
    ensures Sound(d', inodes[j := DirInode(j, lba)], bits1, base, reserved)
    ensures Files.OthersSame(d, d', inodes, inodes[j := DirInode(j, lba)], j)
  {
    var n, n' := Releases.NewInode(j), DirInode(j, lba);
    Files.StartGrowing(d, inodes, bits, base, reserved, j);
    DirInserts.DirSlotsSet(d, d', n, n', 0, lba);
    assert Slots(d, n)[0] == 0;
    GrowOne(Slots(d, n), bits, Slots(d, n), bits, base, 0, lba);
    DirInserts.OwnBlock(d', n', 0);
    DirInserts.DirCommit(d, d', inodes, j, n', bits, bits1, base, reserved);
  }

  /** Another inode than the root, and the disk, are replaced. */
  method Replace(p: Partition, j: nat, n: Inode, d': Disk)
    requires p.Layout() && p.RootOk() && j != 0 && Sound(d', p.inodes[j := n], p.bits, p.dataStart, p.reserved)
    requires j in p.inodes && |p.inodes[j].sectors| == |n.sectors| == 13 && Files.SameTableSlot(p.inodes[j], n)
    requires n.sectors[TABLE] == 0 && SameBitmap(p.disk, d', p.bitmapLba, p.tableLba)
    requires Noted(p.disk, p.bitmapLba, p.bits, p.dataStart, Tables(p.inodes)) && p.dataStart > 0
    modifies p`disk, p`inodes
    ensures p.Valid() && p.disk == d' && p.inodes == old(p.inodes)[j := n]
  {
    Files.TablesSet(p.inodes, j, n);
    NotedKept(p.disk, d', p.bitmapLba, p.bits, p.dataStart, Tables(p.inodes), Tables(p.inodes[j := n]));
    p.disk, p.inodes := d', p.inodes[j := n];
  }

  /** v is the first block of the new directory j. */
  method EnterDir(p: Partition, j: nat, lba: nat, v: Sector, ghost d: Disk, ghost bits: seq<bool>)
    requires p.Layout() && p.RootOk() && j != 0
    requires Allotted(d, p.disk, p.inodes, j, bits, p.bits, p.dataStart, p.reserved, lba)
    requires Noted(p.disk, p.bitmapLba, p.bits, p.dataStart, Tables(p.inodes))
    modifies p`disk, p`inodes
    ensures p.Valid() && Files.OthersSame(d, p.disk, old(p.inodes), p.inodes, j)
    ensures p.inodes[j] == DirInode(j, lba) && p.disk == old(p.disk)[lba := v]
  {
    var d' := p.disk[lba := v];
    NewDirSound(d, p.disk, d', p.inodes, j, bits, p.bits, p.dataStart, p.reserved, lba, v);
    Replace(p, j, DirInode(j, lba), d');
  }

  /** The first block of the new directory j, whose parent is a; asserted is the assertion on its bit. */
  method DirBlock(p: Partition, j: nat, a: nat) returns (ok: bool, asserted: bool)
    requires p.Valid() && j in p.inodes && p.inodes[j] == Releases.NewInode(j) && j != 0 && j < WORDS && a < WORDS
    modifies p
    ensures asserted && (ok <==> FreeBits(old(p.bits)) >= 1) && (ok ==> FreeBits(p.bits) == FreeBits(old(p.bits)) - 1)
    ensures ok ==> SameTable(old(p.disk), p.disk, p.tableLba)
    ensures ok ==> p.Valid() && Files.OthersSame(old(p.disk), p.disk, old(p.inodes), p.inodes, j)
    ensures ok ==> |p.inodes[j].sectors| == 13 && DirOk(p.disk, p.inodes[j])
                   && NewRow(View(p.disk, p.inodes[j].sectors), j, a)
  {
    RootMarked(p.disk, p.inodes, p.bits, p.dataStart, p.reserved);
    var lba := p.NewBlock(Tables(p.inodes));
    ok, asserted := lba.Some?, true;
    if ok {
      asserted := lba.value - p.dataStart != 0;
      NewDirOk(p.disk, j, a, lba.value);
      DirInserts.OutsideTable(old(p.disk), p.disk, lba.value, Dots(j, a), p.tableLba, p.dataStart);
      EnterDir(p, j, lba.value, Dots(j, a), old(p.disk), old(p.bits));
    }
  }

  // ---------------------------------------------------------------- sys_mkdir

  /** Inode j is new, and the other inodes are as they were. */
  ghost predicate Reserved(d: Disk, d1: Disk, inodes: map<nat, Inode>, inodes1: map<nat, Inode>, j: nat) {
    && j !in inodes && inodes1.Keys == inodes.Keys + {j}
    && forall k {:trigger Carried(d, d1, inodes, inodes1, k)} :: k in inodes ==> Carried(d, d1, inodes, inodes1, k)
  }

  lemma ReservedNow(d: Disk, d1: Disk, inodes: map<nat, Inode>, inodes0: map<nat, Inode>, inodes1: map<nat, Inode>,
                    j: nat)
    requires j !in inodes && inodes0 == inodes[j := Releases.NewInode(j)]
             && Files.OthersSame(d, d1, inodes0, inodes1, j)
    ensures Reserved(d, d1, inodes, inodes1, j)
  {
    forall k {:trigger Carried(d, d1, inodes, inodes1, k)} | k in inodes ensures Carried(d, d1, inodes, inodes1, k) {
      assert k in inodes0 && k != j;
    }
  }

  lemma FreshDirEntry(d: Disk, inodes: map<nat, Inode>, a: nat, row: seq<Entry>, name: Name, j: nat)
    requires ShowsAt(d, inodes, a, row) && DirInserts.NewIno(row, j) && j < WORDS
    requires IsName(name) && |name| < MAX_NAME && name !in NameMap(row)
    ensures DirInserts.Insertable(d, inodes[a], MakeEntry(name, j, FT_DIRECTORY))
    ensures Decode(MakeEntry(name, j, FT_DIRECTORY)) == Entry(name, j, FT_DIRECTORY)
  {
    MakeEntryFields(name, j, FT_DIRECTORY);
    MakeEntryName(name, j, FT_DIRECTORY);
  }

  /** The parent can take the entry. */
  lemma ParentReady(d: Disk, d1: Disk, inodes: map<nat, Inode>, inodes1: map<nat, Inode>, tree: Tree,
                    depth: map<nat, nat>, a: nat, j: nat, name: Name)
    requires World(d, inodes, tree, depth) && Reserved(d, d1, inodes, inodes1, j) && a in tree && j < WORDS
    requires IsName(name) && |name| < MAX_NAME && name !in NameMap(tree[a])
    ensures ShowsAt(d, inodes, a, tree[a]) && inodes1[a] == inodes[a]
    ensures ShowsAt(d1, inodes1, a, tree[a]) && DirInserts.Insertable(d1, inodes1[a], MakeEntry(name, j, FT_DIRECTORY))
    ensures Decode(MakeEntry(name, j, FT_DIRECTORY)) == Entry(name, j, FT_DIRECTORY)
  {
    CanCreate(d, inodes, tree, depth, a);
    assert Carried(d, d1, inodes, inodes1, a);
    CarryDir(d, d1, inodes, inodes1, a, tree[a]);
    FreshDirEntry(d1, inodes1, a, tree[a], name, j);
  }

  /** The directory after the insertion, and after the two inodes were synced. */
  lemma ParentShows(d1: Disk, d2: Disk, d3: Disk, inodes1: map<nat, Inode>, inodes2: map<nat, Inode>, a: nat, x: nat,
                    e: Entry, row: seq<Entry>)
    requires ShowsAt(d1, inodes1, a, row) && DirInserts.Done(d1, d2, inodes1, inodes2, a, x, e)
    requires DirDeletes.NoneTouched(d2, d3, inodes2)
    ensures x < |row| == CAPACITY && row[x].Free? && RowOk(row[x := e]) && ShowsAt(d3, inodes2, a, row[x := e])
  {
    assert ShowsAt(d2, inodes2, a, row[x := e]);
    assert Carried(d2, d3, inodes2, inodes2, a);
    CarryDir(d2, d3, inodes2, inodes2, a, row[x := e]);
  }

  lemma CarriedOn(d1: Disk, d2: Disk, d3: Disk, inodes1: map<nat, Inode>, inodes2: map<nat, Inode>, a: nat, k: nat)
    requires Files.OthersSame(d1, d2, inodes1, inodes2, a) && DirDeletes.NoneTouched(d2, d3, inodes2) && k in inodes1
             && k != a
    ensures Carried(d1, d3, inodes1, inodes2, k)
  {
    assert Carried(d1, d2, inodes1, inodes2, k) && Carried(d2, d3, inodes2, inodes2, k);
    CarryTrans(d1, d2, d3, inodes1, inodes2, inodes2, k);
  }

  lemma MkdirKept(d: Disk, d1: Disk, d2: Disk, d3: Disk, inodes: map<nat, Inode>, inodes1: map<nat, Inode>,
                  inodes2: map<nat, Inode>, tree: Tree, a: nat, j: nat, x: nat, e: Entry, row: seq<Entry>, k: nat)
    requires Reserved(d, d1, inodes, inodes1, j) && Files.OthersSame(d1, d2, inodes1, inodes2, a)
             && DirDeletes.NoneTouched(d2, d3, inodes2)
    requires a in tree && x < |tree[a]| && e.Entry? && e.ino == j && k in inodes2 && k != a && k != j
    ensures Kept(d, d3, inodes, inodes2, tree, WithDir(tree, a, x, e, row), k)
  {
    assert Carried(d, d1, inodes, inodes1, k);
    CarriedOn(d1, d2, d3, inodes1, inodes2, a, k);
    CarryTrans(d, d1, d3, inodes, inodes1, inodes2, k);
  }

  lemma MkdirTree(inodes: map<nat, Inode>, inodes2: map<nat, Inode>, tree: Tree, depth: map<nat, nat>, a: nat, x: nat,
                  e: Entry, row: seq<Entry>)
    requires TreeOk(tree, depth, inodes.Keys) && a in tree && x < CAPACITY && tree[a][x].Free? && RowOk(tree[a][x := e])
    requires e.Entry? && e.ftype == FT_DIRECTORY && Proper(e.name) && |e.name| < MAX_NAME
             && e.ino < MAX_FILES_PER_PART && NewRow(row, e.ino, a)
    requires e.ino !in inodes && inodes2.Keys == inodes.Keys + {e.ino}
    ensures a != e.ino && TreeOk(WithDir(tree, a, x, e, row), depth[e.ino := depth[a] + 1], inodes2.Keys)
  {
    FreeIsLate(tree, a, x);
    DirEntered(tree, depth, inodes.Keys, a, x, e, row);
  }

  lemma MkdirNodes(d: Disk, inodes: map<nat, Inode>, tree: Tree, a: nat, x: nat, e: Entry, row: seq<Entry>)
    requires a in tree && x < |tree[a]| && e.Entry? && a != e.ino
    requires ShowsAt(d, inodes, a, tree[a][x := e]) && ShowsAt(d, inodes, e.ino, row)
    ensures forall k {:trigger NodeIs(d, inodes, WithDir(tree, a, x, e, row), k)} :: k in {a, e.ino} && k in inodes ==>
              NodeIs(d, inodes, WithDir(tree, a, x, e, row), k)
  {
  }

  lemma MkdirAllKept(d: Disk, d1: Disk, d2: Disk, d3: Disk, inodes: map<nat, Inode>, inodes1: map<nat, Inode>,
                     inodes2: map<nat, Inode>, tree: Tree, tree': Tree, a: nat, x: nat, e: Entry, row: seq<Entry>)
    requires a in tree && x < |tree[a]| && e.Entry? && tree' == WithDir(tree, a, x, e, row)
    requires Reserved(d, d1, inodes, inodes1, e.ino) && Files.OthersSame(d1, d2, inodes1, inodes2, a)
    requires DirDeletes.NoneTouched(d2, d3, inodes2)
    ensures forall k {:trigger Kept(d, d3, inodes, inodes2, tree, tree', k)} :: k in inodes2 && k !in {a, e.ino} ==>
              Kept(d, d3, inodes, inodes2, tree, tree', k)
  {
    forall k {:trigger Kept(d, d3, inodes, inodes2, tree, tree', k)} | k in inodes2 && k !in {a, e.ino}
      ensures Kept(d, d3, inodes, inodes2, tree, tree', k)
    {
      MkdirKept(d, d1, d2, d3, inodes, inodes1, inodes2, tree, a, e.ino, x, e, row, k);
    }
  }

  lemma NewStays(d1: Disk, d2: Disk, d3: Disk, inodes1: map<nat, Inode>, inodes2: map<nat, Inode>, a: nat, j: nat,
                 row: seq<Entry>)
    requires Files.OthersSame(d1, d2, inodes1, inodes2, a) && DirDeletes.NoneTouched(d2, d3, inodes2)
    requires ShowsAt(d1, inodes1, j, row) && j != a
    ensures ShowsAt(d3, inodes2, j, row)
  {
    CarriedOn(d1, d2, d3, inodes1, inodes2, a, j);
    CarryDir(d1, d3, inodes1, inodes2, j, row);
  }

  lemma MkdirRebuild(d: Disk, d3: Disk, inodes: map<nat, Inode>, inodes2: map<nat, Inode>, tree: Tree, tree': Tree,
                     depth: map<nat, nat>, depth': map<nat, nat>, a: nat, x: nat, e: Entry, row: seq<Entry>)
    requires World(d, inodes, tree, depth) && TreeOk(tree', depth', inodes2.Keys)
    requires a in tree && x < |tree[a]| && e.Entry? && a != e.ino && tree' == WithDir(tree, a, x, e, row)
    requires ShowsAt(d3, inodes2, a, tree[a][x := e]) && ShowsAt(d3, inodes2, e.ino, row)
    requires forall k {:trigger Kept(d, d3, inodes, inodes2, tree, tree', k)} :: k in inodes2 && k !in {a, e.ino} ==>
               Kept(d, d3, inodes, inodes2, tree, tree', k)
    ensures World(d3, inodes2, tree', depth')
  {
    MkdirNodes(d3, inodes2, tree, a, x, e, row);
    Rebuild(d, d3, inodes, inodes2, tree, tree', depth, depth', {a, e.ino});
  }

  /** Inode and block of the new directory. */
  method MakeDir(p: Partition, a: nat) returns (ok: bool, j: nat)
    requires p.Valid() && a < WORDS
    modifies p
    ensures ok <==> FreeBits(old(p.bits)) >= 1 && !FileSystems.NumbersUsed(old(p.inodes), MAX_FILES_PER_PART)
    ensures ok ==> FreeBits(p.bits) == FreeBits(old(p.bits)) - 1
    ensures ok ==> FileSystems.NumbersUsed(old(p.inodes), j) && SameTable(old(p.disk), p.disk, p.tableLba)
    ensures ok ==> p.Valid() && 0 < j < MAX_FILES_PER_PART && Reserved(old(p.disk), p.disk, old(p.inodes), p.inodes, j)
    ensures ok ==> |p.inodes[j].sectors| == 13 && ShowsAt(p.disk, p.inodes, j, View(p.disk, p.inodes[j].sectors))
    ensures ok ==> NewRow(View(p.disk, p.inodes[j].sectors), j, a)
  {
    j := FileSystems.InodeAlloc(p.inodes);
    ok := j < MAX_FILES_PER_PART;
    if ok {
      FileSystems.AddNode(p, j);
      ghost var inodes0 := p.inodes;
      var asserted;
      ok, asserted := DirBlock(p, j, a);
      if ok {
        ReservedNow(old(p.disk), p.disk, old(p.inodes), inodes0, p.inodes, j);
      }
    }
  }

  lemma SameTableOn(d: Disk, d1: Disk, d2: Disk, t: nat)
    requires SameTable(d, d1, t) && SameTable(d1, d2, t)
    ensures SameTable(d, d2, t)
  {
  }

  /** The parent's entry, and the two inodes on the disk; d has the table from before. */
  method EnterInParent(p: Partition, a: nat, j: nat, name: Name, ghost d: Disk)
    returns (ok: bool, ghost x: nat, ghost d2: Disk)
    requires p.Valid() && a in p.inodes && j in p.inodes && |name| <= MAX_NAME && SameTable(d, p.disk, p.tableLba)
    requires DirInserts.Insertable(p.disk, p.inodes[a], MakeEntry(name, j, FT_DIRECTORY))
    requires Decode(MakeEntry(name, j, FT_DIRECTORY)) == Entry(name, j, FT_DIRECTORY)
    modifies p
    ensures ok <==> && old(p.inodes[a].size) != SLOT * CAPACITY
                    && old(DirInserts.EntryBlocks(View(p.disk, p.inodes[a].sectors), p.inodes[a].sectors)) <=
                       FreeBits(old(p.bits))
    ensures ok ==> p.Valid()
    ensures ok ==> DirInserts.Done(old(p.disk), d2, old(p.inodes), p.inodes, a, x, Entry(name, j, FT_DIRECTORY))
    ensures ok ==> DirDeletes.NoneTouched(d2, p.disk, p.inodes)
    ensures ok ==> |p.inodes[j].sectors| == 13 && SyncedTwo(d, p.disk, p.tableLba, p.inodes[a], p.inodes[j])
  {
    var ins;
    ins, x := DirInserts.SyncDirEntry(p, a, MakeEntry(name, j, FT_DIRECTORY));
    d2 := p.disk;
    ok := ins.Inserted?;
    if ok {
      SameTableOn(d, old(p.disk), d2, p.tableLba);
      FileSystems.SyncBoth(p, a, p.inodes[j], d);
    }
  }

  lemma MkdirRecords(d: Disk, d1: Disk, d2: Disk, d3: Disk, t: nat, inodes: map<nat, Inode>, inodes1: map<nat, Inode>,
                     inodes2: map<nat, Inode>, a: nat, j: nat, x: nat, e: Entry)
    requires Reserved(d, d1, inodes, inodes1, j) && DirInserts.Done(d1, d2, inodes1, inodes2, a, x, e) && a in inodes
    requires Recorded(d, t, inodes) && Numbered(inodes2) && j < MAX_FILES_PER_PART && FileSystems.NumbersUsed(inodes, j)
    requires SyncedTwo(d, d3, t, inodes2[a], inodes2[j])
    ensures if j < 256 then Recorded(d3, t, inodes2) && !FileSystems.NumbersUsed(inodes, 256)
            else RootLost(d3, t, inodes2) && FileSystems.NumbersUsed(inodes, 256) && j == 256
  {
    forall k <- inodes ensures k != a ==> inodes2[k] == inodes[k] {
      assert Carried(d, d1, inodes, inodes1, k);
    }
    RecordsGrow(d, d3, t, inodes, inodes2, a, j);
  }

  /** The work of sys_mkdir: a new directory `name` in directory a. */
  method Mkdir(p: Partition, ghost tree: Tree, ghost depth: map<nat, nat>, a: nat, name: Name)
    returns (s: Status, no: nat, ghost tree': Tree, ghost depth': map<nat, nat>)
    requires Intact(p, tree, depth) && a in tree
    requires Proper(name) && IsName(name) && |name| < MAX_NAME && name !in NameMap(tree[a])
    modifies p
    ensures s.Done? ==> Intact(p, tree', depth') && Entered(tree, tree', a, Entry(name, no, FT_DIRECTORY))
    ensures s.Done? ==> no !in old(p.inodes) && p.inodes.Keys == old(p.inodes.Keys) + {no} && no in tree'
                        && NewRow(tree'[no], no, a)
    ensures s.Done? ==> FileSystems.NumbersUsed(old(p.inodes), no) && !FileSystems.NumbersUsed(old(p.inodes), 256)
    ensures s.Lost? ==> FileSystems.NumbersUsed(old(p.inodes), 256) && no == 256
                        && RootLost(p.disk, p.tableLba, p.inodes)
    ensures s.Stopped? <==> NoSpace(tree, old(p.inodes), a, old(p.bits), 1)
    ensures s.Done? ==> FilesOf(p.disk, p.inodes, tree.Keys + {no}) == FilesOf(old(p.disk), old(p.inodes), tree.Keys)
    ensures !s.Refused? && (s.Lost? ==> s.loss.RootRecord?)
  {
    tree', depth', no := tree, depth, 0;
    NotAllUsed(p.disk, p.tableLba, p.inodes);
    assert LinkedAt(tree, depth, a);
    var ok, j := MakeDir(p, a);
    if !ok {
      return Stopped, 0, tree, depth;
    }
    ghost var d1, inodes1, row := p.disk, p.inodes, View(p.disk, p.inodes[j].sectors);
    ParentReady(old(p.disk), d1, old(p.inodes), inodes1, tree, depth, a, j, name);
    FullBySize(d1, inodes1, tree, a);
    ghost var x, d2;
    ok, x, d2 := EnterInParent(p, a, j, name, old(p.disk));
    if !ok {
      return Stopped, 0, tree, depth;
    }
    ghost var e := Entry(name, j, FT_DIRECTORY);
    MkdirWorld(old(p.disk), d1, d2, p.disk, old(p.inodes), inodes1, p.inodes, tree, depth, a, x, e, row);
    MkdirFiles(old(p.disk), d1, d2, p.disk, old(p.inodes), inodes1, p.inodes, tree, depth, a, j);
    MkdirRecords(old(p.disk), d1, d2, p.disk, p.tableLba, old(p.inodes), inodes1, p.inodes, a, j, x, e);
    tree', depth', no := WithDir(tree, a, x, e, row), depth[j := depth[a] + 1], j;
    s := if no < 256 then Done else Lost(RootRecord);
  }

  lemma MkdirFiles(d: Disk, d1: Disk, d2: Disk, d3: Disk, inodes: map<nat, Inode>, inodes1: map<nat, Inode>,
                   inodes2: map<nat, Inode>, tree: Tree, depth: map<nat, nat>, a: nat, j: nat)
    requires World(d, inodes, tree, depth) && a in tree && Reserved(d, d1, inodes, inodes1, j)
    requires Files.OthersSame(d1, d2, inodes1, inodes2, a) && DirDeletes.NoneTouched(d2, d3, inodes2)
    ensures FilesOf(d3, inodes2, tree.Keys + {j}) == FilesOf(d, inodes, tree.Keys)
  {
    forall k {:trigger Carried(d, d3, inodes, inodes2, k)} | k in inodes && k !in tree.Keys
      ensures Carried(d, d3, inodes, inodes2, k) {
      assert Carried(d, d1, inodes, inodes1, k);
      CarriedOn(d1, d2, d3, inodes1, inodes2, a, k);
      CarryTrans(d, d1, d3, inodes, inodes1, inodes2, k);
    }
    FilesCarry(d, d3, inodes, inodes2, tree.Keys, tree.Keys + {j});
  }

  lemma MkdirWorld(d: Disk, d1: Disk, d2: Disk, d3: Disk, inodes: map<nat, Inode>, inodes1: map<nat, Inode>,
                   inodes2: map<nat, Inode>, tree: Tree, depth: map<nat, nat>, a: nat, x: nat, e: Entry,
                     row: seq<Entry>)
    requires World(d, inodes, tree, depth) && a in tree && e.Entry? && e.ftype == FT_DIRECTORY
    requires Proper(e.name) && |e.name| < MAX_NAME && e.ino < MAX_FILES_PER_PART
    requires Reserved(d, d1, inodes, inodes1, e.ino) && ShowsAt(d1, inodes1, a, tree[a])
             && ShowsAt(d1, inodes1, e.ino, row)
    requires DirInserts.Done(d1, d2, inodes1, inodes2, a, x, e) && DirDeletes.NoneTouched(d2, d3, inodes2)
             && NewRow(row, e.ino, a)
    ensures a in depth && x < |tree[a]|
    ensures World(d3, inodes2, WithDir(tree, a, x, e, row), depth[e.ino := depth[a] + 1])
    ensures Entered(tree, WithDir(tree, a, x, e, row), a, e)
  {
    ParentShows(d1, d2, d3, inodes1, inodes2, a, x, e, tree[a]);
    assert RowOk(tree[a]);
    DirIsEntered(tree, a, x, e, row);
    MkdirTree(inodes, inodes2, tree, depth, a, x, e, row);
    NewStays(d1, d2, d3, inodes1, inodes2, a, e.ino, row);
    var tree', depth' := WithDir(tree, a, x, e, row), depth[e.ino := depth[a] + 1];
    MkdirAllKept(d, d1, d2, d3, inodes, inodes1, inodes2, tree, tree', a, x, e, row);
    MkdirRebuild(d, d3, inodes, inodes2, tree, tree', depth, depth', a, x, e, row);
  }
}
