/** fs/file.c: file_create. */
module FileSystems {
  import opened Disks
  import opened InodeTable
  import opened Volumes
  import opened Entries
  import opened DirSlots
  import opened Dirs
  import DirInserts
  import DirDeletes
  import Files
  import Releases

  // ---------------------------------------------------------------- a file that is not touched

  /** A file whose blocks were not touched is the same file. */
  lemma FileKept(d: Disk, d': Disk, n: Inode)
    requires |n.sectors| == 13 && Untouched(d, d', n) && Files.FileOk(d, n)
    ensures Files.FileOk(d', n) && Files.Contents(d', n) == Files.Contents(d, n)
  {
    var blk := BlocksOf(d, n);
    assert Slots(d', n)[..BLOCKS] == BlocksOf(d', n) && Slots(d, n)[..BLOCKS] == blk;
    assert Slots(d, n)[0] == n.sectors[0];
    forall j | 0 <= j < n.size
      ensures Files.Bytes(d', blk, n.size)[j] == Files.Bytes(d, blk, n.size)[j]
    {
      InFile(d, n, j);
    }
  }

  lemma InFile(d: Disk, n: Inode, j: nat)
    requires |n.sectors| == 13 && Files.FileOk(d, n) && j < n.size
    ensures j / 512 < BLOCKS && BlocksOf(d, n)[j / 512] in Owns(d, n)
  {
    var k := j / 512;
    assert Slots(d, n)[0] == n.sectors[0];
    assert k <= n.size / 512;
    assert Slots(d, n)[k] == BlocksOf(d, n)[k] != 0;
  }

  // ---------------------------------------------------------------- file_create

  /** Panic: a bitmap is full.  Corrupted: the directory is full.  Created: the number of the new file. */
  datatype Create = Panic | Corrupted | Created(no: nat)

  /** Every number below n is in use. */
  ghost predicate NumbersUsed(inodes: map<nat, Inode>, n: nat) {
    forall k: nat :: k < n ==> k in inodes
  }

  /** inode_bitmap_alloc: the least number not in use. */
  method InodeAlloc(inodes: map<nat, Inode>) returns (j: nat)
    ensures j <= MAX_FILES_PER_PART && (j < MAX_FILES_PER_PART ==> j !in inodes) && NumbersUsed(inodes, j)
  {
    j := 0;
    while j < MAX_FILES_PER_PART && j in inodes
      invariant j <= MAX_FILES_PER_PART && forall k: nat :: k < j ==> k in inodes
    {
      j := j + 1;
    }
  }

  /** Every entry but "." and ".." leads to an inode in use. */
  ghost predicate NoDangling(es: seq<Entry>, inodes: map<nat, Inode>) {
    forall x :: 2 <= x < |es| && es[x].Entry? ==> es[x].ino in inodes
  }

  lemma FreshEntry(d: Disk, n: Inode, inodes: map<nat, Inode>, name: seq<Byte>, j: nat)
    requires |n.sectors| == 13 && DirOk(d, n) && NoDangling(View(d, n.sectors), inodes) && j !in inodes && j < WORDS
    requires IsName(name) && |name| < MAX_NAME && name !in NameMap(View(d, n.sectors))
    ensures DirInserts.Insertable(d, n, MakeEntry(name, j, FT_REGULAR))
    ensures Decode(MakeEntry(name, j, FT_REGULAR)) == Entry(name, j, FT_REGULAR)
  {
    MakeEntryFields(name, j, FT_REGULAR);
    MakeEntryName(name, j, FT_REGULAR);
  }

  lemma TwoSyncs(d: Disk, d1: Disk, d2: Disk, d3: Disk, t: nat, n: Inode, m: Inode)
    requires |n.sectors| == 13 == |m.sectors| && SameTable(d, d1, t)
    requires OnlyRecord(d1, d2, t, Low8(n.no), Pure(n)) && OnlyRecord(d2, d3, t, Low8(m.no), Pure(m))
    ensures SyncedTwo(d, d3, t, n, m)
  {
    forall j: nat | j < MAX_FILES_PER_PART
      ensures Record(d3, t, j) ==
              if j == Low8(m.no) then Pure(m) else if j == Low8(n.no) then Pure(n) else Record(d, t, j)
    {
      SameRecord(d, d1, t, j);
    }
  }

  /** The two calls of inode_sync: parent i, then the new inode; d has the table from before. */
  method SyncBoth(p: Partition, i: nat, n: Inode, ghost d: Disk)
    requires p.Valid() && i in p.inodes && |n.sectors| == 13 && SameTable(d, p.disk, p.tableLba)
    modifies p`disk
    ensures p.Valid() && DirDeletes.NoneTouched(old(p.disk), p.disk, p.inodes)
            && SyncedTwo(d, p.disk, p.tableLba, p.inodes[i], n)
  {
    Files.SyncInode(p, p.inodes[i]);
    ghost var d2 := p.disk;
    Files.SyncInode(p, n);
    NotedKept(old(p.disk), p.disk, p.bitmapLba, p.bits, p.dataStart, Tables(p.inodes), Tables(p.inodes));
    TwoSyncs(d, old(p.disk), d2, p.disk, p.tableLba, p.inodes[i], n);
    DirDeletes.SoundAfterSync(old(p.disk), p.disk, p.inodes, p.bits, p.dataStart, p.reserved);
  }

  /** Directory i has one more name. */
  ghost predicate NameAdded(d: Disk, d': Disk, n: Inode, n': Inode, x: nat, e: Entry) {
    && e.Entry? && |n.sectors| == 13 == |n'.sectors| && DirOk(d', n')
    && x < CAPACITY && View(d, n.sectors)[x].Free? && View(d', n'.sectors) == View(d, n.sectors)[x := e]
    && NameMap(View(d', n'.sectors)) == NameMap(View(d, n.sectors))[e.name := e]
  }

  ghost predicate EmptyFile(d: Disk, n: Inode, j: nat) {
    n == Releases.NewInode(j) && Files.FileOk(d, n) && Files.Contents(d, n) == []
  }

  /** Inode j is new, inode i may have changed, the others are as they were. */
  ghost predicate OneNew(d: Disk, d': Disk, inodes: map<nat, Inode>, inodes': map<nat, Inode>, i: nat, j: nat) {
    && i in inodes && j !in inodes && inodes'.Keys == inodes.Keys + {j}
    && forall k :: k in inodes && k != i ==> inodes'[k] == inodes[k] && |inodes[k].sectors| == 13
                                             && Untouched(d, d', inodes[k])
  }

  /** What file_create has done: directory i has one more name, the name of a new and empty file. */
  ghost predicate Made(d: Disk, d': Disk, inodes: map<nat, Inode>, inodes': map<nat, Inode>, i: nat, j: nat, x: nat,
                       name: seq<Byte>) {
    && OneNew(d, d', inodes, inodes', i, j) && EmptyFile(d', inodes'[j], j)
    && NameAdded(d, d', inodes[i], inodes'[i], x, Entry(name, j, FT_REGULAR))
  }

  lemma NameAddedNow(d: Disk, d1: Disk, d2: Disk, inodes: map<nat, Inode>, inodes1: map<nat, Inode>, i: nat, x: nat,
                     e: Entry)
    requires DirInserts.Done(d, d1, inodes, inodes1, i, x, e) && e.Entry? && Untouched(d1, d2, inodes1[i])
    requires DirOk(d, inodes[i]) && e.name !in NameMap(View(d, inodes[i].sectors))
    ensures NameAdded(d, d2, inodes[i], inodes1[i], x, e)
  {
    DirInserts.InsertMeans(d, d1, inodes, inodes1, i, x, e);
    DirDeletes.ParentKept(d1, d2, inodes1[i]);
  }

  lemma OneNewNow(d: Disk, d': Disk, inodes: map<nat, Inode>, inodes1: map<nat, Inode>, i: nat, j: nat, n: Inode)
    requires Files.OthersSame(d, d', inodes, inodes1, i) && i in inodes && j !in inodes
    ensures OneNew(d, d', inodes, inodes1[j := n], i, j)
  {
  }

  lemma EmptyFileNow(d: Disk, j: nat)
    ensures EmptyFile(d, Releases.NewInode(j), j)
  {
    Releases.NothingOwned(d, j);
  }

  lemma MadeParts(d: Disk, d': Disk, inodes: map<nat, Inode>, inodes1: map<nat, Inode>, i: nat, j: nat, x: nat,
                  name: seq<Byte>)
    requires OneNew(d, d', inodes, inodes1[j := Releases.NewInode(j)], i, j) && EmptyFile(d', Releases.NewInode(j), j)
             && i in inodes1
    requires NameAdded(d, d', inodes[i], inodes1[i], x, Entry(name, j, FT_REGULAR))
    ensures Made(d, d', inodes, inodes1[j := Releases.NewInode(j)], i, j, x, name)
  {
  }

  lemma MadeNow(d: Disk, d1: Disk, d2: Disk, inodes: map<nat, Inode>, inodes1: map<nat, Inode>, i: nat, j: nat,
                x: nat, name: seq<Byte>)
    requires DirInserts.Done(d, d1, inodes, inodes1, i, x, Entry(name, j, FT_REGULAR)) && j !in inodes
    requires DirOk(d, inodes[i]) && name !in NameMap(View(d, inodes[i].sectors))
    requires DirDeletes.NoneTouched(d1, d2, inodes1)
    ensures Made(d, d2, inodes, inodes1[j := Releases.NewInode(j)], i, j, x, name)
  {
    NameAddedNow(d, d1, d2, inodes, inodes1, i, x, Entry(name, j, FT_REGULAR));
    DirDeletes.OthersAfterSync(d, d1, d2, inodes, inodes1, i);
    OneNewNow(d, d2, inodes, inodes1, i, j, Releases.NewInode(j));
    EmptyFileNow(d2, j);
    MadeParts(d, d2, inodes, inodes1, i, j, x, name);
  }

  lemma TablesMore(inodes: map<nat, Inode>, j: nat, n: Inode)
    requires j !in inodes
    ensures Tables(inodes) <= Tables(inodes[j := n])
  {
    forall x | x in Tables(inodes) ensures x in Tables(inodes[j := n]) {
      var k :| k in inodes && |inodes[k].sectors| == 13 && inodes[k].sectors[TABLE] == x;
      assert k in inodes[j := n] && inodes[j := n][k].sectors[TABLE] == x;
    }
  }

  /** The new inode is entered. */
  method AddNode(p: Partition, j: nat)
    requires p.Valid() && j !in p.inodes && j < MAX_FILES_PER_PART
    modifies p`inodes
    ensures p.Valid() && p.inodes == old(p.inodes)[j := Releases.NewInode(j)]
  {
    Releases.Added(p.disk, p.inodes, p.bits, p.dataStart, p.reserved, j);
    TablesMore(p.inodes, j, Releases.NewInode(j));
    NotedKept(p.disk, p.disk, p.bitmapLba, p.bits, p.dataStart, Tables(p.inodes),
              Tables(p.inodes[j := Releases.NewInode(j)]));
    p.inodes := p.inodes[j := Releases.NewInode(j)];
  }

  /** The rest of file_create, once the entry is in the directory. */
  method FinishCreate(p: Partition, i: nat, j: nat, ghost d: Disk)
    requires p.Valid() && i in p.inodes && j !in p.inodes && j < MAX_FILES_PER_PART && SameTable(d, p.disk, p.tableLba)
    modifies p`disk, p`inodes
    ensures p.Valid() && p.inodes == old(p.inodes)[j := Releases.NewInode(j)]
            && DirDeletes.NoneTouched(old(p.disk), p.disk, old(p.inodes))
    ensures |p.inodes[i].sectors| == 13 && SyncedTwo(d, p.disk, p.tableLba, p.inodes[i], p.inodes[j])
  {
    SyncBoth(p, i, Releases.NewInode(j), d);
    AddNode(p, j);
  }

  /** file_create once the number j was found. */
  method CreateNumbered(p: Partition, i: nat, name: seq<Byte>, j: nat) returns (ins: DirInserts.Insert, ghost x: nat)
    requires p.Valid() && i in p.inodes && DirOk(p.disk, p.inodes[i]) && j !in p.inodes && j < MAX_FILES_PER_PART
             && |name| < MAX_NAME
    requires DirInserts.Insertable(p.disk, p.inodes[i], MakeEntry(name, j, FT_REGULAR))
    requires Decode(MakeEntry(name, j, FT_REGULAR)) == Entry(name, j, FT_REGULAR)
    modifies p
    ensures DirInserts.EndsBy(ins, old(p.inodes[i].size) == SLOT * CAPACITY, FreeBits(old(p.bits)),
                              old(DirInserts.EntryBlocks(View(p.disk, p.inodes[i].sectors), p.inodes[i].sectors)))
    ensures ins.Inserted? ==> p.Valid() && Made(old(p.disk), p.disk, old(p.inodes), p.inodes, i, j, x, name)
    ensures ins.Inserted? ==> SyncedTwo(old(p.disk), p.disk, p.tableLba, p.inodes[i], p.inodes[j])
  {
    ins, x := DirInserts.SyncDirEntry(p, i, MakeEntry(name, j, FT_REGULAR));
    if ins.Inserted? {
      ghost var d1, inodes1 := p.disk, p.inodes;
      FinishCreate(p, i, j, old(p.disk));
      MadeNow(old(p.disk), d1, p.disk, old(p.inodes), inodes1, i, j, x, name);
    }
  }

  /** file_create without the tables of open files. */
  method FileCreate(p: Partition, i: nat, name: seq<Byte>) returns (r: Create, ghost x: nat)
    requires p.Valid() && i in p.inodes && DirOk(p.disk, p.inodes[i]) && IsName(name) && |name| < MAX_NAME
    requires NoDangling(View(p.disk, p.inodes[i].sectors), p.inodes)
             && name !in NameMap(View(p.disk, p.inodes[i].sectors))
    modifies p
    ensures var full, free := old(p.inodes[i].size) == SLOT * CAPACITY, FreeBits(old(p.bits));
            var needed := old(DirInserts.EntryBlocks(View(p.disk, p.inodes[i].sectors), p.inodes[i].sectors));
            && (r.Panic? <==> free < needed || NumbersUsed(old(p.inodes), MAX_FILES_PER_PART))
            && (r.Created? <==> free >= needed && !full && !NumbersUsed(old(p.inodes), MAX_FILES_PER_PART))
    ensures r.Created? ==> p.Valid() && Made(old(p.disk), p.disk, old(p.inodes), p.inodes, i, r.no, x, name)
    ensures r.Created? ==> r.no < MAX_FILES_PER_PART && NumbersUsed(old(p.inodes), r.no)
    ensures r.Created? ==> SyncedTwo(old(p.disk), p.disk, p.tableLba, p.inodes[i], p.inodes[r.no])
  {
    x := 0;
    var j := InodeAlloc(p.inodes);
    if j == MAX_FILES_PER_PART {
      return Panic, x;
    }
    FreshEntry(p.disk, p.inodes[i], p.inodes, name, j);
    var ins;
    ins, x := CreateNumbered(p, i, name, j);
    r := if ins.Inserted? then Created(j) else if ins.Panic? then Panic else Corrupted;
  }
}
