/** The file system as a whole: partition, files and directory tree, and what every call keeps. */
module Worlds {
  import opened Options
  import opened Disks
  import opened InodeTable
  import opened OpenInodes
  import opened Volumes
  import opened Entries
  import opened DirSlots
  import opened Dirs
  import opened Paths
  import opened Walks
  import opened WorkingDirs
  import opened Trees
  import DirInserts
  import DirDeletes
  import Files
  import FileSystems
  import Releases

  // ---------------------------------------------------------------- the invariant

  ghost predicate FileAt(d: Disk, inodes: map<nat, Inode>, i: nat) {
    i in inodes && |inodes[i].sectors| == 13 && Files.FileOk(d, inodes[i])
  }

  /** Inodes that are no directories are well-formed files. */
  ghost predicate FilesOk(d: Disk, inodes: map<nat, Inode>, tree: Tree) {
    forall i {:trigger FileAt(d, inodes, i)} :: i in inodes && i !in tree ==> FileAt(d, inodes, i)
  }

  /** The directories on the disk are a tree rooted at inode 0, and all other inodes are files. */
  ghost predicate World(d: Disk, inodes: map<nat, Inode>, tree: Tree, depth: map<nat, nat>) {
    Shows(d, inodes, tree) && FilesOk(d, inodes, tree) && TreeOk(tree, depth, inodes.Keys)
  }

  /** What every call keeps: the books of the partition balance, the directories are a tree, and the record of every
      inode in use is that inode, so that it does not matter whether an inode is open or read from the disk. */
  ghost predicate Intact(p: Partition, tree: Tree, depth: map<nat, nat>)
    reads p
  {
    p.Valid() && World(p.disk, p.inodes, tree, depth) && Recorded(p.disk, p.tableLba, p.inodes)
  }

  /** How a call that did its work can have lost the invariant.  RootRecord: it has taken inode number 256, and
      inode_sync has written its record over that of the root.  Dangling: it has released an inode, but an entry still
      leads there.  Stale: it has released an inode whose object is still in the list of open inodes. */
  datatype Loss = RootRecord | Dangling | Stale

  /** Stopped: an assertion failed, or memory was damaged.  Refused: -1. */
  datatype Status = Stopped | Refused | Lost(loss: Loss) | Done

  /** The record of the root is another inode's. */
  ghost predicate RootLost(d: Disk, t: nat, inodes: map<nat, Inode>) {
    0 in inodes && !Recorded(d, t, inodes) && Parse(Record(d, t, 0)).no == 256
  }

  /** After a new inode was synced, the table is right if its number is below 256; the next number is 256, and takes the
      record of the root. */
  lemma RecordsGrow(d: Disk, d': Disk, t: nat, inodes: map<nat, Inode>, inodes': map<nat, Inode>, a: nat, j: nat)
    requires Recorded(d, t, inodes) && Numbered(inodes') && a in inodes && j !in inodes && j < MAX_FILES_PER_PART
    requires FileSystems.NumbersUsed(inodes, j) && inodes'.Keys == inodes.Keys + {j} && forall k <- inodes :: k != a ==>
               inodes'[k] == inodes[k]
    requires SyncedTwo(d, d', t, inodes'[a], inodes'[j])
    ensures if j < 256 then Recorded(d', t, inodes') && !FileSystems.NumbersUsed(inodes, 256)
            else RootLost(d', t, inodes') && FileSystems.NumbersUsed(inodes, 256) && j == 256
  {
    RecordedTwo(d, d', t, inodes, inodes', a, j);
    Next256(d, t, inodes, j);
  }

  lemma Next256(d: Disk, t: nat, inodes: map<nat, Inode>, j: nat)
    requires Recorded(d, t, inodes) && j !in inodes && FileSystems.NumbersUsed(inodes, j)
    ensures j < 256 ==> !FileSystems.NumbersUsed(inodes, 256)
    ensures j >= 256 ==> j == 256 && Low8(j) == 0 && 0 in inodes && FileSystems.NumbersUsed(inodes, 256)
  {
    assert !RecordedAt(d, t, inodes, 256);
  }

  /** Inode k and its blocks are the same in both states. */
  ghost predicate Carried(d: Disk, d': Disk, inodes: map<nat, Inode>, inodes': map<nat, Inode>, k: nat) {
    k in inodes && k in inodes' && inodes'[k] == inodes[k] && |inodes[k].sectors| == 13 && Untouched(d, d', inodes[k])
  }

  lemma CarryTrans(d: Disk, d1: Disk, d2: Disk, inodes: map<nat, Inode>, inodes1: map<nat, Inode>,
                   inodes2: map<nat, Inode>, k: nat)
    requires Carried(d, d1, inodes, inodes1, k) && Carried(d1, d2, inodes1, inodes2, k)
    ensures Carried(d, d2, inodes, inodes2, k)
  {
  }

  lemma CarryDir(d: Disk, d': Disk, inodes: map<nat, Inode>, inodes': map<nat, Inode>, k: nat, row: seq<Entry>)
    requires ShowsAt(d, inodes, k, row) && Carried(d, d', inodes, inodes', k)
    ensures ShowsAt(d', inodes', k, row)
  {
    DirDeletes.ParentKept(d, d', inodes[k]);
  }

  lemma CarryFile(d: Disk, d': Disk, inodes: map<nat, Inode>, inodes': map<nat, Inode>, k: nat)
    requires FileAt(d, inodes, k) && Carried(d, d', inodes, inodes', k)
    ensures FileAt(d', inodes', k)
  {
    FileSystems.FileKept(d, d', inodes[k]);
  }

  /** Inode k is what the tree says it is. */
  ghost predicate NodeIs(d: Disk, inodes: map<nat, Inode>, tree: Tree, k: nat) {
    if k in tree then ShowsAt(d, inodes, k, tree[k]) else FileAt(d, inodes, k)
  }

  /** Inode k was carried over, and the tree says the same of it. */
  ghost predicate Kept(d: Disk, d': Disk, inodes: map<nat, Inode>, inodes': map<nat, Inode>, tree: Tree, tree': Tree,
                       k: nat) {
    Carried(d, d', inodes, inodes', k) && (k in tree' <==> k in tree) && (k in tree ==> tree'[k] == tree[k])
  }

  lemma KeptNode(d: Disk, d': Disk, inodes: map<nat, Inode>, inodes': map<nat, Inode>, tree: Tree, tree': Tree, k: nat)
    requires Shows(d, inodes, tree) && FilesOk(d, inodes, tree) && Kept(d, d', inodes, inodes', tree, tree', k)
    ensures NodeIs(d', inodes', tree', k)
  {
    if k in tree {
      assert ShowsAt(d, inodes, k, tree[k]);
      CarryDir(d, d', inodes, inodes', k, tree[k]);
    } else {
      assert FileAt(d, inodes, k);
      CarryFile(d, d', inodes, inodes', k);
    }
  }

  /** A new world: the inodes in `changed` are as they should be, and the others were carried over. */
  lemma Rebuild(d: Disk, d': Disk, inodes: map<nat, Inode>, inodes': map<nat, Inode>, tree: Tree, tree': Tree,
                depth: map<nat, nat>, depth': map<nat, nat>, changed: set<nat>)
    requires World(d, inodes, tree, depth) && TreeOk(tree', depth', inodes'.Keys)
    requires forall k {:trigger Kept(d, d', inodes, inodes', tree, tree', k)} :: k in inodes' && k !in changed ==>
               Kept(d, d', inodes, inodes', tree, tree', k)
    requires forall k {:trigger NodeIs(d', inodes', tree', k)} :: k in changed && k in inodes' ==>
               NodeIs(d', inodes', tree', k)
    ensures World(d', inodes', tree', depth')
  {
    forall k {:trigger NodeIs(d', inodes', tree', k)} | k in inodes' ensures NodeIs(d', inodes', tree', k) {
      if k !in changed {
        assert Kept(d, d', inodes, inodes', tree, tree', k);
        KeptNode(d, d', inodes, inodes', tree, tree', k);
      }
    }
    forall k {:trigger ShowsAt(d', inodes', k, tree'[k])} | k in tree' ensures ShowsAt(d', inodes', k, tree'[k]) {
      assert NodeIs(d', inodes', tree', k);
    }
    forall k {:trigger FileAt(d', inodes', k)} | k in inodes' && k !in tree' ensures FileAt(d', inodes', k) {
      assert NodeIs(d', inodes', tree', k);
    }
  }

  lemma CarriedByOthers(d: Disk, d': Disk, inodes: map<nat, Inode>, inodes': map<nat, Inode>, i: nat, k: nat)
    requires Files.OthersSame(d, d', inodes, inodes', i) && k in inodes && k != i
    ensures Carried(d, d', inodes, inodes', k)
  {
  }

  // ---------------------------------------------------------------- what the files hold

  ghost function BytesIn(d: Disk, n: Inode): seq<Byte> {
    if |n.sectors| == 13 && n.size <= Files.MAX_SIZE then Files.Contents(d, n) else []
  }

  /** The contents of the inodes that are no directories. */
  ghost function FilesOf(d: Disk, inodes: map<nat, Inode>, dirs: set<nat>): map<nat, seq<Byte>> {
    map i | i in inodes && i !in dirs :: BytesIn(d, inodes[i])
  }

  /** File no has grown by buf, and the others hold what they held. */
  ghost predicate Grew(files: map<nat, seq<Byte>>, files': map<nat, seq<Byte>>, no: nat, buf: seq<Byte>) {
    no in files && files' == files[no := files[no] + buf]
  }

  /** The same files are there, and each was carried over. */
  lemma FilesCarry(d: Disk, d': Disk, inodes: map<nat, Inode>, inodes': map<nat, Inode>, dirs: set<nat>,
                   dirs': set<nat>)
    requires forall k :: k in inodes && k !in dirs <==> k in inodes' && k !in dirs'
    requires forall k {:trigger Carried(d, d', inodes, inodes', k)} :: k in inodes && k !in dirs ==>
               Carried(d, d', inodes, inodes', k)
    requires forall k {:trigger FileAt(d, inodes, k)} :: k in inodes && k !in dirs ==> FileAt(d, inodes, k)
    ensures FilesOf(d', inodes', dirs') == FilesOf(d, inodes, dirs)
  {
    forall k | k in inodes && k !in dirs ensures BytesIn(d', inodes'[k]) == BytesIn(d, inodes[k]) {
      assert Carried(d, d', inodes, inodes', k) && FileAt(d, inodes, k);
      FileSystems.FileKept(d, d', inodes[k]);
    }
  }

  /** The files without one that is left out. */
  lemma FilesBut(d: Disk, inodes: map<nat, Inode>, dirs: set<nat>, i: nat)
    ensures FilesOf(d, inodes, dirs + {i}) == FilesOf(d, inodes, dirs) - {i}
  {
  }

  /** One file is put back. */
  lemma FilesWith(files: map<nat, seq<Byte>>, files': map<nat, seq<Byte>>, i: nat, bytes: seq<Byte>)
    requires i in files' && files'[i] == bytes && files' - {i} == files - {i}
    ensures files' == files[i := bytes]
  {
    forall k ensures k in files' <==> k in files[i := bytes] {
      assert k != i ==> (k in files' <==> k in files' - {i}) && (k in files <==> k in files - {i});
    }
    forall k | k in files' ensures files'[k] == files[i := bytes][k] {
      assert k != i ==> files'[k] == (files' - {i})[k] && (files - {i})[k] == files[k];
    }
  }

  // ---------------------------------------------------------------- a file grows

  lemma WrittenWorld(d: Disk, d': Disk, inodes: map<nat, Inode>, inodes': map<nat, Inode>, tree: Tree,
                     depth: map<nat, nat>, i: nat, buf: seq<Byte>)
    requires World(d, inodes, tree, depth) && Files.Appended(d, d', inodes, inodes', i, buf) && i !in tree
    ensures World(d', inodes', tree, depth)
  {
    forall k {:trigger Kept(d, d', inodes, inodes', tree, tree, k)} | k in inodes' && k !in {i}
      ensures Kept(d, d', inodes, inodes', tree, tree, k)
    {
      CarriedByOthers(d, d', inodes, inodes', i, k);
    }
    assert NodeIs(d', inodes', tree, i);
    Rebuild(d, d', inodes, inodes', tree, tree, depth, depth, {i});
  }

  lemma WrittenFiles(d: Disk, d': Disk, inodes: map<nat, Inode>, inodes': map<nat, Inode>, tree: Tree,
                     depth: map<nat, nat>, i: nat, buf: seq<Byte>)
    requires World(d, inodes, tree, depth) && Files.Appended(d, d', inodes, inodes', i, buf) && i !in tree
    ensures Grew(FilesOf(d, inodes, tree.Keys), FilesOf(d', inodes', tree.Keys), i, buf)
  {
    var dirs := tree.Keys;
    forall k {:trigger Carried(d, d', inodes, inodes', k)} | k in inodes && k !in dirs + {i}
      ensures Carried(d, d', inodes, inodes', k) {
      CarriedByOthers(d, d', inodes, inodes', i, k);
    }
    FilesCarry(d, d', inodes, inodes', dirs + {i}, dirs + {i});
    FilesBut(d, inodes, dirs, i);
    FilesBut(d', inodes', dirs, i);
    assert FileAt(d, inodes, i);
    FilesWith(FilesOf(d, inodes, dirs), FilesOf(d', inodes', dirs), i, BytesIn(d, inodes[i]) + buf);
  }

  /** file_write to a file of the tree. */
  method Write(p: Partition, ghost tree: Tree, ghost depth: map<nat, nat>, i: nat, buf: seq<Byte>)
    returns (r: Files.Write, fd_pos: nat)
    requires Intact(p, tree, depth) && i in p.inodes && i !in tree && |buf| < WORDS
    modifies p
    ensures r.Written? || r.Failed? ==> Intact(p, tree, depth)
    ensures r.Written? ==> Files.Appended(old(p.disk), p.disk, old(p.inodes), p.inodes, i, buf)
    ensures r.Written? ==> fd_pos == Files.U32(p.inodes[i].size - 1)
    ensures r.Written? ==> Grew(FilesOf(old(p.disk), old(p.inodes), tree.Keys), FilesOf(p.disk, p.inodes, tree.Keys), i,
                                buf)
    ensures r.Failed? ==> p.disk == old(p.disk) && p.inodes == old(p.inodes)
    ensures |old(p.inodes)[i].sectors| == 13
    ensures r.Failed? <==> Files.MAX_SIZE < old(p.inodes)[i].size + |buf| < WORDS
    ensures r.Written? ==> old(p.inodes)[i].size + |buf| < Files.MAX_SIZE
    ensures r.Panic? || r.Damaged? <==> Files.Stops(old(p.inodes)[i], |buf|, FreeBits(old(p.bits)))
  {
    assert FileAt(p.disk, p.inodes, i);
    r, fd_pos := Files.FileWrite(p, i, buf);
    Files.EndStops(r, old(p.inodes)[i], |buf|, FreeBits(old(p.bits)));
    if r.Written? {
      WrittenWorld(old(p.disk), p.disk, old(p.inodes), p.inodes, tree, depth, i, buf);
      WrittenFiles(old(p.disk), p.disk, old(p.inodes), p.inodes, tree, depth, i, buf);
      RecordedSynced(old(p.disk), p.disk, p.tableLba, old(p.inodes), p.inodes, i);
    }
  }

  // ---------------------------------------------------------------- a file is created

  lemma CreatedDir(d: Disk, d': Disk, inodes: map<nat, Inode>, inodes': map<nat, Inode>, a: nat, x: nat, e: Entry,
                   row: seq<Entry>)
    requires ShowsAt(d, inodes, a, row) && a in inodes' && FileSystems.NameAdded(d, d', inodes[a], inodes'[a], x, e)
    ensures x < |row| == CAPACITY && row[x].Free? && RowOk(row[x := e]) && ShowsAt(d', inodes', a, row[x := e])
  {
  }

  lemma CreatedTree(inodes: map<nat, Inode>, inodes': map<nat, Inode>, tree: Tree, depth: map<nat, nat>, a: nat,
                    x: nat, e: Entry)
    requires TreeOk(tree, depth, inodes.Keys) && a in tree && x < CAPACITY && tree[a][x].Free? && RowOk(tree[a][x := e])
    requires e.Entry? && e.ftype == FT_REGULAR && Proper(e.name) && |e.name| < MAX_NAME && e.ino < MAX_FILES_PER_PART
    requires e.ino !in inodes && inodes'.Keys == inodes.Keys + {e.ino}
    ensures TreeOk(SetIn(tree, a, x, e), depth, inodes'.Keys) && e.ino !in tree
  {
    FreeIsLate(tree, a, x);
    FileEntered(tree, depth, inodes.Keys, a, x, e);
  }

  lemma CreatedNodes(d: Disk, inodes: map<nat, Inode>, tree: Tree, a: nat, j: nat, x: nat, e: Entry)
    requires a in tree && j !in tree && x < |tree[a]| && ShowsAt(d, inodes, a, tree[a][x := e])
    requires j in inodes && FileSystems.EmptyFile(d, inodes[j], j)
    ensures forall k {:trigger NodeIs(d, inodes, SetIn(tree, a, x, e), k)} :: k in {a, j} && k in inodes ==>
              NodeIs(d, inodes, SetIn(tree, a, x, e), k)
  {
    assert FileAt(d, inodes, j);
  }

  lemma CreatedKept(d: Disk, d': Disk, inodes: map<nat, Inode>, inodes': map<nat, Inode>, tree: Tree, a: nat, j: nat,
                    x: nat, e: Entry, k: nat)
    requires FileSystems.OneNew(d, d', inodes, inodes', a, j) && a in tree && x < |tree[a]| && k in inodes' && k != a
             && k != j
    ensures Kept(d, d', inodes, inodes', tree, SetIn(tree, a, x, e), k)
  {
  }

  lemma CreatedAllKept(d: Disk, d': Disk, inodes: map<nat, Inode>, inodes': map<nat, Inode>, tree: Tree, tree': Tree,
                       a: nat, j: nat, x: nat, e: Entry)
    requires FileSystems.OneNew(d, d', inodes, inodes', a, j) && a in tree && x < |tree[a]|
             && tree' == SetIn(tree, a, x, e)
    ensures forall k {:trigger Kept(d, d', inodes, inodes', tree, tree', k)} :: k in inodes' && k !in {a, j} ==>
              Kept(d, d', inodes, inodes', tree, tree', k)
  {
    forall k {:trigger Kept(d, d', inodes, inodes', tree, tree', k)} | k in inodes' && k !in {a, j}
      ensures Kept(d, d', inodes, inodes', tree, tree', k)
    {
      CreatedKept(d, d', inodes, inodes', tree, a, j, x, e, k);
    }
  }

  lemma CreatedRebuild(d: Disk, d': Disk, inodes: map<nat, Inode>, inodes': map<nat, Inode>, tree: Tree, tree': Tree,
                       depth: map<nat, nat>, a: nat, j: nat, x: nat, e: Entry)
    requires World(d, inodes, tree, depth) && TreeOk(tree', depth, inodes'.Keys) && a in tree && j !in tree
             && j in inodes'
    requires x < |tree[a]| && tree' == SetIn(tree, a, x, e) && ShowsAt(d', inodes', a, tree[a][x := e])
             && FileSystems.EmptyFile(d', inodes'[j], j)
    requires forall k {:trigger Kept(d, d', inodes, inodes', tree, tree', k)} :: k in inodes' && k !in {a, j} ==>
               Kept(d, d', inodes, inodes', tree, tree', k)
    ensures World(d', inodes', tree', depth)
  {
    CreatedNodes(d', inodes', tree, a, j, x, e);
    Rebuild(d, d', inodes, inodes', tree, tree', depth, depth, {a, j});
  }

  lemma CreatedWorld(d: Disk, d': Disk, inodes: map<nat, Inode>, inodes': map<nat, Inode>, tree: Tree,
                     depth: map<nat, nat>, a: nat, j: nat, x: nat, name: Name)
    requires World(d, inodes, tree, depth) && FileSystems.Made(d, d', inodes, inodes', a, j, x, name) && a in tree
    requires Proper(name) && |name| < MAX_NAME && j < MAX_FILES_PER_PART
    ensures x < |tree[a]| && World(d', inodes', SetIn(tree, a, x, Entry(name, j, FT_REGULAR)), depth)
    ensures Entered(tree, SetIn(tree, a, x, Entry(name, j, FT_REGULAR)), a, Entry(name, j, FT_REGULAR))
  {
    var e := Entry(name, j, FT_REGULAR);
    assert ShowsAt(d, inodes, a, tree[a]) && RowOk(tree[a]);
    CreatedDir(d, d', inodes, inodes', a, x, e, tree[a]);
    FileIsEntered(tree, a, x, e);
    CreatedTree(inodes, inodes', tree, depth, a, x, e);
    var tree' := SetIn(tree, a, x, e);
    CreatedAllKept(d, d', inodes, inodes', tree, tree', a, j, x, e);
    CreatedRebuild(d, d', inodes, inodes', tree, tree', depth, a, j, x, e);
  }

  /** The first two slots are in use. */
  lemma FreeIsLate(tree: Tree, a: nat, x: nat)
    requires Closed(tree) && a in tree && x < CAPACITY && tree[a][x].Free?
    ensures x >= 2
  {
  }

  lemma CanCreate(d: Disk, inodes: map<nat, Inode>, tree: Tree, depth: map<nat, nat>, a: nat)
    requires World(d, inodes, tree, depth) && a in tree
    ensures ShowsAt(d, inodes, a, tree[a]) && FileSystems.NoDangling(tree[a], inodes)
  {
    assert ShowsAt(d, inodes, a, tree[a]);
    forall x | 2 <= x < |tree[a]| && tree[a][x].Entry? ensures tree[a][x].ino in inodes {
      assert Link(tree, a, x);
    }
  }

  /** All 252 slots of directory a are in use. */
  ghost predicate DirFull(tree: Tree, a: nat) {
    a in tree && |Listed(tree[a])| == CAPACITY
  }

  lemma FullBySize(d: Disk, inodes: map<nat, Inode>, tree: Tree, a: nat)
    requires a in tree && ShowsAt(d, inodes, a, tree[a])
    ensures DirFull(tree, a) <==> inodes[a].size == SLOT * CAPACITY
  {
  }

  /** An entry for directory a cannot be made: all its slots are in use, or `more` blocks and those that the entry
      takes are not free. */
  ghost predicate NoSpace(tree: Tree, inodes: map<nat, Inode>, a: nat, bits: seq<bool>, more: nat) {
    && a in tree && |tree[a]| == CAPACITY && a in inodes && |inodes[a].sectors| == 13
    && (DirFull(tree, a) || FreeBits(bits) < more + DirInserts.EntryBlocks(tree[a], inodes[a].sectors))
  }

  lemma MadeRecords(d: Disk, d': Disk, t: nat, inodes: map<nat, Inode>, inodes': map<nat, Inode>, a: nat, j: nat,
                    x: nat, name: Name)
    requires FileSystems.Made(d, d', inodes, inodes', a, j, x, name) && Recorded(d, t, inodes) && Numbered(inodes')
             && j < MAX_FILES_PER_PART
    requires FileSystems.NumbersUsed(inodes, j) && SyncedTwo(d, d', t, inodes'[a], inodes'[j])
    ensures if j < 256 then Recorded(d', t, inodes') && !FileSystems.NumbersUsed(inodes, 256)
            else RootLost(d', t, inodes') && FileSystems.NumbersUsed(inodes, 256) && j == 256
  {
    RecordsGrow(d, d', t, inodes, inodes', a, j);
  }

  lemma NotAllUsed(d: Disk, t: nat, inodes: map<nat, Inode>)
    requires Recorded(d, t, inodes)
    ensures !FileSystems.NumbersUsed(inodes, MAX_FILES_PER_PART)
  {
    assert !RecordedAt(d, t, inodes, 256);
  }

  lemma CreatedFiles(d: Disk, d': Disk, inodes: map<nat, Inode>, inodes': map<nat, Inode>, tree: Tree,
                     depth: map<nat, nat>, a: nat, j: nat)
    requires World(d, inodes, tree, depth) && FileSystems.OneNew(d, d', inodes, inodes', a, j) && a in tree
    requires FileSystems.EmptyFile(d', inodes'[j], j)
    ensures FilesOf(d', inodes', tree.Keys) == FilesOf(d, inodes, tree.Keys)[j := []]
  {
    var dirs := tree.Keys;
    assert j !in dirs;
    forall k {:trigger Carried(d, d', inodes, inodes', k)} | k in inodes && k !in dirs
      ensures Carried(d, d', inodes, inodes', k) {
      assert k != a;
    }
    FilesCarry(d, d', inodes, inodes', dirs, dirs + {j});
    FilesBut(d', inodes', dirs, j);
    FilesWith(FilesOf(d, inodes, dirs), FilesOf(d', inodes', dirs), j, []);
  }

  /** file_create in a directory of the tree. */
  method Create(p: Partition, ghost tree: Tree, ghost depth: map<nat, nat>, a: nat, name: Name)
    returns (s: Status, no: nat, ghost tree': Tree)
    requires Intact(p, tree, depth) && a in tree
    requires Proper(name) && IsName(name) && |name| < MAX_NAME && name !in NameMap(tree[a])
    modifies p
    ensures s.Done? ==> Intact(p, tree', depth) && Entered(tree, tree', a, Entry(name, no, FT_REGULAR))
    ensures s.Done? ==> no !in old(p.inodes) && p.inodes.Keys == old(p.inodes.Keys) + {no}
                        && FileSystems.EmptyFile(p.disk, p.inodes[no], no)
    ensures s.Done? ==> FileSystems.NumbersUsed(old(p.inodes), no) && !FileSystems.NumbersUsed(old(p.inodes), 256)
    ensures s.Lost? ==> FileSystems.NumbersUsed(old(p.inodes), 256) && no == 256
                        && RootLost(p.disk, p.tableLba, p.inodes)
    ensures s.Stopped? <==> NoSpace(tree, old(p.inodes), a, old(p.bits), 0)
    ensures s.Done? ==> FilesOf(p.disk, p.inodes, tree.Keys) == FilesOf(old(p.disk), old(p.inodes), tree.Keys)[no := []]
    ensures !s.Refused? && (s.Lost? ==> s.loss.RootRecord?)
  {
    CanCreate(p.disk, p.inodes, tree, depth, a);
    NotAllUsed(p.disk, p.tableLba, p.inodes);
    tree', no := tree, 0;
    var r;
    ghost var x;
    r, x := FileSystems.FileCreate(p, a, name);
    FullBySize(old(p.disk), old(p.inodes), tree, a);
    if !r.Created? {
      return Stopped, no, tree';
    }
    CreatedWorld(old(p.disk), p.disk, old(p.inodes), p.inodes, tree, depth, a, r.no, x, name);
    CreatedFiles(old(p.disk), p.disk, old(p.inodes), p.inodes, tree, depth, a, r.no);
    MadeRecords(old(p.disk), p.disk, p.tableLba, old(p.inodes), p.inodes, a, r.no, x, name);
    tree', no := SetIn(tree, a, x, Entry(name, r.no, FT_REGULAR)), r.no;
    s := if no < 256 then Done else Lost(RootRecord);
  }

  // ---------------------------------------------------------------- an entry and its inode are removed

  lemma RemovedDir(d: Disk, d': Disk, inodes: map<nat, Inode>, inodes': map<nat, Inode>, a: nat, j: nat, x: nat,
                   row: seq<Entry>)
    requires ShowsAt(d, inodes, a, row) && a in inodes' && DirDeletes.EntryGone(d, d', inodes[a], inodes'[a], j, x)
    ensures x < |row| && row[x].Entry? && row[x].ino == j && RowOk(row[x := Free])
            && ShowsAt(d', inodes', a, row[x := Free])
  {
  }

  lemma RemovedRebuild(d: Disk, d': Disk, inodes: map<nat, Inode>, inodes': map<nat, Inode>, tree: Tree, tree': Tree,
                       depth: map<nat, nat>, depth': map<nat, nat>, a: nat, x: nat, j: nat)
    requires World(d, inodes, tree, depth) && TreeOk(tree', depth', inodes'.Keys)
             && DirDeletes.OthersLeft(d, d', inodes, inodes', a)
    requires a in tree && x < |tree[a]| && a in inodes' && ShowsAt(d', inodes', a, tree[a][x := Free])
             && inodes'.Keys == inodes.Keys - {j}
    requires a != j && (tree' == SetIn(tree, a, x, Free) || tree' == SetIn(tree, a, x, Free) - {j})
    ensures World(d', inodes', tree', depth')
  {
    forall k {:trigger Kept(d, d', inodes, inodes', tree, tree', k)} | k in inodes' && k !in {a}
      ensures Kept(d, d', inodes, inodes', tree, tree', k)
    {
      RemovedKept(d, d', inodes, inodes', tree, tree', a, x, j, k);
    }
    assert NodeIs(d', inodes', tree', a);
    Rebuild(d, d', inodes, inodes', tree, tree', depth, depth', {a});
  }

  lemma RemovedKept(d: Disk, d': Disk, inodes: map<nat, Inode>, inodes': map<nat, Inode>, tree: Tree, tree': Tree,
                    a: nat, x: nat, j: nat, k: nat)
    requires DirDeletes.OthersLeft(d, d', inodes, inodes', a) && inodes'.Keys == inodes.Keys - {j} && a in tree
             && x < |tree[a]|
    requires (tree' == SetIn(tree, a, x, Free) || tree' == SetIn(tree, a, x, Free) - {j}) && k in inodes' && k != a
    ensures Kept(d, d', inodes, inodes', tree, tree', k)
  {
  }

  /** The slot that was cleared is the slot of the link. */
  lemma SameSlot(tree: Tree, used: set<nat>, a: nat, x: nat, y: nat)
    requires LinksOk(tree, used) && Link(tree, a, x) && Link(tree, a, y) && tree[a][x].ino == tree[a][y].ino
    ensures x == y
  {
    assert !Twice(tree, a, x, a, y);
  }

  lemma LinkIsThere(tree: Tree, a: nat, y: nat)
    requires Link(tree, a, y) && |tree[a]| == CAPACITY
    ensures !DirDeletes.InoNotBefore(tree[a], CAPACITY, tree[a][y].ino)
  {
  }

  lemma UnlinkedWorld(d: Disk, d': Disk, inodes: map<nat, Inode>, inodes': map<nat, Inode>, tree: Tree,
                      depth: map<nat, nat>, a: nat, x: nat, y: nat)
    requires World(d, inodes, tree, depth) && Link(tree, a, y) && tree[a][y].ftype == FT_REGULAR
    requires DirDeletes.Forgotten(d, d', inodes, inodes', a, tree[a][y].ino, x)
             && inodes'.Keys == inodes.Keys - {tree[a][y].ino}
    ensures x == y && World(d', inodes', SetIn(tree, a, y, Free), depth)
  {
    var j := tree[a][y].ino;
    assert ShowsAt(d, inodes, a, tree[a]) && LinkOk(tree, inodes.Keys, a, y);
    RemovedDir(d, d', inodes, inodes', a, j, x, tree[a]);
    SameSlot(tree, inodes.Keys, a, x, y);
    FileRemoved(tree, depth, inodes.Keys, a, y);
    RemovedRebuild(d, d', inodes, inodes', tree, SetIn(tree, a, y, Free), depth, depth, a, y, j);
  }

  lemma CanRemove(d: Disk, inodes: map<nat, Inode>, tree: Tree, depth: map<nat, nat>, a: nat, y: nat)
    requires World(d, inodes, tree, depth) && Link(tree, a, y)
    ensures ShowsAt(d, inodes, a, tree[a]) && DirDeletes.Lists(d, inodes, a, tree[a][y].ino)
    ensures tree[a][y].ino in inodes && 0 < tree[a][y].ino < MAX_FILES_PER_PART
  {
    assert ShowsAt(d, inodes, a, tree[a]) && LinkOk(tree, inodes.Keys, a, y);
    LinkIsThere(tree, a, y);
  }

  /** Directory a has changed, and inode j is gone. */
  lemma RemovedFiles(d: Disk, d': Disk, inodes: map<nat, Inode>, inodes': map<nat, Inode>, tree: Tree,
                     depth: map<nat, nat>, a: nat, j: nat)
    requires World(d, inodes, tree, depth) && a in tree && inodes'.Keys == inodes.Keys - {j}
    requires DirDeletes.OthersLeft(d, d', inodes, inodes', a)
    ensures FilesOf(d', inodes', tree.Keys) == FilesOf(d, inodes, tree.Keys) - {j}
  {
    forall k {:trigger Carried(d, d', inodes, inodes', k)} | k in inodes && k !in tree.Keys + {j}
      ensures Carried(d, d', inodes, inodes', k) {
      assert k in inodes' && k != a;
    }
    FilesCarry(d, d', inodes, inodes', tree.Keys + {j}, tree.Keys);
    FilesBut(d, inodes, tree.Keys, j);
  }

  /** The end of sys_unlink: the entry in slot y of directory a is a regular file. */
  method Unlink(p: Partition, ghost tree: Tree, ghost depth: map<nat, nat>, a: nat, ghost y: nat, ino: nat)
    requires Intact(p, tree, depth) && Link(tree, a, y) && tree[a][y].ino == ino && tree[a][y].ftype == FT_REGULAR
    modifies p
    ensures Intact(p, SetIn(tree, a, y, Free), depth) && p.inodes.Keys == old(p.inodes.Keys) - {ino}
    ensures FilesOf(p.disk, p.inodes, tree.Keys) == FilesOf(old(p.disk), old(p.inodes), tree.Keys) - {ino}
  {
    CanRemove(p.disk, p.inodes, tree, depth, a, y);
    assert LinkOk(tree, p.inodes.Keys, a, y);
    var _, x := DirDeletes.Remove(p, a, ino);
    UnlinkedWorld(old(p.disk), p.disk, old(p.inodes), p.inodes, tree, depth, a, x, y);
    RecordsShrink(old(p.disk), p.disk, p.tableLba, old(p.inodes), p.inodes, a, ino, x);
    RemovedFiles(old(p.disk), p.disk, old(p.inodes), p.inodes, tree, depth, a, ino);
  }

  lemma RecordsShrink(d: Disk, d': Disk, t: nat, inodes: map<nat, Inode>, inodes': map<nat, Inode>, a: nat, j: nat,
                      x: nat)
    requires Recorded(d, t, inodes) && Numbered(inodes') && a != j && inodes'.Keys == inodes.Keys - {j}
    requires DirDeletes.Forgotten(d, d', inodes, inodes', a, j, x) && SyncedGone(d, d', t, inodes'[a], j)
    ensures Recorded(d', t, inodes')
  {
    RecordedGone(d, d', t, inodes, inodes', a, j);
  }

  lemma RemovedDirWorld(d: Disk, d': Disk, inodes: map<nat, Inode>, inodes': map<nat, Inode>, tree: Tree,
                        depth: map<nat, nat>, a: nat, x: nat, y: nat)
    requires World(d, inodes, tree, depth) && Link(tree, a, y) && tree[a][y].ino in tree
             && EmptyRow(tree[tree[a][y].ino])
    requires DirDeletes.Forgotten(d, d', inodes, inodes', a, tree[a][y].ino, x)
             && inodes'.Keys == inodes.Keys - {tree[a][y].ino}
    ensures x == y && World(d', inodes', WithoutDir(tree, a, y), depth - {tree[a][y].ino})
  {
    var j := tree[a][y].ino;
    assert ShowsAt(d, inodes, a, tree[a]);
    RemovedDir(d, d', inodes, inodes', a, j, x, tree[a]);
    SameSlot(tree, inodes.Keys, a, x, y);
    DirRemoved(tree, depth, inodes.Keys, a, y);
    RemovedRebuild(d, d', inodes, inodes', tree, WithoutDir(tree, a, y), depth, depth - {j}, a, y, j);
  }

  lemma EmptyShown(d: Disk, inodes: map<nat, Inode>, c: nat, row: seq<Entry>)
    requires ShowsAt(d, inodes, c, row)
    ensures DirIsEmpty(inodes[c]) <==> EmptyRow(row)
  {
    EmptyExact(d, inodes[c]);
  }

  // ---------------------------------------------------------------- an inode is released, and its entry is left

  /** The directories on the disk are a tree, whatever tree that is. */
  ghost predicate SomeWorld(d: Disk, inodes: map<nat, Inode>) {
    exists tree, depth :: World(d, inodes, tree, depth)
  }

  /** The inode of the empty directory c was released, and nothing else was changed. */
  ghost predicate Orphaned(d: Disk, d': Disk, inodes: map<nat, Inode>, inodes': map<nat, Inode>, tree: Tree,
                           depth: map<nat, nat>, c: nat) {
    && World(d, inodes, tree, depth) && c in tree && c != 0 && EmptyRow(tree[c])
    && inodes' == inodes - {c} && DirDeletes.NoneTouched(d, d', inodes')
  }

  lemma SameRow(d: Disk, d': Disk, inodes: map<nat, Inode>, inodes': map<nat, Inode>, tree: Tree, tree': Tree, i: nat)
    requires Shows(d, inodes, tree) && Shows(d', inodes', tree') && i in tree && i in tree'
             && Carried(d, d', inodes, inodes', i)
    ensures tree'[i] == tree[i]
  {
    assert ShowsAt(d, inodes, i, tree[i]) && ShowsAt(d', inodes', i, tree'[i]);
    CarryDir(d, d', inodes, inodes', i, tree[i]);
  }

  /** In any tree that the disk shows then, every directory but c is still there: the root is, and an entry leads to
      each of the others from its parent, which is not c. */
  lemma {:induction false} StillInTree(d: Disk, d': Disk, inodes: map<nat, Inode>, inodes': map<nat, Inode>,
                                       tree: Tree, depth: map<nat, nat>, tree': Tree, depth': map<nat, nat>, c: nat,
                                         i: nat)
    requires Orphaned(d, d', inodes, inodes', tree, depth, c) && World(d', inodes', tree', depth') && i in tree
             && i != c
    ensures i in tree' && tree'[i] == tree[i]
    decreases depth[i]
  {
    assert LinkedAt(tree, depth, i) && ShowsAt(d, inodes, i, tree[i]);
    if i != 0 {
      var q := ParentOf(tree[i]);
      NoChildren(tree, depth, c, i);
      StillInTree(d, d', inodes, inodes', tree, depth, tree', depth', c, q);
      var x: nat :| ChildAt(tree, i, q, x);
      assert EntryOk(tree', tree'[q][x]);
    }
    SameRow(d, d', inodes, inodes', tree, tree', i);
  }

  lemma EntryInUse(d: Disk, inodes: map<nat, Inode>, tree: Tree, depth: map<nat, nat>, a: nat, x: nat)
    requires World(d, inodes, tree, depth) && a in tree && x < |tree[a]| && tree[a][x].Entry?
             && tree[a][x].ftype == FT_DIRECTORY
    ensures tree[a][x].ino in inodes
  {
    assert EntryOk(tree, tree[a][x]);
    assert ShowsAt(d, inodes, tree[a][x].ino, tree[tree[a][x].ino]);
  }

  /** So the entry for c is still there, too, and leads to no inode: the disk shows no tree any more. */
  lemma NoWorldLeft(d: Disk, d': Disk, inodes: map<nat, Inode>, inodes': map<nat, Inode>, tree: Tree,
                    depth: map<nat, nat>, c: nat)
    requires Orphaned(d, d', inodes, inodes', tree, depth, c)
    ensures !SomeWorld(d', inodes')
  {
    if tree', depth' :| World(d', inodes', tree', depth') {
      assert LinkedAt(tree, depth, c);
      var a := ParentOf(tree[c]);
      StillInTree(d, d', inodes, inodes', tree, depth, tree', depth', c, a);
      var x: nat :| ChildAt(tree, c, a, x);
      EntryInUse(d', inodes', tree', depth', a, x);
    }
  }

  /** Slot y of directory a is the entry for c, or there is none. */
  ghost predicate SlotIs(tree: Tree, a: nat, c: nat, y: Option<nat>) {
    a in tree &&
    if y.Some? then Link(tree, a, y.value) && tree[a][y.value].ino == c
    else DirDeletes.InoNotBefore(tree[a], CAPACITY, c)
  }

  lemma ListsIs(d: Disk, inodes: map<nat, Inode>, tree: Tree, depth: map<nat, nat>, a: nat, c: nat, y: Option<nat>)
    requires World(d, inodes, tree, depth) && c in tree && c != 0 && EmptyRow(tree[c]) && SlotIs(tree, a, c, y)
    ensures ShowsAt(d, inodes, a, tree[a]) && ShowsAt(d, inodes, c, tree[c]) && 0 < c < MAX_FILES_PER_PART
    ensures (DirDeletes.Lists(d, inodes, a, c) <==> y.Some?) && (y.Some? ==> a != c)
  {
    assert ShowsAt(d, inodes, a, tree[a]) && LinkedAt(tree, depth, c) && ShowsAt(d, inodes, c, tree[c]);
    if y.Some? {
      LinkIsThere(tree, a, y.value);
    }
  }

  /** What is left of the tree. */
  lemma RmdirLeaves(d: Disk, d': Disk, t: nat, inodes: map<nat, Inode>, inodes': map<nat, Inode>, tree: Tree,
                    depth: map<nat, nat>, a: nat, c: nat, x: nat, y: Option<nat>)
    requires World(d, inodes, tree, depth) && Recorded(d, t, inodes) && c in tree && c != 0 && EmptyRow(tree[c])
             && SlotIs(tree, a, c, y) && a in inodes
    requires DirDeletes.Removed(d, d', t, inodes, inodes', a, c, x, y.Some?) && inodes'.Keys == inodes.Keys - {c}
             && Numbered(inodes')
    ensures y.Some? ==> World(d', inodes', WithoutDir(tree, a, y.value), depth - {c}) && Recorded(d', t, inodes')
    ensures y.None? ==> !SomeWorld(d', inodes')
  {
    if y.Some? {
      RemovedDirWorld(d, d', inodes, inodes', tree, depth, a, x, y.value);
      RecordsShrink(d, d', t, inodes, inodes', a, c, x);
    } else {
      NoWorldLeft(d, d', inodes, inodes', tree, depth, c);
    }
  }

  lemma RmdirFiles(d: Disk, d': Disk, t: nat, inodes: map<nat, Inode>, inodes': map<nat, Inode>, tree: Tree,
                   depth: map<nat, nat>, a: nat, c: nat, x: nat, listed: bool)
    requires World(d, inodes, tree, depth) && c in tree && a in tree
    requires DirDeletes.Removed(d, d', t, inodes, inodes', a, c, x, listed) && inodes'.Keys == inodes.Keys - {c}
    ensures FilesOf(d', inodes', tree.Keys) == FilesOf(d, inodes, tree.Keys)
  {
    forall k {:trigger Carried(d, d', inodes, inodes', k)} | k in inodes && k !in tree.Keys
      ensures Carried(d, d', inodes, inodes', k) {
      assert k in inodes' && k != a;
    }
    FilesCarry(d, d', inodes, inodes', tree.Keys, tree.Keys);
  }

  /** The end of sys_rmdir: dir_remove of directory c, opened as `dir`, from directory a, if c is empty; y is its slot
      there.  If there is none, the inode is released all the same, and the directories on the disk are a tree no
      more. */
  method Rmdir(p: Partition, ghost tree: Tree, ghost depth: map<nat, nat>, a: nat, ghost y: Option<nat>, c: nat,
               dir: Inode) returns (ok: bool)
    requires Intact(p, tree, depth) && c in tree && c != 0 && SlotIs(tree, a, c, y) && c in p.inodes
             && SameFields(dir, p.inodes[c])
    modifies p
    ensures ok <==> EmptyRow(tree[c])
    ensures !ok ==> p.inodes == old(p.inodes) && p.disk == old(p.disk) && p.bits == old(p.bits)
    ensures ok ==> p.Valid() && p.inodes.Keys == old(p.inodes.Keys) - {c} && (SomeWorld(p.disk, p.inodes) <==> y.Some?)
    ensures ok && y.Some? ==> Intact(p, WithoutDir(tree, a, y.value), depth - {c})
    ensures FilesOf(p.disk, p.inodes, tree.Keys) == FilesOf(old(p.disk), old(p.inodes), tree.Keys)
  {
    assert ShowsAt(p.disk, p.inodes, c, tree[c]);
    EmptyShown(p.disk, p.inodes, c, tree[c]);
    ok := DirIsEmpty(dir);
    if ok {
      ListsIs(p.disk, p.inodes, tree, depth, a, c, y);
      var fine, x := DirDeletes.DirRemove(p, a, c);
      RmdirLeaves(old(p.disk), p.disk, p.tableLba, old(p.inodes), p.inodes, tree, depth, a, c, x, y);
      RmdirFiles(old(p.disk), p.disk, p.tableLba, old(p.inodes), p.inodes, tree, depth, a, c, x, y.Some?);
    }
  }
}
