/** A mounted partition with its open inodes and fs/file.c: the table of open files. */
module Mounts {
  import opened Options
  import opened Disks
  import opened InodeTable
  import opened OpenInodes
  import opened Volumes
  import opened Walks
  import opened Trees
  import opened Worlds
  import opened Entries
  import opened DirSlots
  import opened Paths
  import NewDirs
  import Files
  import FileSystems

  const MAX_FILE_OPEN := 32

  /** struct file: the number of fd_inode, fd_flag and fd_pos. */
  datatype OpenFile = OpenFile(no: nat, flags: nat, pos: nat)

  /** file_table; None: fd_inode is NULL. */
  type FileTable = seq<Option<OpenFile>>

  function NoFiles(n: nat): FileTable {
    seq(n, _ => None)
  }

  /** How many files in the table have the number. */
  function Held(table: FileTable, no: nat): nat {
    if table == [] then 0 else Held(table[1..], no) + if Holding(table[0], no) then 1 else 0
  }

  predicate Holding(f: Option<OpenFile>, no: nat) {
    f.Some? && f.value.no == no
  }

  lemma {:induction false} HeldSet(table: FileTable, k: nat, f: Option<OpenFile>, no: nat)
    requires k < |table|
    ensures Held(table[k := f], no) + (if Holding(table[k], no) then 1 else 0) ==
            Held(table, no) + if Holding(f, no) then 1 else 0
    decreases k
  {
    var table' := table[k := f];
    if k == 0 {
      assert table'[1..] == table[1..];
    } else {
      assert table'[1..] == table[1..][k - 1 := f];
      HeldSet(table[1..], k - 1, f, no);
    }
  }

  lemma {:induction false} HeldSome(table: FileTable, no: nat)
    ensures Held(table, no) > 0 <==> exists k :: 0 <= k < |table| && Holding(table[k], no)
  {
    if table != [] {
      HeldSome(table[1..], no);
      if k :| 0 <= k < |table| && Holding(table[k], no) && k > 0 {
        assert table[1..][k - 1] == table[k];
      }
      if j :| 0 <= j < |table[1..]| && Holding(table[1..][j], no) {
        assert table[j + 1] == table[1..][j];
      }
    }
  }

  /** get_free_slot_in_global */
  method FreeSlot(table: FileTable) returns (k: nat)
    requires |table| == MAX_FILE_OPEN
    ensures 3 <= k <= MAX_FILE_OPEN && (k < MAX_FILE_OPEN ==> table[k].None?) && forall j :: 3 <= j < k ==>
              table[j].Some?
  {
    k := 3;
    while k < MAX_FILE_OPEN && table[k].Some?
      invariant 3 <= k <= MAX_FILE_OPEN && forall j :: 3 <= j < k ==> table[j].Some?
    {
      k := k + 1;
    }
  }

  /** The table has room. */
  ghost predicate Room(table: FileTable) {
    exists k :: 3 <= k < |table| && table[k].None?
  }

  /** The loop of sys_unlink over the table. */
  method InFileTable(table: FileTable, no: nat) returns (found: bool)
    ensures found <==> Held(table, no) > 0
  {
    HeldSome(table, no);
    var file_idx := 0;
    while file_idx < |table|
      invariant 0 <= file_idx <= |table| && forall k :: 0 <= k < file_idx ==> !Holding(table[k], no)
    {
      if Holding(table[file_idx], no) {
        return true;
      }
      file_idx := file_idx + 1;
    }
    found := false;
  }

  // ---------------------------------------------------------------- the invariant

  /** Within a file, or the position before the first byte, which an empty write to an empty file leaves. */
  predicate PosOk(pos: nat) {
    pos < Files.MAX_SIZE || pos == WORDS - 1
  }

  ghost predicate SlotOk(f: Option<OpenFile>, inodes: map<nat, Inode>, tree: Tree) {
    f.Some? ==> f.value.no in inodes && f.value.no !in tree && f.value.flags < 8 && PosOk(f.value.pos)
  }

  /** Every object in the list is that of an inode in use; the root is open; the files in the table are files in use,
      and no other file is open. */
  ghost predicate Opened(os: OpenList, table: FileTable, inodes: map<nat, Inode>, tree: Tree) {
    && Fresh(os, inodes) && Count(os, 0) > 0 && |table| == MAX_FILE_OPEN
    && (forall k :: 0 <= k < |table| ==> SlotOk(table[k], inodes, tree))
    && (forall i {:trigger Held(table, i)} :: i !in tree ==> Count(os, i) == Held(table, i))
  }

  class Mount {
    const part: Partition
    var openInodes: OpenList
    var table: FileTable
    /** The inodes whose write_deny is set. */
    var denied: set<nat>

    /** mount_partition and open_root_dir */
    constructor (part: Partition)
      ensures this.part == part && openInodes == [InUse(0, 1)] && table == NoFiles(MAX_FILE_OPEN) && denied == {}
    {
      this.part, openInodes, table, denied := part, [InUse(0, 1)], NoFiles(MAX_FILE_OPEN), {};
    }
  }

  /** What every call keeps. */
  ghost predicate Live(m: Mount, tree: Tree, depth: map<nat, nat>)
    reads m, m.part
  {
    Intact(m.part, tree, depth) && Opened(m.openInodes, m.table, m.part.inodes, tree)
  }

  lemma {:induction false} HeldNothing(n: nat, no: nat)
    ensures Held(NoFiles(n), no) == 0
  {
    if n > 0 {
      assert NoFiles(n)[1..] == NoFiles(n - 1);
      HeldNothing(n - 1, no);
    }
  }

  /** A mounted partition starts with its root open and no file. */
  lemma OpenedAtFirst(inodes: map<nat, Inode>, tree: Tree)
    requires 0 in inodes && 0 in tree
    ensures Opened([InUse(0, 1)], NoFiles(MAX_FILE_OPEN), inodes, tree)
  {
    var os := [InUse(0, 1)];
    assert os[1..] == [];
    forall i | i !in tree ensures Count(os, i) == Held(NoFiles(MAX_FILE_OPEN), i) {
      HeldNothing(MAX_FILE_OPEN, i);
    }
    assert forall i, j :: !TwoOf(os, i, j);
  }

  // ---------------------------------------------------------------- what keeps it

  /** The open inodes are in use, before and after. */
  lemma KeptOpen(os: OpenList, os': OpenList, table: FileTable, inodes: map<nat, Inode>, inodes': map<nat, Inode>,
                 tree: Tree, tree': Tree)
    requires Opened(os, table, inodes, tree) && Fresh(os', inodes) && SameOpen(os, os')
    requires forall i :: i in inodes && Count(os, i) > 0 ==> i in inodes'
    requires forall i :: i in tree' && i !in tree ==> i !in inodes
    requires forall i :: i in tree && i !in tree' ==> Count(os, i) == 0
    ensures Opened(os', table, inodes', tree')
  {
    FreshStill(os', inodes, inodes');
    forall k | 0 <= k < |table| ensures SlotOk(table[k], inodes', tree') {
      assert SlotOk(table[k], inodes, tree);
      if table[k].Some? {
        var no := table[k].value.no;
        HeldSome(table, no);
        assert Holding(table[k], no);
      }
    }
    forall i {:trigger Held(table, i)} | i !in tree' ensures Count(os', i) == Held(table, i) {
      NotHeld(table, inodes, tree, i);
    }
  }

  /** A directory is not in the table. */
  lemma NotHeld(table: FileTable, inodes: map<nat, Inode>, tree: Tree, i: nat)
    requires forall k :: 0 <= k < |table| ==> SlotOk(table[k], inodes, tree)
    ensures i in tree ==> Held(table, i) == 0
  {
    HeldSome(table, i);
    if k :| 0 <= k < |table| && Holding(table[k], i) {
      assert SlotOk(table[k], inodes, tree);
    }
  }

  /** A directory was left open. */
  lemma LeftOpen(os: OpenList, os': OpenList, table: FileTable, inodes: map<nat, Inode>, tree: Tree, dir: Dir)
    requires Opened(os, table, inodes, tree) && Fresh(os', inodes) && Holds(os, os', dir) && dir.Number() in tree
    ensures Opened(os', table, inodes, tree)
  {
  }

  /** A file is in the table once more, and its inode is open once more. */
  lemma FileOpened(os: OpenList, os': OpenList, table: FileTable, inodes: map<nat, Inode>, tree: Tree, k: nat,
                   f: OpenFile)
    requires Opened(os, table, inodes, tree) && Fresh(os', inodes) && OnceMore(os, os', f.no)
    requires k < |table| && table[k].None? && f.no in inodes && f.no !in tree && f.flags < 8 && PosOk(f.pos)
    ensures Opened(os', table[k := Some(f)], inodes, tree)
  {
    var table' := table[k := Some(f)];
    forall i {:trigger Held(table', i)} | i !in tree ensures Count(os', i) == Held(table', i) {
      HeldSet(table, k, Some(f), i);
    }
  }

  /** And once less. */
  lemma FileClosed(os: OpenList, os': OpenList, table: FileTable, inodes: map<nat, Inode>, tree: Tree, k: nat)
    requires Opened(os, table, inodes, tree) && k < |table| && table[k].Some? && 0 in tree
    requires Fresh(os', inodes) && OnceMore(os', os, table[k].value.no)
    ensures Opened(os', table[k := None], inodes, tree)
  {
    var table', no := table[k := None], table[k].value.no;
    assert SlotOk(table[k], inodes, tree);
    forall i {:trigger Held(table', i)} | i !in tree ensures Count(os', i) == Held(table', i) {
      HeldSet(table, k, None, i);
      assert Count(os, i) == Held(table, i);
    }
  }

  /** Neither the inodes in use nor the directories have changed. */
  lemma KeptSame(os: OpenList, os': OpenList, table: FileTable, inodes: map<nat, Inode>, inodes': map<nat, Inode>,
                 tree: Tree)
    requires Opened(os, table, inodes, tree) && Fresh(os', inodes) && SameOpen(os, os') && inodes'.Keys == inodes.Keys
    ensures Opened(os', table, inodes', tree)
  {
    KeptOpen(os, os', table, inodes, inodes', tree, tree);
  }

  /** There is one directory more. */
  lemma KeptNewDir(os: OpenList, os': OpenList, table: FileTable, inodes: map<nat, Inode>, inodes': map<nat, Inode>,
                   tree: Tree, tree': Tree, no: nat)
    requires Opened(os, table, inodes, tree) && Fresh(os', inodes) && SameOpen(os, os')
    requires no !in inodes && inodes'.Keys == inodes.Keys + {no} && tree'.Keys == tree.Keys + {no}
    ensures Opened(os', table, inodes', tree')
  {
    KeptOpen(os, os', table, inodes, inodes', tree, tree');
  }

  /** There is one inode less, and it was not open. */
  lemma KeptLess(os: OpenList, os': OpenList, table: FileTable, inodes: map<nat, Inode>, inodes': map<nat, Inode>,
                 tree: Tree, tree': Tree, no: nat)
    requires Opened(os, table, inodes, tree) && Fresh(os', inodes) && SameOpen(os, os') && Count(os, no) == 0
    requires inodes'.Keys == inodes.Keys - {no} && tree'.Keys == tree.Keys - {no}
    ensures Opened(os', table, inodes', tree')
  {
    KeptOpen(os, os', table, inodes, inodes', tree, tree');
  }

  // ---------------------------------------------------------------- the ends of the calls

  /** List and table take effect. */
  method Settle(m: Mount, os': OpenList, table': FileTable, ghost tree: Tree, ghost depth: map<nat, nat>)
    requires Intact(m.part, tree, depth) && Opened(os', table', m.part.inodes, tree)
    modifies m`openInodes, m`table
    ensures Live(m, tree, depth) && m.openInodes == os' && m.table == table'
  {
    m.openInodes, m.table := os', table';
  }

  /** The call ends with dir_close of the parent, and neither tree nor inodes have changed. */
  method Leave(m: Mount, ghost tree: Tree, ghost depth: map<nat, nat>, os: OpenList, dir: Dir)
    requires Live(m, tree, depth) && Fresh(os, m.part.inodes) && Holds(m.openInodes, os, dir)
    modifies m`openInodes, m`table
    ensures m.table == old(m.table)
    ensures Live(m, tree, depth) && SameOpen(old(m.openInodes), m.openInodes)
  {
    var os' := DirClose(os, dir, m.part.inodes, m.openInodes);
    KeptSame(m.openInodes, os', m.table, m.part.inodes, m.part.inodes, tree);
    Settle(m, os', m.table, tree, depth);
  }

  /** file_create pushes the new inode on the list, and sys_open closes the parent. */
  method PushNew(os: OpenList, dir: Dir, no: nat, ghost os0: OpenList, ghost inodes: map<nat, Inode>,
                 ghost inodes': map<nat, Inode>)
    returns (os': OpenList)
    requires Fresh(os, inodes) && Fresh(os0, inodes) && Holds(os0, os, dir) && no !in inodes
             && inodes'.Keys == inodes.Keys + {no}
    ensures Fresh(os', inodes') && OnceMore(os0, os', no)
  {
    NotThere(os, inodes, no);
    NotThere(os0, inodes, no);
    FreshStill(os, inodes, inodes');
    FreshStill(os0, inodes, inodes');
    PushedFresh(os, inodes', no);
    PushedFresh(os0, inodes', no);
    os' := DirClose([InUse(no, 1)] + os, dir, inodes', [InUse(no, 1)] + os0);
  }

  lemma NotThere(os: OpenList, inodes: map<nat, Inode>, no: nat)
    requires Fresh(os, inodes) && no !in inodes
    ensures First(os, no) == |os| && Count(os, no) == 0
  {
    forall k | 0 <= k < |os| ensures os[k].Number() != no {
      assert Current(os[k], inodes);
    }
    FirstNone(os, no);
  }

  /** The new file is open, and in the table. */
  lemma CreatedOpen(os: OpenList, os': OpenList, table: FileTable, inodes: map<nat, Inode>, inodes': map<nat, Inode>,
                    tree: Tree, tree': Tree, k: nat, f: OpenFile)
    requires Opened(os, table, inodes, tree) && Fresh(os', inodes') && OnceMore(os, os', f.no)
    requires f.no !in inodes && inodes'.Keys == inodes.Keys + {f.no} && tree'.Keys == tree.Keys && f.no !in tree
    requires k < |table| && table[k].None? && f.flags < 8 && PosOk(f.pos)
    ensures Opened(os', table[k := Some(f)], inodes', tree')
  {
    FreshStill(os, inodes, inodes');
    KeptOpen(os, os, table, inodes, inodes', tree, tree');
    FileOpened(os, os', table, inodes', tree', k, f);
  }

  /** The file is entered in slot k of the table, the first that is free. */
  ghost predicate Tabled(table: FileTable, table': FileTable, k: nat, f: OpenFile) {
    && 3 <= k < |table| && table[k].None? && table' == table[k := Some(f)]
    && forall j :: 3 <= j < k ==> table[j].Some?
  }

  /** The new file gets its object in the list and its place in the table. */
  method EnterNew(m: Mount, os: OpenList, dir: Dir, k: nat, f: OpenFile, ghost inodes: map<nat, Inode>,
                  ghost tree: Tree, ghost tree': Tree, ghost depth: map<nat, nat>)
    requires Intact(m.part, tree', depth) && Opened(m.openInodes, m.table, inodes, tree) && Fresh(os, inodes)
             && Holds(m.openInodes, os, dir)
    requires f.no !in inodes && m.part.inodes.Keys == inodes.Keys + {f.no} && tree'.Keys == tree.Keys
             && tree.Keys <= inodes.Keys
    requires 3 <= k < |m.table| && m.table[k].None? && f.flags < 8 && PosOk(f.pos)
    requires forall j :: 3 <= j < k ==> m.table[j].Some?
    modifies m
    ensures m.denied == old(m.denied) - {f.no}
    ensures Live(m, tree', depth) && OnceMore(old(m.openInodes), m.openInodes, f.no)
            && Tabled(old(m.table), m.table, k, f)
  {
    var os' := PushNew(os, dir, f.no, m.openInodes, inodes, m.part.inodes);
    CreatedOpen(m.openInodes, os', m.table, inodes, m.part.inodes, tree, tree', k, f);
    m.denied := m.denied - {f.no};
    Settle(m, os', m.table[k := Some(f)], tree', depth);
  }

  /** What the files hold. */
  ghost function FilesIn(m: Mount, dirs: set<nat>): map<nat, seq<Byte>>
    reads m.part
  {
    FilesOf(m.part.disk, m.part.inodes, dirs)
  }

  /** The file `no` is new and empty, and open in entry k of the table. */
  ghost predicate NewFile(d': Disk, inodes: map<nat, Inode>, inodes': map<nat, Inode>, os: OpenList, os': OpenList,
                          table: FileTable, table': FileTable, no: nat, k: nat, flags: nat)
  {
    && no !in inodes && inodes'.Keys == inodes.Keys + {no} && FileSystems.EmptyFile(d', inodes'[no], no)
    && FileSystems.NumbersUsed(inodes, no) && !FileSystems.NumbersUsed(inodes, 256)
    && OnceMore(os, os', no) && Tabled(table, table', k, OpenFile(no, flags, 0))
  }

  /** file_create in directory a, with the entry k of the table free, and dir_close. */
  method CreateAt(m: Mount, ghost tree: Tree, ghost depth: map<nat, nat>, a: nat, name: Name, os: OpenList, dir: Dir,
                  k: nat, flags: nat)
    returns (s: Status, no: nat, ghost tree': Tree)
    requires Live(m, tree, depth) && Fresh(os, m.part.inodes) && Holds(m.openInodes, os, dir) && a in tree
    requires Proper(name) && IsName(name) && |name| < MAX_NAME && name !in NameMap(tree[a])
    requires 3 <= k < |m.table| && m.table[k].None? && flags < 8 && forall j :: 3 <= j < k ==> m.table[j].Some?
    modifies m, m.part
    ensures s.Done? ==> m.denied == old(m.denied) - {no}
    ensures s.Done? ==> Live(m, tree', depth) && Entered(tree, tree', a, Entry(name, no, FT_REGULAR))
    ensures s.Done? ==> NewFile(m.part.disk, old(m.part.inodes), m.part.inodes, old(m.openInodes), m.openInodes,
                                old(m.table), m.table, no, k, flags)
    ensures s.Lost? ==> s.loss.RootRecord? && FileSystems.NumbersUsed(old(m.part.inodes), 256) && no == 256
    ensures s.Lost? ==> RootLost(m.part.disk, m.part.tableLba, m.part.inodes)
    ensures s.Stopped? <==> NoSpace(tree, old(m.part.inodes), a, old(m.part.bits), 0)
    ensures s.Done? ==> FilesIn(m, tree.Keys) == old(FilesIn(m, tree.Keys))[no := []]
    ensures !s.Refused?
  {
    ghost var inodes := m.part.inodes;
    s, no, tree' := Worlds.Create(m.part, tree, depth, a, name);
    if s.Done? {
      EnterNew(m, os, dir, k, OpenFile(no, flags, 0), inodes, tree, tree', depth);
    }
  }

  /** dir_close of the parent, after a directory was made. */
  method LeaveNew(m: Mount, os: OpenList, dir: Dir, ghost inodes: map<nat, Inode>, ghost tree: Tree, ghost tree': Tree,
                  ghost depth': map<nat, nat>, ghost no: nat)
    requires Intact(m.part, tree', depth') && Opened(m.openInodes, m.table, inodes, tree) && Fresh(os, inodes)
             && Holds(m.openInodes, os, dir)
    requires no !in inodes && m.part.inodes.Keys == inodes.Keys + {no} && tree'.Keys == tree.Keys + {no}
    modifies m`openInodes, m`table
    ensures m.table == old(m.table)
    ensures Live(m, tree', depth') && SameOpen(old(m.openInodes), m.openInodes)
  {
    var os' := DirClose(os, dir, inodes, m.openInodes);
    KeptNewDir(m.openInodes, os', m.table, inodes, m.part.inodes, tree, tree', no);
    Settle(m, os', m.table, tree', depth');
  }

  /** sys_mkdir once directory a was found, and dir_close. */
  method MakeDirAt(m: Mount, ghost tree: Tree, ghost depth: map<nat, nat>, a: nat, name: Name, os: OpenList, dir: Dir)
    returns (s: Status, no: nat, ghost tree': Tree, ghost depth': map<nat, nat>)
    requires Live(m, tree, depth) && Fresh(os, m.part.inodes) && Holds(m.openInodes, os, dir) && a in tree
    requires Proper(name) && IsName(name) && |name| < MAX_NAME && name !in NameMap(tree[a])
    modifies m`openInodes, m`table, m.part
    ensures m.table == old(m.table)
    ensures s.Done? ==> Live(m, tree', depth') && SameOpen(old(m.openInodes), m.openInodes)
                        && Entered(tree, tree', a, Entry(name, no, FT_DIRECTORY))
    ensures s.Done? ==> no !in old(m.part.inodes) && m.part.inodes.Keys == old(m.part.inodes.Keys) + {no}
                        && no in tree' && NewRow(tree'[no], no, a)
    ensures s.Done? ==> FileSystems.NumbersUsed(old(m.part.inodes), no)
                        && !FileSystems.NumbersUsed(old(m.part.inodes), 256)
    ensures s.Lost? ==> s.loss.RootRecord? && FileSystems.NumbersUsed(old(m.part.inodes), 256) && no == 256
    ensures s.Lost? ==> RootLost(m.part.disk, m.part.tableLba, m.part.inodes)
    ensures s.Stopped? <==> NoSpace(tree, old(m.part.inodes), a, old(m.part.bits), 1)
    ensures s.Done? ==> FilesIn(m, tree.Keys + {no}) == old(FilesIn(m, tree.Keys))
    ensures !s.Refused?
  {
    ghost var inodes := m.part.inodes;
    s, no, tree', depth' := NewDirs.Mkdir(m.part, tree, depth, a, name);
    if s.Done? {
      LeaveNew(m, os, dir, inodes, tree, tree', depth', no);
    }
  }

  /** The flags allow writing: O_WRONLY or O_RDWR. */
  predicate Writes(flags: nat) {
    flags % 4 != 0
  }

  /** These are bits 0 and 1 of the flags. */
  lemma WriteFlags(flags: nat)
    requires flags < 8
    ensures Writes(flags) <==> BitOf(flags, 0) || BitOf(flags, 1)
  {
    assert BitOf(flags, 1) <==> BitOf(flags / 2, 0);
  }

  /** file_open once slot k was found. */
  method FileOpen(m: Mount, ghost tree: Tree, ghost depth: map<nat, nat>, k: nat, f: OpenFile, room: bool)
    returns (ok: bool)
    requires Live(m, tree, depth) && 3 <= k < |m.table| && m.table[k].None? && f.no in m.part.inodes && f.no !in tree
             && f.flags < 8 && PosOk(f.pos)
    requires forall j :: 3 <= j < k ==> m.table[j].Some?
    modifies m
    ensures Live(m, tree, depth) && OnceMore(old(m.openInodes), m.openInodes, f.no)
            && Tabled(old(m.table), m.table, k, f)
    ensures ok <==> (Writes(f.flags) ==> f.no !in old(m.denied)) && room
    ensures m.denied == if Writes(f.flags) then old(m.denied) + {f.no} else old(m.denied)
  {
    var p := m.part;
    var inode, os' := InodeOpen(p.disk, p.tableLba, p.inodes, m.openInodes, f.no);
    FileOpened(m.openInodes, os', m.table, p.inodes, tree, k, f);
    m.openInodes, m.table := os', m.table[k := Some(f)];
    if Writes(f.flags) {
      if f.no in m.denied {
        assert m.denied == m.denied + {f.no};
        return false;
      }
      m.denied := m.denied + {f.no};
    }
    ok := room;
  }

  /** A file that is not in the table has no object in the list, so inode_release leaves none there. */
  method UnlinkLists(d: Disk, t: nat, inodes: map<nat, Inode>, os: OpenList, dir: Dir, no: nat, ghost os0: OpenList)
    returns (os': OpenList)
    requires Recorded(d, t, inodes) && Fresh(os, inodes) && no in inodes && Count(os, no) == 0 && Holds(os0, os, dir)
    ensures Fresh(os', inodes) && SameOpen(os0, os')
  {
    assert RecordedAt(d, t, inodes, no);
    var os1 := ReleaseOpened(d, t, inodes, os, no);
    ReleaseKeepsIff(os, inodes, no, inodes[no]);
    os' := DirClose(os1, dir, inodes, os0);
  }

  /** A file of the tree that is not in the table is not open. */
  lemma NotOpen(os: OpenList, os1: OpenList, table: FileTable, inodes: map<nat, Inode>, tree: Tree, used: set<nat>,
                dir: Dir, a: nat, y: nat, no: nat)
    requires Opened(os, table, inodes, tree) && Held(table, no) == 0 && Holds(os, os1, dir) && dir.Number() in tree
    requires LinksOk(tree, used) && used == inodes.Keys && Link(tree, a, y) && tree[a][y].ino == no
             && tree[a][y].ftype == FT_REGULAR
    ensures no in inodes && no !in tree && Count(os, no) == 0 && Count(os1, no) == 0
    ensures SetIn(tree, a, y, Free).Keys == tree.Keys - {no}
  {
    assert LinkOk(tree, used, a, y);
  }

  /** The end of sys_unlink for a file that is not in the table, so that it has no object in the list. */
  method UnlinkFile(m: Mount, ghost tree: Tree, ghost depth: map<nat, nat>, a: nat, ghost y: nat, no: nat,
                    os: OpenList, dir: Dir)
    requires Live(m, tree, depth) && Link(tree, a, y) && tree[a][y].ino == no && tree[a][y].ftype == FT_REGULAR
             && Held(m.table, no) == 0
    requires Fresh(os, m.part.inodes) && Holds(m.openInodes, os, dir) && dir.Number() in tree
    modifies m`openInodes, m`table, m.part
    ensures m.table == old(m.table)
    ensures Live(m, SetIn(tree, a, y, Free), depth) && SameOpen(old(m.openInodes), m.openInodes)
    ensures m.part.inodes.Keys == old(m.part.inodes.Keys) - {no}
    ensures FilesIn(m, tree.Keys) == old(FilesIn(m, tree.Keys)) - {no}
  {
    var p := m.part;
    ghost var inodes, tree' := p.inodes, SetIn(tree, a, y, Free);
    NotOpen(m.openInodes, os, m.table, inodes, tree, inodes.Keys, dir, a, y, no);
    var os' := UnlinkLists(p.disk, p.tableLba, p.inodes, os, dir, no, m.openInodes);
    Worlds.Unlink(p, tree, depth, a, y, no);
    LeaveLess(m, os', inodes, tree, tree', depth, no);
  }

  /** The list takes effect after an inode was released that was not open. */
  method LeaveLess(m: Mount, os': OpenList, ghost inodes: map<nat, Inode>, ghost tree: Tree, ghost tree': Tree,
                   ghost depth': map<nat, nat>, ghost no: nat)
    requires Intact(m.part, tree', depth') && Opened(m.openInodes, m.table, inodes, tree) && Fresh(os', inodes)
    requires SameOpen(m.openInodes, os') && Count(m.openInodes, no) == 0
    requires m.part.inodes.Keys == inodes.Keys - {no} && tree'.Keys == tree.Keys - {no}
    modifies m`openInodes, m`table
    ensures m.table == old(m.table)
    ensures Live(m, tree', depth') && SameOpen(old(m.openInodes), m.openInodes)
  {
    KeptLess(m.openInodes, os', m.table, inodes, m.part.inodes, tree, tree', no);
    Settle(m, os', m.table, tree', depth');
  }

  /** The list has the object of a released inode before any other object with its number. */
  ghost predicate StaleIn(os: OpenList, n: Inode) {
    First(os, n.no) < |os| && os[First(os, n.no)].Released? && os[First(os, n.no)].inode == n
  }

  /** The list after dir_close of directory c, which was released, and of its parent: the same objects are open as
      before the call, and the one of c is there no more, or released. */
  method CloseBoth(os2: OpenList, c: nat, dir: Dir, ghost n: Inode, ghost os1: OpenList, ghost os: OpenList,
                   ghost os0: OpenList, ghost inodes: map<nat, Inode>)
    returns (os': OpenList, ghost left: OpenList)
    requires n.no == c && os2 == AfterRelease(os1, c, n) && Fresh(os1, inodes) && Holds(os, os1, Heap(c))
    requires Fresh(os, inodes) && Holds(os0, os, dir)
    ensures os' == AfterRelease(left, c, n) && Fresh(left, inodes) && SameOpen(os0, left)
  {
    ReleaseCommutes(os1, c, n, c);
    CloseKeeps(os1, inodes, c);
    os' := InodeClose(os2, c);
    left := AfterClose(os1, c);
    if dir.Heap? {
      ReleaseCommutes(left, c, n, dir.no);
      CloseKeeps(left, inodes, dir.no);
      os' := InodeClose(os', dir.no);
      left := AfterClose(left, dir.no);
    }
  }

  lemma FreshByKeys(os: OpenList, inodes: map<nat, Inode>, inodes': map<nat, Inode>)
    requires inodes.Keys == inodes'.Keys
    ensures Fresh(os, inodes) <==> Fresh(os, inodes')
  {
    assert forall k :: 0 <= k < |os| ==> (Current(os[k], inodes) <==> Current(os[k], inodes'));
  }

  /** The list after the directory was removed. */
  lemma RemovedOpen(left: OpenList, os0: OpenList, table: FileTable, inodes: map<nat, Inode>,
                    inodes': map<nat, Inode>, tree: Tree, tree': Tree, c: nat)
    requires Opened(os0, table, inodes, tree) && Fresh(left, inodes) && SameOpen(os0, left) && c in inodes
             && inodes[c].no == c && c != 0
    requires inodes'.Keys == inodes.Keys - {c}
    ensures var os' := AfterRelease(left, c, inodes[c]);
            && (Fresh(os', inodes') <==> Count(os0, c) == 0)
            && (Count(os0, c) > 0 ==> StaleIn(os', inodes[c]))
            && (Count(os0, c) == 0 && tree'.Keys == tree.Keys - {c} ==>
                  SameOpen(os0, os') && Opened(os', table, inodes', tree'))
  {
    var os' := AfterRelease(left, c, inodes[c]);
    ReleaseKeepsIff(left, inodes, c, inodes[c]);
    FreshByKeys(os', inodes - {c}, inodes');
    if Count(os0, c) == 0 && tree'.Keys == tree.Keys - {c} {
      KeptLess(os0, left, table, inodes, inodes', tree, tree', c);
    }
  }

  /** The lists that sys_rmdir leaves, if directory c is not empty, and if it is. */
  method RmdirLists(d: Disk, t: nat, inodes: map<nat, Inode>, os: OpenList, dir: Dir, c: nat, ghost os0: OpenList)
    returns (inode: Inode, kept: OpenList, gone: OpenList, ghost left: OpenList)
    requires Recorded(d, t, inodes) && Fresh(os, inodes) && c in inodes && Holds(os0, os, dir)
    ensures inodes[c].no == c && SameFields(inode, inodes[c]) && Fresh(kept, inodes) && SameOpen(os0, kept)
    ensures gone == AfterRelease(left, c, inodes[c]) && Fresh(left, inodes) && SameOpen(os0, left)
  {
    assert RecordedAt(d, t, inodes, c);
    var child, os1;
    child, inode, os1 := DirOpen(d, t, inodes, os, c);
    var os2 := DirClose(os1, child, inodes, os);
    kept := DirClose(os2, dir, inodes, os0);
    var os3 := ReleaseOpened(d, t, inodes, os1, c);
    gone, left := CloseBoth(os3, c, dir, inodes[c], os1, os, os0, inodes);
  }

  /** What sys_rmdir leaves of the list of open inodes: os0 before, os' after. */
  ghost predicate RmdirList(os0: OpenList, os': OpenList, table: FileTable, inodes: map<nat, Inode>,
                            inodes': map<nat, Inode>, tree: Tree, tree': Tree, c: nat, ok: bool)
  {
    c in inodes &&
    if ok then
      && (Fresh(os', inodes') <==> Count(os0, c) == 0) && (Count(os0, c) > 0 ==> StaleIn(os', inodes[c]))
      && (Count(os0, c) == 0 && tree'.Keys == tree.Keys - {c} ==>
            SameOpen(os0, os') && Opened(os', table, inodes', tree'))
    else SameOpen(os0, os') && Opened(os', table, inodes', tree)
  }

  /** dir_remove, if directory c is empty, and the list of open inodes then. */
  method TakeDir(m: Mount, ghost tree: Tree, ghost depth: map<nat, nat>, a: nat, ghost y: Option<nat>, c: nat,
                 os: OpenList, dir: Dir, ghost tree': Tree)
    returns (ok: bool, os': OpenList)
    requires Live(m, tree, depth) && c in tree && c != 0 && SlotIs(tree, a, c, y)
    requires Fresh(os, m.part.inodes) && Holds(m.openInodes, os, dir)
    modifies m.part
    ensures ok <==> EmptyRow(tree[c])
    ensures FilesIn(m, tree.Keys) == old(FilesIn(m, tree.Keys))
    ensures !ok ==> m.part.disk == old(m.part.disk) && m.part.inodes == old(m.part.inodes)
                    && Intact(m.part, tree, depth)
    ensures ok ==> m.part.Valid() && m.part.inodes.Keys == old(m.part.inodes.Keys) - {c}
                   && (SomeWorld(m.part.disk, m.part.inodes) <==> y.Some?)
    ensures ok && y.Some? ==> Intact(m.part, WithoutDir(tree, a, y.value), depth - {c})
    ensures RmdirList(m.openInodes, os', m.table, old(m.part.inodes), m.part.inodes, tree, tree', c, ok)
  {
    var p := m.part;
    InTree(p.disk, p.inodes, tree, c);
    ghost var inodes, left := p.inodes, [];
    var inode, kept, gone;
    inode, kept, gone, left := RmdirLists(p.disk, p.tableLba, p.inodes, os, dir, c, m.openInodes);
    ok := Worlds.Rmdir(p, tree, depth, a, y, c, inode);
    if ok {
      RemovedOpen(left, m.openInodes, m.table, inodes, p.inodes, tree, tree', c);
    } else {
      KeptSame(m.openInodes, kept, m.table, inodes, p.inodes, tree);
    }
    os' := if ok then gone else kept;
  }

  /** The end of sys_rmdir, for a directory that may be empty or not. */
  method RemoveDir(m: Mount, ghost tree: Tree, ghost depth: map<nat, nat>, a: nat, ghost y: Option<nat>, c: nat,
                   os: OpenList, dir: Dir)
    returns (ok: bool)
    requires Live(m, tree, depth) && c in tree && c != 0 && SlotIs(tree, a, c, y)
    requires Fresh(os, m.part.inodes) && Holds(m.openInodes, os, dir)
    modifies m`openInodes, m`table, m.part
    ensures m.table == old(m.table)
    ensures FilesIn(m, tree.Keys) == old(FilesIn(m, tree.Keys))
    ensures ok <==> EmptyRow(tree[c])
    ensures !ok ==> m.part.disk == old(m.part.disk) && m.part.inodes == old(m.part.inodes)
    ensures !ok ==> Live(m, tree, depth) && SameOpen(old(m.openInodes), m.openInodes)
    ensures ok ==> m.part.Valid() && m.part.inodes.Keys == old(m.part.inodes.Keys) - {c}
                   && (SomeWorld(m.part.disk, m.part.inodes) <==> y.Some?)
    ensures ok ==> (Fresh(m.openInodes, m.part.inodes) <==> Count(old(m.openInodes), c) == 0)
    ensures ok && Count(old(m.openInodes), c) > 0 ==> StaleIn(m.openInodes, old(m.part.inodes)[c])
    ensures ok && y.Some? ==> Intact(m.part, WithoutDir(tree, a, y.value), depth - {c})
    ensures ok && y.Some? && Count(old(m.openInodes), c) == 0 ==>
              Live(m, WithoutDir(tree, a, y.value), depth - {c}) && SameOpen(old(m.openInodes), m.openInodes)
  {
    ghost var tree' := if y.Some? then WithoutDir(tree, a, y.value) else tree - {c};
    var os';
    ok, os' := TakeDir(m, tree, depth, a, y, c, os, dir, tree');
    m.openInodes := os';
  }

  /** fd is a file in the table. */
  predicate IsOpen(table: FileTable, fd: nat) {
    fd < |table| && table[fd].Some?
  }

  lemma Moved(os: OpenList, table: FileTable, inodes: map<nat, Inode>, tree: Tree, fd: nat, pos: nat)
    requires Opened(os, table, inodes, tree) && IsOpen(table, fd) && PosOk(pos)
    ensures Opened(os, table[fd := Some(table[fd].value.(pos := pos))], inodes, tree)
  {
    var f := Some(table[fd].value.(pos := pos));
    assert SlotOk(table[fd], inodes, tree);
    forall i {:trigger Held(table[fd := f], i)} | i !in tree ensures Count(os, i) == Held(table[fd := f], i) {
      HeldSet(table, fd, f, i);
    }
  }

  /** The position of the file in slot fd, after file_write. */
  lemma PosAfter(size: nat)
    requires size < Files.MAX_SIZE
    ensures PosOk(Files.U32(size - 1))
  {
  }

  method MoveTo(m: Mount, ghost tree: Tree, ghost depth: map<nat, nat>, fd: nat, pos: nat,
                ghost inodes: map<nat, Inode>)
    requires Intact(m.part, tree, depth) && Opened(m.openInodes, m.table, inodes, tree) && IsOpen(m.table, fd)
    requires m.part.inodes.Keys == inodes.Keys && PosOk(pos)
    modifies m`openInodes, m`table
    ensures Live(m, tree, depth) && m.openInodes == old(m.openInodes)
    ensures m.table == old(m.table)[fd := Some(old(m.table)[fd].value.(pos := pos))]
  {
    var table' := m.table[fd := Some(m.table[fd].value.(pos := pos))];
    WrittenOpen(m.openInodes, m.table, table', inodes, m.part.inodes, tree, fd, pos);
    Settle(m, m.openInodes, table', tree, depth);
  }

  /** The file in a slot of the table is a file in use. */
  lemma SlotFile(table: FileTable, inodes: map<nat, Inode>, tree: Tree, fd: nat)
    requires IsOpen(table, fd) && forall k :: 0 <= k < |table| ==> SlotOk(table[k], inodes, tree)
    ensures table[fd].value.no in inodes && table[fd].value.no !in tree && PosOk(table[fd].value.pos)
  {
    assert SlotOk(table[fd], inodes, tree);
  }

  lemma WrittenOpen(os: OpenList, table: FileTable, table': FileTable, inodes: map<nat, Inode>,
                    inodes': map<nat, Inode>, tree: Tree, fd: nat, pos: nat)
    requires Opened(os, table, inodes, tree) && IsOpen(table, fd) && inodes'.Keys == inodes.Keys
    requires table' == table[fd := Some(table[fd].value.(pos := pos))] && PosOk(pos)
    ensures Opened(os, table', inodes', tree)
  {
    KeptSame(os, os, table, inodes, inodes', tree);
    Moved(os, table, inodes', tree, fd, pos);
  }
}
