/** fs/fs.c: the system calls that change the file system. */
module SysCalls {
  import opened Disks
  import opened InodeTable
  import opened OpenInodes
  import opened Volumes
  import opened Entries
  import opened DirSlots
  import opened Dirs
  import opened Paths
  import opened Walks
  import opened WorkingDirs
  import opened Trees
  import opened Worlds
  import opened Mounts
  import opened Options
  import DirDeletes
  import NewDirs
  import Files
  import FileSystems

  // ---------------------------------------------------------------- what search_file has found

  /** The entry called `name` in directory `parent`. */
  ghost predicate EntryIs(tree: Tree, parent: nat, name: Name, ino: nat, ftype: nat) {
    && parent in tree && name in NameMap(tree[parent]) && NameMap(tree[parent])[name].Entry?
    && NameMap(tree[parent])[name].ino == ino && NameMap(tree[parent])[name].ftype == ftype
  }

  /** The last name that was looked up, c, and what became of it. */
  ghost predicate Ends(tree: Tree, o: Outcome, c: Name) {
    match o
    case Missing(parent) => parent in tree && c !in NameMap(tree[parent])
    case File(ino, parent) => EntryIs(tree, parent, c, ino, FT_REGULAR)
    case Directory(ino, parent) => EntryIs(tree, parent, c, ino, FT_DIRECTORY) && ino in tree
  }

  lemma {:induction false} VisitEnds(tree: Tree, at: nat, parent: nat, cs: seq<Name>)
    requires Closed(tree) && at in tree && cs != []
    ensures var t := Visit(tree, at, parent, cs);
            && 1 <= t.visited <= |cs| && Ends(tree, t.outcome, cs[t.visited - 1])
            && (t.outcome.Directory? ==> t.visited == |cs|)
    decreases |cs|
  {
    if cs[0] in NameMap(tree[at]) {
      LookupOk(tree, at, cs[0]);
      var e := NameMap(tree[at])[cs[0]];
      if e.ftype == FT_DIRECTORY && cs[1..] != [] {
        VisitEnds(tree, e.ino, at, cs[1..]);
      }
    }
  }

  /** An answer other than the root, with the last name that was looked up. */
  ghost predicate FoundIs(tree: Tree, path: Name, r: Search, name: Name) {
    && name in Components(path) && Proper(name)
    && (r.Miss? ==> r.parent in tree && name !in NameMap(tree[r.parent]))
    && (r.Hit? ==> EntryIs(tree, r.parent, name, r.ino, r.ftype))
    && (r.Hit? && r.ftype == FT_DIRECTORY ==> r.ino in tree && name == Components(path)[|Components(path)| - 1])
  }

  /** What a path leads to. */
  ghost function Target(tree: Tree, path: Name): Outcome
    requires Closed(tree)
  {
    Visit(tree, 0, 0, Components(path)).outcome
  }

  /** All components were looked up. */
  ghost predicate Reached(tree: Tree, path: Name)
    requires Closed(tree)
  {
    Visit(tree, 0, 0, Components(path)).visited == |Components(path)|
  }

  /** The last name that was looked up. */
  ghost function LastLookedUp(tree: Tree, path: Name): Name
    requires Closed(tree) && Components(path) != []
  {
    VisitEnds(tree, 0, 0, Components(path));
    Components(path)[Visit(tree, 0, 0, Components(path)).visited - 1]
  }

  lemma AnswerMeans(tree: Tree, path: Name, r: Search, searched: Name)
    requires Closed(tree) && Components(path) != [] && Answers(tree, Components(path), r, searched)
    ensures Components(searched) != [] && r == Answer(Target(tree, path)) && (r.Hit? || r.Miss?)
    ensures var name := Components(searched)[|Components(searched)| - 1];
            && name == LastLookedUp(tree, path) && FoundIs(tree, path, r, name)
               && searched == Print(Components(searched))
            && (|Components(searched)| == |Components(path)| <==> Reached(tree, path))
  {
    var cs := Components(path);
    var t := Visit(tree, 0, 0, cs);
    VisitEnds(tree, 0, 0, cs);
    ComponentsProper(path);
    ComponentsOfPrint(cs[..t.visited]);
    assert cs[..t.visited][t.visited - 1] == cs[t.visited - 1] && cs[t.visited - 1] in cs;
  }

  /** What stands behind the last slash of a printed path. */
  method LastName(searched: Name, ghost cs: seq<Name>) returns (name: Name)
    requires cs != [] && searched == Print(cs) && Proper(cs[|cs| - 1])
    ensures name == cs[|cs| - 1]
  {
    HasSlash(cs);
    var k := LastSlash(searched);
    LastSlashIs(cs, k.value);
    assert searched[k.value..][1..] == searched[k.value + 1..];
    name := searched[k.value + 1..];
  }

  /** search_file panics or overruns its buffer on such a path, or returns a number that was not set. */
  ghost predicate BadPath(tree: Tree, path: Name)
    requires Closed(tree)
  {
    !IsRoot(path) && (!Searchable(path) || Components(path) == [] || Overlong(tree, Components(path)))
  }

  predicate Fails(r: Search) {
    r.Panic? || r.Overrun? || r.Garbage?
  }

  /** The answer for another path than the root, and the components in searched_path. */
  ghost predicate FoundAt(tree: Tree, path: Name, r: Search, searched: Name)
    requires Closed(tree)
  {
    && Components(path) != [] && r == Answer(Target(tree, path)) && (r.Hit? || r.Miss?)
       && FoundIs(tree, path, r, LastLookedUp(tree, path))
    && var cs := Components(searched);
    && cs != [] && searched == Print(cs) && cs[|cs| - 1] == LastLookedUp(tree, path) && Within(cs, MAX_NAME)
    && (|cs| == |Components(path)| <==> Reached(tree, path)) && |LastLookedUp(tree, path)| < MAX_NAME
  }

  lemma AnswerFits(tree: Tree, path: Name, r: Search, searched: Name)
    requires Closed(tree) && Components(path) != [] && Answers(tree, Components(path), r, searched)
             && !Overlong(tree, Components(path))
    ensures FoundAt(tree, path, r, searched)
  {
    AnswerMeans(tree, path, r, searched);
    var cs := Components(path);
    var t := Visit(tree, 0, 0, cs);
    VisitEnds(tree, 0, 0, cs);
    ComponentsProper(path);
    ComponentsOfPrint(cs[..t.visited]);
    Prefix(cs, t.visited, Parsed(tree, cs), MAX_NAME - 1);
    assert cs[..t.visited][t.visited - 1] == cs[t.visited - 1];
  }

  lemma Prefix(cs: seq<Name>, k: nat, n: nat, m: nat)
    requires k <= n <= |cs| && Within(cs[..n], m)
    ensures Within(cs[..k], m)
  {
    assert forall j :: 0 <= j < k ==> cs[..k][j] == cs[..n][j];
  }

  /** search_file */
  method Find(m: Mount, ghost tree: Tree, ghost depth: map<nat, nat>, path: Name)
    returns (r: Search, searched: Name, dir: Dir, os: OpenList)
    requires Live(m, tree, depth)
    ensures IsRoot(path) ==> r == Hit(0, 0, FT_DIRECTORY)
    ensures Fails(r) <==> BadPath(tree, path)
    ensures !IsRoot(path) && !Fails(r) ==> FoundAt(tree, path, r, searched)
    ensures LeavesOpen(m.part.inodes, m.openInodes, os, dir, r, tree, path)
  {
    var p := m.part;
    r, searched, dir, os := SearchFile(p.disk, p.tableLba, p.inodes, m.openInodes, tree, path);
    if !IsRoot(path) && !BadPath(tree, path) {
      AnswerFits(tree, path, r, searched);
    }
  }

  /** path_depth_cnt overruns its buffer on such a path. */
  predicate Uncounted(path: Name) {
    !Within(Components(path), MAX_NAME)
  }

  // ---------------------------------------------------------------- from names to slots

  lemma SlotOf(tree: Tree, depth: map<nat, nat>, used: set<nat>, a: nat, name: Name, ino: nat, ftype: nat)
    returns (x: nat)
    requires TreeOk(tree, depth, used) && EntryIs(tree, a, name, ino, ftype)
             && (ftype == FT_REGULAR || (name != DOT && name != DOTDOT))
    ensures Link(tree, a, x) && tree[a][x].ino == ino && tree[a][x].ftype == ftype && tree[a][x].name == name
  {
    NameMapHas(tree[a], name);
    x :| Named(tree[a], x, name) && NameMap(tree[a])[name] == tree[a][x];
    assert LinkedAt(tree, depth, a) && RowOk(tree[a]);
  }

  /** No entry makes the root a regular file. */
  lemma FileNotRoot(tree: Tree, depth: map<nat, nat>, used: set<nat>, a: nat, name: Name, ino: nat)
    requires TreeOk(tree, depth, used) && EntryIs(tree, a, name, ino, FT_REGULAR)
    ensures ino != 0
  {
    var x := SlotOf(tree, depth, used, a, name, ino, FT_REGULAR);
    assert LinkOk(tree, used, a, x);
  }

  /** A component of a C string is a C string. */
  lemma CName(path: Name, name: Name)
    requires 0 !in path && name in Components(path) && Proper(name)
    ensures IsName(name)
  {
    ComponentBytes(path, name);
    forall k | 0 <= k < |name| ensures name[k] != 0 {
      assert name[k] in name;
    }
  }

  // ---------------------------------------------------------------- the calls

  /** A name was missing at the end of the path; now it is there. */
  ghost predicate NowThere(tree: Tree, tree': Tree, path: Name, no: nat, ftype: nat)
    requires Closed(tree) && Closed(tree')
  {
    && Components(path) != [] && Reached(tree, path) && Target(tree, path).Missing?
    && var a := Target(tree, path).parent;
    && Entered(tree, tree', a, Entry(LastLookedUp(tree, path), no, ftype))
    && Target(tree', path) == if ftype == FT_DIRECTORY then Directory(no, a) else File(no, a)
  }

  lemma IsNowThere(tree: Tree, tree': Tree, path: Name, a: nat, no: nat, ftype: nat)
    requires Closed(tree) && Closed(tree') && Components(path) != [] && Reached(tree, path)
             && Target(tree, path) == Missing(a)
    requires Entered(tree, tree', a, Entry(LastLookedUp(tree, path), no, ftype))
             && (ftype == FT_REGULAR || ftype == FT_DIRECTORY)
    ensures NowThere(tree, tree', path, no, ftype)
  {
    VisitEntered(tree, tree', a, Entry(LastLookedUp(tree, path), no, ftype), 0, 0, Components(path));
  }

  /** The path led to an entry of directory a; now its name is missing there. */
  ghost predicate NowGone(tree: Tree, tree': Tree, path: Name, no: nat, ftype: nat)
    requires Closed(tree) && Closed(tree')
  {
    && Components(path) != []
    && var o := Target(tree, path);
    && !o.Missing? && o == (if ftype == FT_DIRECTORY then Directory(no, o.parent) else File(no, o.parent))
    && Left(tree, tree', o.parent, Entry(LastLookedUp(tree, path), no, ftype))
       && Target(tree', path) == Missing(o.parent)
  }

  lemma IsNowGone(tree: Tree, tree': Tree, path: Name, a: nat, no: nat, ftype: nat)
    requires Closed(tree) && Closed(tree') && Components(path) != []
    requires Target(tree, path) == if ftype == FT_DIRECTORY then Directory(no, a) else File(no, a)
    requires Left(tree, tree', a, Entry(LastLookedUp(tree, path), no, ftype))
    ensures NowGone(tree, tree', path, no, ftype)
  {
    VisitEnds(tree, 0, 0, Components(path));
    VisitLeft(tree, tree', a, Entry(LastLookedUp(tree, path), no, ftype), 0, 0, Components(path));
  }

  /** All of the path but its last name is there. */
  ghost predicate Absent(tree: Tree, path: Name)
    requires Closed(tree)
  {
    !IsRoot(path) && Target(tree, path).Missing? && Reached(tree, path)
  }

  /** The path leads to a file, and not through one. */
  ghost predicate FileThere(tree: Tree, path: Name)
    requires Closed(tree)
  {
    !IsRoot(path) && Target(tree, path).File? && Reached(tree, path)
  }

  /** The byte in front of the terminator; of the empty path, what is in memory in front of it. */
  function LastByte(path: Name, garbage: Byte): Byte {
    if path == [] then garbage else path[|path| - 1]
  }

  /** sys_open as far as it is the same for all flags.  Done: the file is there, or only its last name is missing, and
      dir is still open.  `garbage` is what is in memory where sys_open and path_depth_cnt read what they have not
      written. */
  method OpenLookup(m: Mount, ghost tree: Tree, ghost depth: map<nat, nat>, path: Name, flags: nat, garbage: Byte)
    returns (s: Status, r: Search, dir: Dir, os: OpenList)
    requires Live(m, tree, depth)
    modifies m`openInodes, m`table
    ensures m.table == old(m.table)
    ensures s.Stopped? <==> LastByte(path, garbage) != SLASH && (flags > 7 || Uncounted(path) || BadPath(tree, path))
    ensures s.Done? <==>
            && LastByte(path, garbage) != SLASH && flags <= 7 && !Uncounted(path) && !BadPath(tree, path)
            && (Absent(tree, path) || FileThere(tree, path))
    ensures s.Done? ==> Components(path) != [] && r == Answer(Target(tree, path))
                        && FoundIs(tree, path, r, LastLookedUp(tree, path))
    ensures s.Done? ==> (r.Hit? <==> FileThere(tree, path)) && |LastLookedUp(tree, path)| < MAX_NAME
    ensures s.Done? ==> m.openInodes == old(m.openInodes)
                        && LeavesOpen(m.part.inodes, m.openInodes, os, dir, r, tree, path)
    ensures Live(m, tree, depth) && SameOpen(old(m.openInodes), m.openInodes) && !s.Lost?
  {
    r, dir, os := Garbage, RootDir, m.openInodes;
    if LastByte(path, garbage) == SLASH {
      return Refused, r, dir, os;
    }
    if flags > 7 {
      return Stopped, r, dir, os;
    }
    var pathname_depth := PathDepthCnt(path, garbage);
    if pathname_depth.None? {
      return Stopped, r, dir, os;
    }
    var searched;
    r, searched, dir, os := Find(m, tree, depth, path);
    if Fails(r) {
      return Stopped, r, dir, os;
    }
    if r.Hit? && r.ftype == FT_DIRECTORY {
      Leave(m, tree, depth, os, dir);
      return Refused, r, dir, os;
    }
    var path_searched_depth := PathDepthCnt(searched, garbage);
    if pathname_depth != path_searched_depth {
      Leave(m, tree, depth, os, dir);
      return Refused, r, dir, os;
    }
    s := Done;
  }

  /** sys_open with O_CREAT.  room says that the process has a free descriptor; otherwise -1 is returned, but the file
      was created.  fd is the index in the table of open files. */
  method SysCreate(m: Mount, ghost tree: Tree, ghost depth: map<nat, nat>, path: Name, flags: nat, room: bool,
                   garbage: Byte)
    returns (s: Status, no: nat, fd: nat, ghost tree': Tree)
    requires Live(m, tree, depth) && 0 !in path && 4 <= flags
    modifies m, m.part
    ensures s.Refused? || s.Done? ==> m.denied == if s.Done? then old(m.denied) - {no} else old(m.denied)
    ensures s.Refused? || s.Done? ==> Live(m, tree', depth)
    ensures s.Refused? ==> m.part.disk == old(m.part.disk) && m.part.inodes == old(m.part.inodes)
                           && m.table == old(m.table) && tree' == tree
    ensures s.Refused? ==> SameOpen(old(m.openInodes), m.openInodes)
    ensures s.Refused? <==>
            || LastByte(path, garbage) == SLASH
            || (&& flags <= 7 && !Uncounted(path) && !BadPath(tree, path)
                && (!Absent(tree, path) || !Room(old(m.table))))
    ensures s.Done? ==> NowThere(tree, tree', path, no, FT_REGULAR)
    ensures s.Done? ==> NewFile(m.part.disk, old(m.part.inodes), m.part.inodes, old(m.openInodes), m.openInodes,
                                old(m.table), m.table, no, fd, flags)
    ensures s.Done? ==> FilesIn(m, tree.Keys) == old(FilesIn(m, tree.Keys))[no := []]
    ensures s.Lost? ==> s.loss.RootRecord? && FileSystems.NumbersUsed(old(m.part.inodes), 256) && no == 256
    ensures s.Lost? ==> RootLost(m.part.disk, m.part.tableLba, m.part.inodes)
    ensures s.Stopped? <==>
            && LastByte(path, garbage) != SLASH
            && (|| flags > 7 || Uncounted(path) || BadPath(tree, path)
                || (&& Absent(tree, path) && Room(old(m.table))
                    && NoSpace(tree, old(m.part.inodes), Target(tree, path).parent, old(m.part.bits), 0)))
  {
    tree', no, fd := tree, 0, 0;
    var r, dir, os;
    s, r, dir, os := OpenLookup(m, tree, depth, path, flags, garbage);
    if !s.Done? {
      return;
    }
    s, no, fd, tree' := CreateLooked(m, tree, depth, path, r, os, dir, flags);
  }

  /** sys_open with O_CREAT, once the path was looked up. */
  method CreateLooked(m: Mount, ghost tree: Tree, ghost depth: map<nat, nat>, path: Name, r: Search, os: OpenList,
                      dir: Dir, flags: nat)
    returns (s: Status, no: nat, fd: nat, ghost tree': Tree)
    requires Live(m, tree, depth) && 0 !in path && path != [] && path[0] == SLASH && path[|path| - 1] != SLASH
    requires 4 <= flags < 8 && r == Answer(Target(tree, path)) && (Absent(tree, path) || FileThere(tree, path))
    requires r.Hit? <==> FileThere(tree, path)
    requires r.Miss? ==> MissingIn(tree, path, r.parent)
    requires Fresh(os, m.part.inodes) && Holds(m.openInodes, os, dir)
    modifies m, m.part
    ensures s.Refused? || s.Done? ==> m.denied == if s.Done? then old(m.denied) - {no} else old(m.denied)
    ensures s.Refused? || s.Done? ==> Live(m, tree', depth)
    ensures s.Refused? ==> m.part.disk == old(m.part.disk) && m.part.inodes == old(m.part.inodes)
                           && m.table == old(m.table) && tree' == tree
    ensures s.Refused? ==> SameOpen(old(m.openInodes), m.openInodes)
    ensures s.Refused? <==> !Absent(tree, path) || !Room(old(m.table))
    ensures s.Done? ==> NowThere(tree, tree', path, no, FT_REGULAR)
    ensures s.Done? ==> NewFile(m.part.disk, old(m.part.inodes), m.part.inodes, old(m.openInodes), m.openInodes,
                                old(m.table), m.table, no, fd, flags)
    ensures s.Done? ==> FilesIn(m, tree.Keys) == old(FilesIn(m, tree.Keys))[no := []]
    ensures s.Lost? ==> s.loss.RootRecord? && FileSystems.NumbersUsed(old(m.part.inodes), 256) && no == 256
    ensures s.Lost? ==> RootLost(m.part.disk, m.part.tableLba, m.part.inodes)
    ensures s.Stopped? <==> && Absent(tree, path) && Room(old(m.table))
                            && NoSpace(tree, old(m.part.inodes), Target(tree, path).parent, old(m.part.bits), 0)
  {
    fd := FreeSlot(m.table);
    if r.Hit? || fd == MAX_FILE_OPEN {
      Leave(m, tree, depth, os, dir);
      return Refused, 0, fd, tree;
    }
    s, no, tree' := CreateFound(m, tree, depth, path, r.parent, os, dir, fd, flags);
  }

  /** Only the last name of the path is missing, in directory a; it has less than 16 bytes. */
  ghost predicate MissingIn(tree: Tree, path: Name, a: nat)
    requires Closed(tree)
  {
    && Components(path) != [] && Reached(tree, path) && Target(tree, path) == Missing(a) && a in tree
    && var name := LastLookedUp(tree, path);
    && name in Components(path) && Proper(name) && |name| < MAX_NAME && name !in NameMap(tree[a])
  }

  /** What stands behind the last slash of such a path. */
  lemma NameBehind(tree: Tree, path: Name, a: nat, k: nat)
    requires Closed(tree) && MissingIn(tree, path, a) && 0 !in path && path[|path| - 1] != SLASH
    requires k < |path| && path[k] == SLASH && SLASH !in path[k + 1..]
    ensures path[k + 1..] == LastLookedUp(tree, path) && IsName(path[k + 1..])
  {
    BehindSlash(path, k);
    CName(path, LastLookedUp(tree, path));
  }

  /** sys_open with O_CREAT, once the parent was found. */
  method CreateFound(m: Mount, ghost tree: Tree, ghost depth: map<nat, nat>, path: Name, a: nat, os: OpenList,
                     dir: Dir, fd: nat, flags: nat)
    returns (s: Status, no: nat, ghost tree': Tree)
    requires Live(m, tree, depth) && MissingIn(tree, path, a) && 0 !in path && path != [] && path[0] == SLASH
             && path[|path| - 1] != SLASH
    requires Fresh(os, m.part.inodes) && Holds(m.openInodes, os, dir) && 3 <= fd < |m.table| && m.table[fd].None?
             && flags < 8
    requires forall j :: 3 <= j < fd ==> m.table[j].Some?
    modifies m, m.part
    ensures s.Done? ==> m.denied == old(m.denied) - {no}
    ensures s.Done? ==> Live(m, tree', depth) && NowThere(tree, tree', path, no, FT_REGULAR)
    ensures s.Done? ==> NewFile(m.part.disk, old(m.part.inodes), m.part.inodes, old(m.openInodes), m.openInodes,
                                old(m.table), m.table, no, fd, flags)
    ensures s.Done? ==> FilesIn(m, tree.Keys) == old(FilesIn(m, tree.Keys))[no := []]
    ensures s.Lost? ==> s.loss.RootRecord? && FileSystems.NumbersUsed(old(m.part.inodes), 256) && no == 256
    ensures s.Lost? ==> RootLost(m.part.disk, m.part.tableLba, m.part.inodes)
    ensures s.Stopped? <==> NoSpace(tree, old(m.part.inodes), a, old(m.part.bits), 0)
    ensures !s.Refused?
  {
    var k := LastSlash(path);
    NameBehind(tree, path, a, k.value);
    s, no, tree' := CreateAt(m, tree, depth, a, path[k.value + 1..], os, dir, fd, flags);
    if s.Done? {
      IsNowThere(tree, tree', path, a, no, FT_REGULAR);
    }
  }

  /** What sys_open of an existing file leaves open: the file, if the table has room, and its parent, which nobody
      closes, unless the file is in the root and the path has one component. */
  ghost predicate AlsoOpen(os: OpenList, os': OpenList, tree: Tree, path: Name, tabled: bool)
    requires Closed(tree)
  {
    forall i :: Count(os', i) ==
                Count(os, i) + (if |Components(path)| > 1 && i == Target(tree, path).parent then 1 else 0)
                + (if tabled && Target(tree, path).File? && i == Target(tree, path).ino then 1 else 0)
  }

  /** sys_open finds the file. */
  ghost predicate Openable(tree: Tree, path: Name, garbage: Byte)
    requires Closed(tree)
  {
    LastByte(path, garbage) != SLASH && !Uncounted(path) && !BadPath(tree, path) && FileThere(tree, path)
  }

  /** sys_open without O_CREAT. */
  method SysOpen(m: Mount, ghost tree: Tree, ghost depth: map<nat, nat>, path: Name, flags: nat, room: bool,
                 garbage: Byte)
    returns (s: Status, fd: nat)
    requires Live(m, tree, depth) && flags < 4
    modifies m
    ensures Live(m, tree, depth) && !s.Lost?
    ensures s.Stopped? <==> LastByte(path, garbage) != SLASH && (Uncounted(path) || BadPath(tree, path))
    ensures s.Done? <==>
            && Openable(tree, path, garbage) && Room(old(m.table))
            && (Writes(flags) ==> Target(tree, path).ino !in old(m.denied)) && room
    ensures m.denied ==
            if Openable(tree, path, garbage) && Room(old(m.table))
            && Writes(flags) then old(m.denied) + {Target(tree, path).ino}
            else old(m.denied)
    ensures if Openable(tree, path, garbage) then
              AlsoOpen(old(m.openInodes), m.openInodes, tree, path, Room(old(m.table)))
            else SameOpen(old(m.openInodes), m.openInodes)
    ensures if Openable(tree, path, garbage) && Room(old(m.table)) then
              Tabled(old(m.table), m.table, fd, OpenFile(Target(tree, path).ino, flags, 0))
            else m.table == old(m.table)
  {
    fd := 0;
    var r, dir, os;
    s, r, dir, os := OpenLookup(m, tree, depth, path, flags, garbage);
    if !s.Done? {
      return;
    }
    if r.Miss? {
      Leave(m, tree, depth, os, dir);
      return Refused, fd;
    }
    IsFile(tree, depth, m.part.inodes.Keys, path, r);
    var ok;
    ok, fd := OpenThere(m, tree, depth, path, r.ino, os, dir, flags, room);
    s := if ok then Done else Refused;
  }

  /** file_open of the file that the path leads to. */
  method OpenThere(m: Mount, ghost tree: Tree, ghost depth: map<nat, nat>, ghost path: Name, no: nat, os: OpenList,
                   dir: Dir, flags: nat, room: bool)
    returns (ok: bool, fd: nat)
    requires Live(m, tree, depth) && Fresh(os, m.part.inodes) && Holds(m.openInodes, os, dir) && flags < 4
    requires no in m.part.inodes && no !in tree && Components(path) != [] && FileThere(tree, path)
    requires Target(tree, path) == Outcome.File(no, dir.Number()) && dir.Number() in tree
    requires dir.RootDir? <==> Visit(tree, 0, 0, Components(path)).visited == 1
    modifies m
    ensures Live(m, tree, depth) && AlsoOpen(old(m.openInodes), m.openInodes, tree, path, Room(old(m.table)))
    ensures ok <==> Room(old(m.table)) && (Writes(flags) ==> no !in old(m.denied)) && room
    ensures m.denied == if Room(old(m.table)) && Writes(flags) then old(m.denied) + {no} else old(m.denied)
    ensures if Room(old(m.table)) then Tabled(old(m.table), m.table, fd, OpenFile(no, flags, 0))
            else m.table == old(m.table)
  {
    ghost var before, table := m.openInodes, m.table;
    ok, fd := OpenFound(m, tree, depth, no, os, dir, flags, room);
    OpensParent(before, m.openInodes, tree, path, dir, Room(table));
  }

  lemma OpensParent(os: OpenList, os': OpenList, tree: Tree, path: Name, dir: Dir, tabled: bool)
    requires Closed(tree) && FileThere(tree, path) && LeftAlso(os, os', dir, Target(tree, path).ino, tabled)
    requires dir.Number() == Target(tree, path).parent
             && (dir.RootDir? <==> Visit(tree, 0, 0, Components(path)).visited == 1)
    requires Components(path) != []
    ensures AlsoOpen(os, os', tree, path, tabled)
  {
    assert dir.RootDir? <==> |Components(path)| == 1;
  }

  /** file_open; nobody closes the parent. */
  method OpenFound(m: Mount, ghost tree: Tree, ghost depth: map<nat, nat>, no: nat, os: OpenList, dir: Dir,
                   flags: nat, room: bool)
    returns (ok: bool, fd: nat)
    requires Live(m, tree, depth) && Fresh(os, m.part.inodes) && Holds(m.openInodes, os, dir) && dir.Number() in tree
    requires no in m.part.inodes && no !in tree && flags < 4
    modifies m
    ensures Live(m, tree, depth) && LeftAlso(old(m.openInodes), m.openInodes, dir, no, Room(old(m.table)))
    ensures ok <==> Room(old(m.table)) && (Writes(flags) ==> no !in old(m.denied)) && room
    ensures m.denied == if Room(old(m.table)) && Writes(flags) then old(m.denied) + {no} else old(m.denied)
    ensures if Room(old(m.table)) then Tabled(old(m.table), m.table, fd, OpenFile(no, flags, 0))
            else m.table == old(m.table)
  {
    LeftOpen(m.openInodes, os, m.table, m.part.inodes, tree, dir);
    Settle(m, os, m.table, tree, depth);
    fd := FreeSlot(m.table);
    ok := false;
    if fd < MAX_FILE_OPEN {
      ok := FileOpen(m, tree, depth, fd, OpenFile(no, flags, 0), room);
    }
  }

  /** The parent is open once more, and, if it is in the table, the file. */
  ghost predicate LeftAlso(os: OpenList, os': OpenList, dir: Dir, no: nat, tabled: bool) {
    forall i :: Count(os', i) == Count(os, i) + (if dir == Heap(i) then 1 else 0) + (if tabled && i == no then 1 else 0)
  }

  lemma BehindSlash(path: Name, k: nat)
    requires k < |path| && path[k] == SLASH && SLASH !in path[k + 1..] && path[|path| - 1] != SLASH
    ensures Components(path) != [] && Components(path)[|Components(path)| - 1] == path[k + 1..]
  {
    LastComponent(path, k);
  }

  /** sys_mkdir */
  method SysMkdir(m: Mount, ghost tree: Tree, ghost depth: map<nat, nat>, path: Name, garbage: Byte)
    returns (s: Status, no: nat, ghost tree': Tree, ghost depth': map<nat, nat>)
    requires Live(m, tree, depth) && 0 !in path
    modifies m`openInodes, m`table, m.part
    ensures m.table == old(m.table)
    ensures s.Refused? || s.Done? ==> Live(m, tree', depth') && SameOpen(old(m.openInodes), m.openInodes)
    ensures s.Refused? ==> m.part.disk == old(m.part.disk) && m.part.inodes == old(m.part.inodes) && tree' == tree
    ensures s.Refused? <==> !BadPath(tree, path) && !Absent(tree, path)
                            && (Target(tree, path).Missing? ==> !Uncounted(path))
    ensures s.Done? ==> NowThere(tree, tree', path, no, FT_DIRECTORY) && FileSystems.NumbersUsed(old(m.part.inodes), no)
    ensures s.Done? ==> no !in old(m.part.inodes) && m.part.inodes.Keys == old(m.part.inodes.Keys) + {no}
    ensures s.Done? ==> no in tree' && NewRow(tree'[no], no, Target(tree, path).parent)
                        && !FileSystems.NumbersUsed(old(m.part.inodes), 256)
    ensures s.Done? ==> FilesIn(m, tree.Keys + {no}) == old(FilesIn(m, tree.Keys))
    ensures s.Lost? ==> s.loss.RootRecord? && FileSystems.NumbersUsed(old(m.part.inodes), 256) && no == 256
    ensures s.Lost? ==> RootLost(m.part.disk, m.part.tableLba, m.part.inodes)
    ensures s.Stopped? <==>
            || BadPath(tree, path) || (Target(tree, path).Missing? && Uncounted(path))
            || (&& Absent(tree, path)
                && NoSpace(tree, old(m.part.inodes), Target(tree, path).parent, old(m.part.bits), 1))
  {
    tree', depth', no := tree, depth, 0;
    var a, name, dir, os;
    s, a, name, dir, os := MkdirLookup(m, tree, depth, path, garbage);
    if s.Done? {
      s, no, tree', depth' := MakeFound(m, tree, depth, path, a, name, os, dir);
    }
  }

  /** sys_mkdir up to the allocation of the inode.  Done: only the last name of the path is missing, and dir is still
      open. */
  method MkdirLookup(m: Mount, ghost tree: Tree, ghost depth: map<nat, nat>, path: Name, garbage: Byte)
    returns (s: Status, a: nat, name: Name, dir: Dir, os: OpenList)
    requires Live(m, tree, depth)
    modifies m`openInodes, m`table
    ensures Live(m, tree, depth) && m.table == old(m.table) && SameOpen(old(m.openInodes), m.openInodes) && !s.Lost?
    ensures s.Stopped? <==> BadPath(tree, path) || (Target(tree, path).Missing? && Uncounted(path))
    ensures s.Done? <==> !BadPath(tree, path) && Absent(tree, path) && !Uncounted(path)
    ensures s.Done? ==> MissingIn(tree, path, a) && name == LastLookedUp(tree, path)
    ensures s.Done? ==> m.openInodes == old(m.openInodes) && Fresh(os, m.part.inodes) && Holds(m.openInodes, os, dir)
  {
    RootIsThere(tree, depth, path);
    a, name := 0, [];
    var r, searched;
    r, searched, dir, os := Find(m, tree, depth, path);
    if Fails(r) {
      return Stopped, a, name, dir, os;
    }
    if r.Hit? {
      Leave(m, tree, depth, os, dir);
      return Refused, a, name, dir, os;
    }
    var pathname_depth := PathDepthCnt(path, garbage);
    if pathname_depth.None? {
      return Stopped, a, name, dir, os;
    }
    var path_searched_depth := PathDepthCnt(searched, garbage);
    if pathname_depth != path_searched_depth {
      Leave(m, tree, depth, os, dir);
      return Refused, a, name, dir, os;
    }
    name := LastName(searched, Components(searched));
    s, a := Done, r.parent;
  }

  /** sys_mkdir, once the parent was found. */
  method MakeFound(m: Mount, ghost tree: Tree, ghost depth: map<nat, nat>, ghost path: Name, a: nat, name: Name,
                   os: OpenList, dir: Dir)
    returns (s: Status, no: nat, ghost tree': Tree, ghost depth': map<nat, nat>)
    requires Live(m, tree, depth) && MissingIn(tree, path, a) && 0 !in path && name == LastLookedUp(tree, path)
    requires Fresh(os, m.part.inodes) && Holds(m.openInodes, os, dir)
    modifies m`openInodes, m`table, m.part
    ensures m.table == old(m.table)
    ensures s.Done? ==> Live(m, tree', depth') && SameOpen(old(m.openInodes), m.openInodes)
                        && NowThere(tree, tree', path, no, FT_DIRECTORY)
    ensures s.Done? ==> no !in old(m.part.inodes) && m.part.inodes.Keys == old(m.part.inodes.Keys) + {no}
                        && no in tree' && NewRow(tree'[no], no, a)
    ensures s.Done? ==> FileSystems.NumbersUsed(old(m.part.inodes), no)
                        && !FileSystems.NumbersUsed(old(m.part.inodes), 256)
    ensures s.Done? ==> FilesIn(m, tree.Keys + {no}) == old(FilesIn(m, tree.Keys))
    ensures s.Lost? ==> s.loss.RootRecord? && FileSystems.NumbersUsed(old(m.part.inodes), 256) && no == 256
    ensures s.Lost? ==> RootLost(m.part.disk, m.part.tableLba, m.part.inodes)
    ensures s.Stopped? <==> NoSpace(tree, old(m.part.inodes), a, old(m.part.bits), 1)
    ensures !s.Refused?
  {
    CName(path, name);
    s, no, tree', depth' := MakeDirAt(m, tree, depth, a, name, os, dir);
    if s.Done? {
      IsNowThere(tree, tree', path, a, no, FT_DIRECTORY);
    }
  }

  /** The three names of the root lead to it. */
  lemma RootIsThere(tree: Tree, depth: map<nat, nat>, path: Name)
    requires Closed(tree) && Linked(tree, depth)
    ensures IsRoot(path) ==> Target(tree, path).Directory?
  {
    if IsRoot(path) && path != [SLASH] {
      var c := path[1..];
      assert path == [SLASH] + c + [] && Proper(c);
      FirstComponent(c, []);
      var none: seq<Name> := [];
      assert Components([]) == none && [c] + none == [c];
      assert LinkedAt(tree, depth, 0) && RowOk(tree[0]);
      NameMapAt(tree[0], if c == DOT then 0 else 1, c);
      VisitMore(tree, 0, 0, [], c);
      assert [] + [c] == [c];
    } else if IsRoot(path) {
      SkipSlash(path);
    }
  }

  /** sys_unlink and sys_rmdir assert that it does not. */
  ghost predicate LeadsToRoot(tree: Tree, path: Name)
    requires Closed(tree)
  {
    IsRoot(path) || (Target(tree, path).Directory? && Target(tree, path).ino == 0)
  }

  /** sys_unlink */
  method SysUnlink(m: Mount, ghost tree: Tree, ghost depth: map<nat, nat>, path: Name)
    returns (s: Status, no: nat, ghost tree': Tree)
    requires Live(m, tree, depth)
    modifies m`openInodes, m`table, m.part
    ensures m.table == old(m.table)
    ensures !s.Stopped? ==> Live(m, tree', depth) && SameOpen(old(m.openInodes), m.openInodes) && !s.Lost?
    ensures s.Refused? ==> m.part.disk == old(m.part.disk) && m.part.inodes == old(m.part.inodes) && tree' == tree
    ensures s.Done? ==> NowGone(tree, tree', path, no, FT_REGULAR)
                        && m.part.inodes.Keys == old(m.part.inodes.Keys) - {no}
    ensures s.Done? ==> no in old(FilesIn(m, tree.Keys)) && FilesIn(m, tree.Keys) == old(FilesIn(m, tree.Keys)) - {no}
    ensures s.Stopped? <==> BadPath(tree, path) || LeadsToRoot(tree, path)
    ensures s.Done? <==> !BadPath(tree, path) && !IsRoot(path) && Target(tree, path).File?
                         && Held(m.table, Target(tree, path).ino) == 0
  {
    tree' := tree;
    var a, dir, os;
    s, a, no, dir, os := FindToRemove(m, tree, depth, path, FT_REGULAR);
    if !s.Done? {
      return;
    }
    var inTable := InFileTable(m.table, no);
    if inTable {
      Leave(m, tree, depth, os, dir);
      return Refused, no, tree;
    }
    ghost var y := SlotOf(tree, depth, m.part.inodes.Keys, a, LastLookedUp(tree, path), no, FT_REGULAR);
    assert LinkOk(tree, m.part.inodes.Keys, a, y);
    UnlinkFile(m, tree, depth, a, y, no, os, dir);
    tree' := SetIn(tree, a, y, Free);
    FileLeaves(tree, a, y);
    IsNowGone(tree, tree', path, a, no, FT_REGULAR);
  }

  /** The path leads to inode no of that type, other than the root, by an entry of directory a. */
  ghost predicate LeadsTo(tree: Tree, path: Name, ftype: nat, no: nat, a: nat)
    requires Closed(tree)
  {
    && Components(path) != [] && no != 0 && EntryIs(tree, a, LastLookedUp(tree, path), no, ftype)
    && Target(tree, path) == (if ftype == FT_DIRECTORY then Directory(no, a) else Outcome.File(no, a))
    && (ftype == FT_DIRECTORY ==> no in tree)
  }

  /** What the path leads to is of that type. */
  ghost predicate OfType(tree: Tree, path: Name, ftype: nat)
    requires Closed(tree)
  {
    if ftype == FT_DIRECTORY then Target(tree, path).Directory? else Target(tree, path).File?
  }

  /** The beginning of sys_unlink and sys_rmdir.  Done: an inode of that type was found, and dir is still open. */
  method FindToRemove(m: Mount, ghost tree: Tree, ghost depth: map<nat, nat>, path: Name, ftype: nat)
    returns (s: Status, a: nat, no: nat, dir: Dir, os: OpenList)
    requires Live(m, tree, depth) && (ftype == FT_REGULAR || ftype == FT_DIRECTORY)
    modifies m`openInodes, m`table
    ensures Live(m, tree, depth) && m.table == old(m.table) && SameOpen(old(m.openInodes), m.openInodes) && !s.Lost?
    ensures s.Stopped? <==> BadPath(tree, path) || LeadsToRoot(tree, path)
    ensures s.Done? <==> !BadPath(tree, path) && !LeadsToRoot(tree, path) && OfType(tree, path, ftype)
    ensures s.Done? ==> LeadsTo(tree, path, ftype, no, a) && dir.Number() == a
    ensures s.Done? ==> m.openInodes == old(m.openInodes) && Fresh(os, m.part.inodes) && Holds(m.openInodes, os, dir)
  {
    a, no := 0, 0;
    var r, searched;
    r, searched, dir, os := Find(m, tree, depth, path);
    if r.Hit? && r.ftype == FT_REGULAR {
      FileNotRoot(tree, depth, m.part.inodes.Keys, r.parent, LastLookedUp(tree, path), r.ino);
    }
    if Fails(r) || (r.Hit? && r.ino == 0) {
      return Stopped, a, no, dir, os;
    }
    if r.Miss? || r.ftype != ftype {
      Leave(m, tree, depth, os, dir);
      return Refused, a, no, dir, os;
    }
    s, a, no := Done, r.parent, r.ino;
  }

  lemma FileLeaves(tree: Tree, a: nat, y: nat)
    requires Closed(tree) && Link(tree, a, y) && tree[a][y].ftype == FT_REGULAR && Closed(SetIn(tree, a, y, Free))
    ensures Left(tree, SetIn(tree, a, y, Free), a, tree[a][y])
  {
    assert RowOk(tree[a]) && SetIn(tree, a, y, Free)[a] == tree[a][y := Free] && RowOk(SetIn(tree, a, y, Free)[a]);
    FileHasLeft(tree, a, y);
  }

  lemma DirLeaves(tree: Tree, a: nat, y: nat)
    requires Closed(tree) && Link(tree, a, y) && tree[a][y].ftype == FT_DIRECTORY && Closed(WithoutDir(tree, a, y))
             && a in WithoutDir(tree, a, y)
    ensures Left(tree, WithoutDir(tree, a, y), a, tree[a][y])
  {
    assert RowOk(tree[a]) && WithoutDir(tree, a, y)[a] == tree[a][y := Free] && RowOk(WithoutDir(tree, a, y)[a]);
    DirHasLeft(tree, a, y);
  }

  /** The path leads, by a last ".", to an empty directory other than the root. */
  ghost predicate DotRemoves(tree: Tree, path: Name)
    requires Closed(tree)
  {
    && Components(path) != [] && LastLookedUp(tree, path) == DOT
    && var o := Target(tree, path);
    && o.Directory? && o.ino != 0 && o.ino in tree && EmptyRow(tree[o.ino])
  }

  /** ".." of a directory that is not the root leads to a directory that is not empty. */
  lemma ParentNotEmpty(tree: Tree, depth: map<nat, nat>, used: set<nat>, a: nat, c: nat)
    requires TreeOk(tree, depth, used) && EntryIs(tree, a, DOTDOT, c, FT_DIRECTORY) && c != 0 && c in tree
    ensures !EmptyRow(tree[c]) && depth[a] == depth[c] + 1
  {
    assert LinkedAt(tree, depth, a) && RowOk(tree[a]);
    NameMapAt(tree[a], 1, DOTDOT);
    var x: nat :| ChildAt(tree, a, c, x);
  }

  /** The path leads to an empty directory other than the root. */
  ghost predicate Removes(tree: Tree, path: Name)
    requires Closed(tree)
  {
    && !BadPath(tree, path) && !LeadsToRoot(tree, path) && Target(tree, path).Directory?
       && Target(tree, path).ino in tree
    && EmptyRow(tree[Target(tree, path).ino])
  }

  /** sys_rmdir.  It returns 0, too, when the invariant is lost: if the directory was reached by a last ".", its inode
      is released and its entry left; if it was left open, its inode is released and its object left. */
  method SysRmdir(m: Mount, ghost tree: Tree, ghost depth: map<nat, nat>, path: Name)
    returns (s: Status, no: nat, ghost tree': Tree, ghost depth': map<nat, nat>)
    requires Live(m, tree, depth)
    modifies m`openInodes, m`table, m.part
    ensures m.table == old(m.table)
    ensures s.Refused? ==> m.part.disk == old(m.part.disk) && m.part.inodes == old(m.part.inodes) && tree' == tree
                           && depth' == depth
    ensures s.Refused? || s.Done? ==> Live(m, tree', depth') && SameOpen(old(m.openInodes), m.openInodes)
    ensures s.Done? || s.Lost? ==> FilesIn(m, tree.Keys) == old(FilesIn(m, tree.Keys))
    ensures s.Stopped? <==> BadPath(tree, path) || LeadsToRoot(tree, path)
    ensures s.Done? || s.Lost? <==> Removes(tree, path)
    ensures s.Done? || s.Lost? ==> m.part.Valid() && no == Target(tree, path).ino
                                   && m.part.inodes.Keys == old(m.part.inodes.Keys) - {no}
    ensures s.Done? || s.Lost? ==> (s.Done? <==> !DotRemoves(tree, path) && Count(old(m.openInodes), no) == 0)
    ensures s.Done? || s.Lost? ==> (SomeWorld(m.part.disk, m.part.inodes) <==> !DotRemoves(tree, path))
    ensures s.Done? || s.Lost? ==> (Fresh(m.openInodes, m.part.inodes) <==> Count(old(m.openInodes), no) == 0)
    ensures s.Lost? ==> s.loss == if DotRemoves(tree, path) then Dangling else Stale
    ensures s.Done? || s == Lost(Stale) ==> Intact(m.part, tree', depth')
                                            && NowGone(tree, tree', path, no, FT_DIRECTORY)
    ensures s == Lost(Stale) ==> StaleIn(m.openInodes, old(m.part.inodes)[no])
  {
    tree', depth' := tree, depth;
    var a, dir, os;
    s, a, no, dir, os := FindToRemove(m, tree, depth, path, FT_DIRECTORY);
    if !s.Done? {
      return;
    }
    var before := m.openInodes;
    ghost var y := SlotOrNone(tree, depth, m.part.inodes.Keys, path, a, no);
    var ok := RemoveDir(m, tree, depth, a, y, no, os, dir);
    if !ok {
      return Refused, no, tree, depth;
    }
    if y.Some? {
      tree', depth' := WithoutDir(tree, a, y.value), depth - {no};
      RmdirGone(tree, depth, m.part.inodes.Keys + {no}, path, a, y.value, tree');
    }
    s := if a == no then Lost(Dangling) else if Count(before, no) > 0 then Lost(Stale) else Done;
  }

  /** The slot of the directory in its parent; or it is its own parent, reached by a last ".". */
  lemma SlotOrNone(tree: Tree, depth: map<nat, nat>, used: set<nat>, path: Name, a: nat, c: nat)
    returns (y: Option<nat>)
    requires TreeOk(tree, depth, used) && Components(path) != [] && Target(tree, path) == Directory(c, a) && c != 0
             && c in tree
    requires EntryIs(tree, a, LastLookedUp(tree, path), c, FT_DIRECTORY)
    ensures EmptyRow(tree[c]) ==> (DotRemoves(tree, path) <==> y.None?) && (y.None? <==> a == c)
    ensures SlotIs(tree, a, c, y)
    ensures y.Some? ==> tree[a][y.value].name == LastLookedUp(tree, path) && tree[a][y.value].ftype == FT_DIRECTORY
  {
    var name := LastLookedUp(tree, path);
    if name == DOT {
      assert LinkedAt(tree, depth, a) && RowOk(tree[a]);
      NameMapAt(tree[a], 0, DOT);
      NotItsParent(tree, depth, used, a, c);
      y := None;
    } else if name == DOTDOT {
      ParentNotEmpty(tree, depth, used, a, c);
      NotItsParent(tree, depth, used, a, c);
      y := None;
    } else {
      var x := SlotOf(tree, depth, used, a, name, c, FT_DIRECTORY);
      y := Some(x);
    }
  }

  /** Only the parent of a directory, which is nearer to the root, has an entry for it. */
  lemma NotItsParent(tree: Tree, depth: map<nat, nat>, used: set<nat>, a: nat, c: nat)
    requires TreeOk(tree, depth, used) && a in tree && c in tree && c != 0 && depth[a] >= depth[c]
    ensures DirDeletes.InoNotBefore(tree[a], CAPACITY, c)
  {
    assert LinkedAt(tree, depth, c);
    var b := ParentOf(tree[c]);
    var x: nat :| ChildAt(tree, c, b, x);
    assert Link(tree, b, x);
    forall y | 2 <= y < |tree[a]| && tree[a][y].Entry? ensures tree[a][y].ino != c {
      assert Link(tree, a, y) && !Twice(tree, b, x, a, y);
    }
  }

  lemma RmdirGone(tree: Tree, depth: map<nat, nat>, used: set<nat>, path: Name, a: nat, y: nat, tree': Tree)
    requires TreeOk(tree, depth, used) && Link(tree, a, y) && tree[a][y].ino in tree && EmptyRow(tree[tree[a][y].ino])
    requires Components(path) != [] && Target(tree, path) == Directory(tree[a][y].ino, a)
    requires tree[a][y].name == LastLookedUp(tree, path) && tree[a][y].ftype == FT_DIRECTORY
    requires tree' == WithoutDir(tree, a, y) && Closed(tree')
    ensures NowGone(tree, tree', path, tree[a][y].ino, FT_DIRECTORY)
  {
    RemovedParent(tree, depth, used, a, y);
    DirLeaves(tree, a, y);
    IsNowGone(tree, tree', path, a, tree[a][y].ino, FT_DIRECTORY);
  }

  lemma RemovedParent(tree: Tree, depth: map<nat, nat>, used: set<nat>, a: nat, y: nat)
    requires TreeOk(tree, depth, used) && Link(tree, a, y) && tree[a][y].ino in tree && EmptyRow(tree[tree[a][y].ino])
    ensures a in WithoutDir(tree, a, y)
  {
  }

  /** So sys_rmdir with a last "." goes wrong for every empty directory but the root. */
  lemma DotPath(tree: Tree, depth: map<nat, nat>, c: nat)
    requires Closed(tree) && Linked(tree, depth) && c in tree && c != 0 && EmptyRow(tree[c])
    ensures DotRemoves(tree, PathTo(tree, depth, c) + [SLASH] + DOT)
  {
    var cs := NamesTo(tree, depth, c);
    var path := PathTo(tree, depth, c) + [SLASH] + DOT;
    NamesProper(tree, depth, c);
    NamesLead(tree, depth, c);
    PrintSnoc(cs, DOT);
    ComponentsOfPrint(cs + [DOT]);
    assert LinkedAt(tree, depth, c) && RowOk(tree[c]);
    NameMapAt(tree[c], 0, DOT);
    VisitMore(tree, 0, 0, cs, DOT);
    VisitEnds(tree, 0, 0, cs + [DOT]);
  }

  /** mkdir("/a") and rmdir("/a/."): both return 0, and the directories on the disk are a tree no more. */
  method MkdirThenRmdirDot(m: Mount, ghost tree: Tree, ghost depth: map<nat, nat>, garbage: Byte)
    returns (s: Status, s': Status)
    requires Live(m, tree, depth)
    modifies m, m.part
    ensures s.Done? ==> s' == Lost(Dangling) && !SomeWorld(m.part.disk, m.part.inodes)
  {
    var no;
    ghost var tree', depth';
    s' := Stopped;
    s, no, tree', depth' := SysMkdir(m, tree, depth, [SLASH] + A, garbage);
    if s.Done? {
      DotExample(tree', depth', no);
      s', no, tree', depth' := SysRmdir(m, tree', depth', [SLASH] + A + [SLASH] + DOT);
    }
  }

  const A: Name := [97]

  lemma ExamplePaths()
    ensures Components([SLASH] + A) == [A] && Components([SLASH] + A + [SLASH] + DOT) == [A, DOT]
    ensures !IsRoot([SLASH] + A + [SLASH] + DOT) && Searchable([SLASH] + A + [SLASH] + DOT)
  {
    assert Print([]) == [] && [] + [SLASH] + A == [SLASH] + A;
    PrintSnoc([], A);
    PrintSnoc([A], DOT);
    assert [] + [A] == [A] && [A] + [DOT] == [A, DOT];
    ComponentsOfPrint([A]);
    ComponentsOfPrint([A, DOT]);
  }

  lemma DotVisit(tree: Tree, depth: map<nat, nat>, c: nat)
    requires Closed(tree) && Linked(tree, depth) && c in tree
    requires Visit(tree, 0, 0, [A]).outcome.Directory? && Visit(tree, 0, 0, [A]).outcome.ino == c
    ensures Visit(tree, 0, 0, [A, DOT]) == Trace(Directory(c, c), 2) && !Overlong(tree, [A, DOT])
  {
    assert LinkedAt(tree, depth, c) && RowOk(tree[c]);
    NameMapAt(tree[c], 0, DOT);
    VisitMore(tree, 0, 0, [A], DOT);
    assert [A] + [DOT] == [A, DOT];
    VisitEnds(tree, 0, 0, [A, DOT]);
  }

  lemma DotExample(tree: Tree, depth: map<nat, nat>, c: nat)
    requires Closed(tree) && Linked(tree, depth) && c in tree && c != 0 && EmptyRow(tree[c])
    requires Target(tree, [SLASH] + A).Directory? && Target(tree, [SLASH] + A).ino == c
    ensures var path := [SLASH] + A + [SLASH] + DOT;
            && DotRemoves(tree, path) && !BadPath(tree, path) && !LeadsToRoot(tree, path)
            && Target(tree, path).Directory? && Target(tree, path).ino == c
  {
    ExamplePaths();
    DotVisit(tree, depth, c);
  }

  /** The entries of a directory without files. */
  ghost function DotsOnly(j: nat, a: nat): (row: seq<Entry>)
    ensures NewRow(row, j, a)
  {
    var row := seq(CAPACITY, x => if x == 0 then Entry(DOT, j, FT_DIRECTORY)
                                  else if x == 1 then Entry(DOTDOT, a, FT_DIRECTORY) else Free);
    NewDirs.DotsOk(row, j, a, NewDirs.NoSectors()[0 := 1], 1);
    row
  }

  lemma OneMoreName(row: seq<Entry>, j: nat)
    requires row == DotsOnly(0, 0)
    ensures RowOk(row[2 := Entry(A, j, FT_DIRECTORY)])
  {
    var row' := row[2 := Entry(A, j, FT_DIRECTORY)];
    forall x, y ensures !SameName(row', x, y) && !SameIno(row', x, y) {
      assert !SameName(row, x, y);
    }
  }

  /** The tree with the root and one empty directory, "/a". */
  ghost function SmallTree(): Tree {
    WithDir(map[0 := DotsOnly(0, 0)], 0, 2, Entry(A, 1, FT_DIRECTORY), DotsOnly(1, 0))
  }

  /** There is such a tree and such a path: "/a/.". */
  lemma DotRemovesExample()
    ensures TreeOk(SmallTree(), map[0 := 0, 1 := 1], {0, 1}) && DotRemoves(SmallTree(), [SLASH] + A + [SLASH] + DOT)
  {
    var row, e := DotsOnly(0, 0), Entry(A, 1, FT_DIRECTORY);
    var tree: Tree := map[0 := row];
    RootOnly(row);
    OneMoreName(row, 1);
    DirEntered(tree, map[0 := 0], {0}, 0, 2, e, DotsOnly(1, 0));
    assert map[0 := 0][1 := 1] == map[0 := 0, 1 := 1] && {0} + {1} == {0, 1};
    DirIsEntered(tree, 0, 2, e, DotsOnly(1, 0));
    ExamplePaths();
    RootLacks(tree);
    VisitEntered(tree, SmallTree(), 0, e, 0, 0, [A]);
    DotExample(SmallTree(), map[0 := 0, 1 := 1], 1);
  }

  lemma RootLacks(tree: Tree)
    requires Closed(tree) && tree == map[0 := DotsOnly(0, 0)]
    ensures Visit(tree, 0, 0, [A]) == Trace(Missing(0), 1)
  {
    forall x: nat ensures !Named(tree[0], x, A) {
    }
    NameMapHas(tree[0], A);
  }

  // ---------------------------------------------------------------- descriptors

  /** What an append to the file f of the table does to the contents of the files and to the position. */
  ghost predicate Wrote(d: Disk, d': Disk, inodes: map<nat, Inode>, inodes': map<nat, Inode>, dirs: set<nat>,
                        f: OpenFile, buf: seq<Byte>, pos: nat)
  {
    && Files.Appended(d, d', inodes, inodes', f.no, buf) && f.no in inodes'
    && inodes'[f.no].size < Files.MAX_SIZE && pos == Files.U32(inodes'[f.no].size - 1)
    && Grew(FilesOf(d, inodes, dirs), FilesOf(d', inodes', dirs), f.no, buf)
  }

  /** file_write, once the flags were tested. */
  method WriteSlot(m: Mount, ghost tree: Tree, ghost depth: map<nat, nat>, fd: nat, buf: seq<Byte>)
    returns (s: Status, pos: nat)
    requires Live(m, tree, depth) && |buf| < WORDS && IsOpen(m.table, fd)
    modifies m.part
    ensures s.Refused? || s.Done? ==> Intact(m.part, tree, depth) && m.part.inodes.Keys == old(m.part.inodes.Keys)
    ensures s.Refused? ==> m.part.disk == old(m.part.disk) && m.part.inodes == old(m.part.inodes)
    ensures var f := m.table[fd].value;
            && f.no in old(m.part.inodes) && |old(m.part.inodes)[f.no].sectors| == 13 && !s.Lost?
            && (s.Refused? <==> Files.MAX_SIZE < old(m.part.inodes)[f.no].size + |buf| < WORDS)
            && (s.Stopped? <==> Files.Stops(old(m.part.inodes)[f.no], |buf|, FreeBits(old(m.part.bits))))
            && (s.Done? ==> Wrote(old(m.part.disk), m.part.disk, old(m.part.inodes), m.part.inodes, tree.Keys, f, buf,
                                  pos))
  {
    var f := m.table[fd].value;
    SlotFile(m.table, m.part.inodes, tree, fd);
    var w;
    w, pos := Worlds.Write(m.part, tree, depth, f.no, buf);
    s := if w.Written? then Done else if w.Failed? then Refused else Stopped;
  }

  /** How sys_write ends for file f, whose inode is n, with so many blocks free. */
  ghost predicate WriteEnds(s: Status, n: Inode, f: OpenFile, count: nat, free: nat) {
    && |n.sectors| == 13 && !s.Lost?
    && (s.Refused? <==> !Writes(f.flags) || Files.MAX_SIZE < n.size + count < WORDS)
    && (s.Stopped? <==> Writes(f.flags) && Files.Stops(n, count, free))
  }

  /** The position after the append. */
  method MoveOn(m: Mount, ghost tree: Tree, ghost depth: map<nat, nat>, fd: nat, pos: nat, ghost d: Disk,
                ghost inodes: map<nat, Inode>, ghost buf: seq<Byte>)
    requires Intact(m.part, tree, depth) && Opened(m.openInodes, m.table, inodes, tree) && IsOpen(m.table, fd)
    requires m.part.inodes.Keys == inodes.Keys
    requires Wrote(d, m.part.disk, inodes, m.part.inodes, tree.Keys, m.table[fd].value, buf, pos)
    modifies m`openInodes, m`table
    ensures Live(m, tree, depth) && m.openInodes == old(m.openInodes)
    ensures m.table == old(m.table)[fd := Some(old(m.table)[fd].value.(pos := pos))]
  {
    PosAfter(m.part.inodes[m.table[fd].value.no].size);
    MoveTo(m, tree, depth, fd, pos, inodes);
  }

  /** The same, and the position. */
  method WriteOpen(m: Mount, ghost tree: Tree, ghost depth: map<nat, nat>, fd: nat, buf: seq<Byte>)
    returns (s: Status, pos: nat)
    requires Live(m, tree, depth) && |buf| < WORDS && IsOpen(m.table, fd) && Writes(m.table[fd].value.flags)
    modifies m`openInodes, m`table, m.part
    ensures m.openInodes == old(m.openInodes) && (s.Refused? || s.Done? ==> Live(m, tree, depth))
    ensures s.Refused? ==> m.part.disk == old(m.part.disk) && m.part.inodes == old(m.part.inodes)
                           && m.table == old(m.table)
    ensures old(m.table)[fd].value.no in old(m.part.inodes)
    ensures WriteEnds(s, old(m.part.inodes)[old(m.table)[fd].value.no], old(m.table)[fd].value, |buf|,
                      FreeBits(old(m.part.bits)))
    ensures s.Done? ==> Wrote(old(m.part.disk), m.part.disk, old(m.part.inodes), m.part.inodes, tree.Keys,
                              old(m.table)[fd].value, buf, pos)
    ensures s.Done? ==> m.table == old(m.table)[fd := Some(old(m.table)[fd].value.(pos := pos))]
  {
    ghost var d, inodes := m.part.disk, m.part.inodes;
    s, pos := WriteSlot(m, tree, depth, fd, buf);
    if s.Done? {
      MoveOn(m, tree, depth, fd, pos, d, inodes, buf);
    }
  }

  /** sys_write to the file in slot fd of the table.  The descriptor of a process that has closed the file fails the
      assertion of fd_local2global. */
  method SysWrite(m: Mount, ghost tree: Tree, ghost depth: map<nat, nat>, fd: nat, buf: seq<Byte>)
    returns (s: Status, pos: nat)
    requires Live(m, tree, depth) && |buf| < WORDS
    modifies m`openInodes, m`table, m.part
    ensures m.openInodes == old(m.openInodes) && (s.Refused? || s.Done? ==> Live(m, tree, depth))
    ensures s.Refused? ==> m.part.disk == old(m.part.disk) && m.part.inodes == old(m.part.inodes)
                           && m.table == old(m.table)
    ensures !IsOpen(old(m.table), fd) ==> s.Stopped?
    ensures IsOpen(old(m.table), fd) ==>
              var f := old(m.table)[fd].value;
              && f.no in old(m.part.inodes)
              && WriteEnds(s, old(m.part.inodes)[f.no], f, |buf|, FreeBits(old(m.part.bits)))
              && (s.Done? ==> Wrote(old(m.part.disk), m.part.disk, old(m.part.inodes), m.part.inodes, tree.Keys, f, buf,
                                    pos)
                              && m.table == old(m.table)[fd := Some(f.(pos := pos))])
  {
    pos := 0;
    if !IsOpen(m.table, fd) {
      return Stopped, pos;
    }
    if !Writes(m.table[fd].value.flags) {
      SlotFile(m.table, m.part.inodes, tree, fd);
      assert FileAt(m.part.disk, m.part.inodes, m.table[fd].value.no);
      return Refused, pos;
    }
    s, pos := WriteOpen(m, tree, depth, fd, buf);
  }

  /** sys_close of the file in slot fd of the table. */
  method SysClose(m: Mount, ghost tree: Tree, ghost depth: map<nat, nat>, fd: nat) returns (s: Status)
    requires Live(m, tree, depth)
    modifies m
    ensures Live(m, tree, depth) && (s.Stopped? <==> !IsOpen(old(m.table), fd))
            && (s.Done? <==> IsOpen(old(m.table), fd))
    ensures s.Done? ==> OnceMore(m.openInodes, old(m.openInodes), old(m.table)[fd].value.no)
                        && m.table == old(m.table)[fd := None]
    ensures s.Done? ==> m.denied == old(m.denied) - {old(m.table)[fd].value.no}
    ensures s.Stopped? ==> m.openInodes == old(m.openInodes) && m.table == old(m.table) && m.denied == old(m.denied)
  {
    if !IsOpen(m.table, fd) {
      return Stopped;
    }
    var no := m.table[fd].value.no;
    assert SlotOk(m.table[fd], m.part.inodes, tree);
    HeldSome(m.table, no);
    assert Holding(m.table[fd], no) && Count(m.openInodes, no) == Held(m.table, no);
    CloseKeeps(m.openInodes, m.part.inodes, no);
    m.denied := m.denied - {no};
    var os' := InodeClose(m.openInodes, no);
    FileClosed(m.openInodes, os', m.table, m.part.inodes, tree, fd);
    m.openInodes, m.table := os', m.table[fd := None];
    s := Done;
  }

  lemma IsFile(tree: Tree, depth: map<nat, nat>, used: set<nat>, path: Name, r: Search)
    requires TreeOk(tree, depth, used) && r.Hit? && r.ftype == FT_REGULAR && Components(path) != []
    requires FoundIs(tree, path, r, LastLookedUp(tree, path))
    ensures r.ino in used && r.ino !in tree
  {
    var y := SlotOf(tree, depth, used, r.parent, LastLookedUp(tree, path), r.ino, FT_REGULAR);
    assert LinkOk(tree, used, r.parent, y);
  }
}
