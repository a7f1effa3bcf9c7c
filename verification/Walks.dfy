/** fs/fs.c: walking the directory tree down a path, and up again to the root. */
module Walks {
  import opened Disks
  import opened InodeTable
  import opened OpenInodes
  import opened Volumes
  import opened Entries
  import opened DirSlots
  import opened Dirs
  import opened Paths
  import opened Options
  import DirDeletes

  const MAX_PATH_LEN := 512

  // ---------------------------------------------------------------- the tree

  /** The entries of every directory, by inode number. */
  type Tree = map<nat, seq<Entry>>

  /** Every entry is a regular file, or a directory of the tree. */
  ghost predicate EntryOk(tree: Tree, e: Entry) {
    e.Entry? ==> e.ftype == FT_REGULAR || (e.ftype == FT_DIRECTORY && e.ino in tree)
  }

  ghost predicate Shaped(row: seq<Entry>) {
    |row| == CAPACITY && row[0].Entry? && row[1].Entry?
  }

  /** Well-formed directories, the root among them, whose entries lead nowhere else. */
  ghost predicate Closed(tree: Tree) {
    && 0 in tree
    && (forall i {:trigger tree[i]} :: i in tree ==> Shaped(tree[i]))
    && (forall i {:trigger RowOk(tree[i])} :: i in tree ==> RowOk(tree[i]))
    && (forall i, x {:trigger EntryOk(tree, tree[i][x])} :: i in tree && 0 <= x < |tree[i]| ==>
          EntryOk(tree, tree[i][x]))
  }

  /** The tree is what is on the disk. */
  ghost predicate Shows(d: Disk, inodes: map<nat, Inode>, tree: Tree) {
    forall i {:trigger ShowsAt(d, inodes, i, tree[i])} :: i in tree ==> ShowsAt(d, inodes, i, tree[i])
  }

  ghost predicate ShowsAt(d: Disk, inodes: map<nat, Inode>, i: nat, row: seq<Entry>) {
    i in inodes && |inodes[i].sectors| == 13 && DirOk(d, inodes[i]) && View(d, inodes[i].sectors) == row
  }

  lemma LookupOk(tree: Tree, i: nat, name: Name)
    requires Closed(tree) && i in tree && name in NameMap(tree[i])
    ensures var e := NameMap(tree[i])[name]; e.Entry? && e.name == name && EntryOk(tree, e)
  {
    NameMapHas(tree[i], name);
    var x: nat :| Named(tree[i], x, name) && NameMap(tree[i])[name] == tree[i][x];
  }

  // ---------------------------------------------------------------- what a path means

  /** Missing: a component is not in directory `parent`.  File: a component is a regular file.
      Directory: all components were directories. */
  datatype Outcome = Missing(parent: nat) | File(ino: nat, parent: nat) | Directory(ino: nat, parent: nat)

  /** The outcome, and how many components were looked up. */
  datatype Trace = Trace(outcome: Outcome, visited: nat)

  /** Follow the components cs from directory `at`, which was entered from `parent`. */
  ghost function Visit(tree: Tree, at: nat, parent: nat, cs: seq<Name>): (t: Trace)
    requires Closed(tree) && at in tree
    ensures t.visited <= |cs|
    decreases |cs|
  {
    if cs == [] then Trace(Directory(at, parent), 0)
    else if cs[0] !in NameMap(tree[at]) then Trace(Missing(at), 1)
    else
      LookupOk(tree, at, cs[0]);
      var e := NameMap(tree[at])[cs[0]];
      if e.ftype == FT_DIRECTORY then
        var t := Visit(tree, e.ino, at, cs[1..]);
        t.(visited := t.visited + 1)
      else Trace(File(e.ino, at), 1)
  }

  // ---------------------------------------------------------------- search_file

  /** Panic: an assertion failed.  Overrun: a component did not fit the name buffer with its terminator.  Garbage: the
      number returned was never set.  Hit: an inode number, with parent_dir and file_type.  Miss: -1, with
      parent_dir. */
  datatype Search = Panic | Overrun | Garbage | Hit(ino: nat, parent: nat, ftype: nat) | Miss(parent: nat)

  predicate IsRoot(path: Name) {
    path == [SLASH] || path == [SLASH] + DOT || path == [SLASH] + DOTDOT
  }

  predicate Searchable(path: Name) {
    1 < |path| < MAX_PATH_LEN && path[0] == SLASH
  }

  function Answer(o: Outcome): Search {
    match o
    case Missing(parent) => Miss(parent)
    case File(ino, parent) => Hit(ino, parent, FT_REGULAR)
    case Directory(ino, parent) => Hit(ino, parent, FT_DIRECTORY)
  }

  /** What search_file makes of a path. */
  ghost predicate SearchIs(tree: Tree, path: Name, r: Search, searched: Name)
    requires Closed(tree)
  {
    if IsRoot(path) then r == Hit(0, 0, FT_DIRECTORY) && searched == []
    else if !Searchable(path) then r.Panic?
    else if Components(path) == [] then r.Garbage? && searched == []
    else Judged(tree, Components(path), r, searched)
  }

  /** The components that search_file cuts off: those it looks up, and one more behind a regular file. */
  ghost function Parsed(tree: Tree, cs: seq<Name>): (n: nat)
    requires Closed(tree)
    ensures n <= |cs|
  {
    var t := Visit(tree, 0, 0, cs);
    if t.outcome.File? && t.visited < |cs| then t.visited + 1 else t.visited
  }

  /** One of them has 16 bytes or more. */
  ghost predicate Overlong(tree: Tree, cs: seq<Name>)
    requires Closed(tree)
  {
    !Within(cs[..Parsed(tree, cs)], MAX_NAME - 1)
  }

  /** Where the loop of search_file stands: `done` was followed to directory `at`, `todo` is left. */
  ghost predicate OnTheWay(tree: Tree, cs: seq<Name>, done: seq<Name>, todo: seq<Name>, at: nat, parent: nat)
    requires Closed(tree)
  {
    && cs == done + todo && at in tree
    && Visit(tree, 0, 0, cs) == var t := Visit(tree, at, parent, todo); t.(visited := t.visited + |done|)
  }

  lemma StepDown(tree: Tree, cs: seq<Name>, done: seq<Name>, name: Name, rest: seq<Name>, at: nat, parent: nat)
    requires Closed(tree) && OnTheWay(tree, cs, done, [name] + rest, at, parent)
    requires name in NameMap(tree[at]) && NameMap(tree[at])[name].Entry?
             && NameMap(tree[at])[name].ftype == FT_DIRECTORY
    ensures OnTheWay(tree, cs, done + [name], rest, NameMap(tree[at])[name].ino, at)
  {
    LookupOk(tree, at, name);
    assert ([name] + rest)[1..] == rest && done + [name] + rest == done + ([name] + rest);
  }

  lemma StopHere(tree: Tree, cs: seq<Name>, done: seq<Name>, name: Name, rest: seq<Name>, at: nat, parent: nat)
    requires Closed(tree) && OnTheWay(tree, cs, done, [name] + rest, at, parent)
    requires name in NameMap(tree[at]) ==> NameMap(tree[at])[name].Entry?
                                           && NameMap(tree[at])[name].ftype != FT_DIRECTORY
    ensures var t := Visit(tree, 0, 0, cs);
            && t.visited == |done| + 1 && cs[..|done| + 1] == done + [name]
            && t.outcome == if name in NameMap(tree[at]) then File(NameMap(tree[at])[name].ino, at) else Missing(at)
  {
    assert ([name] + rest)[0] == name;
  }

  /** search_dir_entry in directory `at` of the tree, which is open. */
  method Lookup(d: Disk, inodes: map<nat, Inode>, ghost tree: Tree, at: nat, name: Name) returns (r: Option<Entry>)
    requires Closed(tree) && Shows(d, inodes, tree) && at in tree && name != []
    ensures r.Some? <==> name in NameMap(tree[at])
    ensures r.Some? ==> r.value == NameMap(tree[at])[name] && r.value.Entry? && EntryOk(tree, r.value)
  {
    assert ShowsAt(d, inodes, at, tree[at]);
    r := SearchDirEntry(d, inodes[at], name);
    if r.Some? {
      LookupOk(tree, at, name);
    }
  }

  /** The answer of search_file for a path with components. */
  ghost predicate Answers(tree: Tree, cs: seq<Name>, r: Search, searched: Name)
    requires Closed(tree)
  {
    var t := Visit(tree, 0, 0, cs);
    r == Answer(t.outcome) && searched == Print(cs[..t.visited])
  }

  /** The walk ended at name. */
  ghost predicate Ended(tree: Tree, cs: seq<Name>, done: seq<Name>, name: Name, r: Search)
    requires Closed(tree)
  {
    var t := Visit(tree, 0, 0, cs);
    && t.visited == |done| + 1 <= |cs| && cs[..|done| + 1] == done + [name]
    && (r.Miss? <==> t.outcome.Missing?) && (r.Hit? <==> t.outcome.File?)
  }

  /** One round of the loop of search_file: next is the inode if it is a directory, otherwise the search is over. */
  method Round(d: Disk, inodes: map<nat, Inode>, ghost tree: Tree, at: nat, ghost parent: nat, name: Name,
               printed: Name, ghost cs: seq<Name>, ghost done: seq<Name>, ghost rest: seq<Name>)
    returns (next: Option<nat>, r: Search, searched: Name)
    requires Closed(tree) && Shows(d, inodes, tree) && name != [] && printed == Print(done)
    requires OnTheWay(tree, cs, done, [name] + rest, at, parent)
    ensures next.None? ==> Answers(tree, cs, r, searched) && Ended(tree, cs, done, name, r) && (r.Hit? || r.Miss?)
                           && r.parent == at && !Reaches(r)
    ensures next.Some? ==> OnTheWay(tree, cs, done + [name], rest, next.value, at) && searched == Print(done + [name])
    ensures |searched| == |printed| + 1 + |name|
  {
    PrintSnoc(done, name);
    searched := printed + [SLASH] + name;
    r := Garbage;
    var e := Lookup(d, inodes, tree, at, name);
    if e.None? || e.value.ftype != FT_DIRECTORY {
      StopHere(tree, cs, done, name, rest, at, parent);
      return None, if e.None? then Miss(at) else Hit(e.value.ino, at, FT_REGULAR), searched;
    }
    StepDown(tree, cs, done, name, rest, at, parent);
    next := Some(e.value.ino);
  }

  lemma Arrived(tree: Tree, cs: seq<Name>, done: seq<Name>, at: nat, parent: nat)
    requires Closed(tree) && OnTheWay(tree, cs, done, [], at, parent) && Within(done, MAX_NAME - 1)
    ensures cs == done && Answers(tree, cs, Hit(at, parent, FT_DIRECTORY), Print(done)) && !Overlong(tree, cs)
  {
    assert cs[..|cs|] == cs;
  }

  /** After the last lookup, the next component matters only behind a regular file. */
  lemma JudgeEnd(tree: Tree, cs: seq<Name>, done: seq<Name>, name: Name, rest: seq<Name>, r: Search)
    requires Closed(tree) && cs == done + ([name] + rest) && Ended(tree, cs, done, name, r)
    requires Within(done, MAX_NAME - 1) && |name| < MAX_NAME
    ensures Overlong(tree, cs) <==> r.Hit? && rest != [] && |rest[0]| >= MAX_NAME
  {
    var n := |done| + 1;
    assert Within(cs[..n], MAX_NAME - 1);
    if r.Hit? && rest != [] {
      assert cs[n] == rest[0] && cs[..n + 1] == cs[..n] + [rest[0]];
      assert cs[..n + 1][n] == rest[0];
    }
  }

  /** A component that will be looked up. */
  lemma JudgeNext(tree: Tree, cs: seq<Name>, done: seq<Name>, name: Name, rest: seq<Name>, at: nat, parent: nat)
    requires Closed(tree) && OnTheWay(tree, cs, done, [name] + rest, at, parent) && |name| >= MAX_NAME
    ensures Overlong(tree, cs)
  {
    assert Parsed(tree, cs) > |done|;
    assert cs[|done|] == name && cs[..Parsed(tree, cs)][|done|] == name;
  }

  /** What search_file makes of a path with components. */
  ghost predicate Judged(tree: Tree, cs: seq<Name>, r: Search, searched: Name)
    requires Closed(tree)
  {
    if Overlong(tree, cs) then r.Overrun? else Answers(tree, cs, r, searched)
  }

  /** The state of the loop: name was cut off, sub_path is left, and searched was printed. */
  ghost predicate Underway(tree: Tree, cs: seq<Name>, done: seq<Name>, name: Name, sub_path: Option<Name>, at: nat,
                           parent: nat, searched: Name)
    requires Closed(tree)
  {
    && OnTheWay(tree, cs, done, Todo(name, sub_path), at, parent) && searched == Print(done)
    && Within(done, MAX_NAME - 1) && |name| < MAX_NAME && Slashed(sub_path)
  }

  lemma StartsOut(tree: Tree, path: Name, name: Name, sub_path: Option<Name>)
    requires Closed(tree) && Todo(name, sub_path) == Components(path) && Slashed(sub_path)
    ensures |name| < MAX_NAME ==> Underway(tree, Components(path), [], name, sub_path, 0, 0, [])
    ensures |name| >= MAX_NAME ==> Overlong(tree, Components(path))
  {
    if |name| >= MAX_NAME {
      JudgeNext(tree, Components(path), [], name, Components(Rest(sub_path)), 0, 0);
    }
  }

  /** The next component is cut off: it may be too long, and the search may be over. */
  lemma MovesOn(tree: Tree, cs: seq<Name>, done: seq<Name>, name: Name, sub_path: Option<Name>, next: Option<nat>,
                at: nat, r: Search, searched: Name, name': Name, sub_path': Option<Name>)
    requires Closed(tree) && Within(done, MAX_NAME - 1) && 0 < |name| < MAX_NAME
             && cs == done + ([name] + Components(Rest(sub_path)))
    requires next.None? ==> Answers(tree, cs, r, searched) && Ended(tree, cs, done, name, r) && r.Hit?
    requires next.Some? ==> OnTheWay(tree, cs, done + [name], Components(Rest(sub_path)), next.value, at)
                            && searched == Print(done + [name])
    requires Slashed(sub_path') && Todo(name', sub_path') == Components(Rest(sub_path))
    ensures |name'| >= MAX_NAME ==> Overlong(tree, cs)
    ensures |name'| < MAX_NAME && next.None? ==> Judged(tree, cs, r, searched)
    ensures |name'| < MAX_NAME && next.Some? ==>
              Underway(tree, cs, done + [name], name', sub_path', next.value, at, searched)
  {
    if next.None? {
      JudgeEnd(tree, cs, done, name, Components(Rest(sub_path)), r);
    } else if |name'| >= MAX_NAME {
      JudgeNext(tree, cs, done + [name], name', Components(Rest(sub_path')), next.value, at);
    }
  }

  /** The whole of a round: the search goes on in directory next, or is over. */
  method Advance(d: Disk, inodes: map<nat, Inode>, ghost tree: Tree, at: nat, ghost parent: nat, name: Name,
                 sub_path: Option<Name>, printed: Name, ghost cs: seq<Name>, ghost done: seq<Name>)
    returns (next: Option<nat>, r: Search, searched: Name, name': Name, sub_path': Option<Name>)
    requires Closed(tree) && Shows(d, inodes, tree) && name != []
    requires Underway(tree, cs, done, name, sub_path, at, parent, printed)
    ensures next.None? ==> Judged(tree, cs, r, searched)
    ensures next.None? && (r.Hit? || r.Miss?) ==> r.parent == at && Visit(tree, 0, 0, cs).visited == |done| + 1
                                                  && !Reaches(r)
    ensures next.Some? ==> Underway(tree, cs, done + [name], name', sub_path', next.value, at, searched)
    ensures next.Some? ==> |searched| + Ahead(name', sub_path') <= |printed| + Ahead(name, sub_path)
    ensures next.Some? && name' != [] ==> |Rest(sub_path')| < |Rest(sub_path)|
  {
    name', sub_path' := [], None;
    ghost var rest := Components(Rest(sub_path));
    next, r, searched := Round(d, inodes, tree, at, parent, name, printed, cs, done, rest);
    if next.None? && r.Miss? {
      JudgeEnd(tree, cs, done, name, rest, r);
      return;
    }
    sub_path', name' := NextName(sub_path);
    MovesOn(tree, cs, done, name, sub_path, next, at, r, searched, name', sub_path');
    if |name'| >= MAX_NAME {
      next, r := None, Overrun;
    }
  }

  /** A directory of the tree can be opened. */
  lemma InTree(d: Disk, inodes: map<nat, Inode>, tree: Tree, i: nat)
    requires Shows(d, inodes, tree) && i in tree
    ensures i in inodes
  {
    assert ShowsAt(d, inodes, i, tree[i]);
  }

  predicate Reaches(r: Search) {
    r.Hit? && r.ftype == FT_DIRECTORY
  }

  /** What search_file leaves open: the directory it returns as the parent.  That is not opened if it is the root and
      the path has led to no directory. */
  ghost predicate LeavesOpen(inodes: map<nat, Inode>, os: OpenList, os': OpenList, dir: Dir, r: Search, tree: Tree,
                             path: Name)
    requires Closed(tree)
  {
    && Fresh(os', inodes) && Holds(os, os', dir) && (r.Hit? || r.Miss? ==> dir.Number() == r.parent)
    && ((r.Hit? || r.Miss?) && !Reaches(r) ==> (dir.RootDir? <==> Visit(tree, 0, 0, Components(path)).visited == 1))
  }

  /** The loop of search_file; dir is parent_dir, parent is parent_inode_no, and last is the i_no of dir_e. */
  method Descend(d: Disk, t: nat, inodes: map<nat, Inode>, os: OpenList, ghost tree: Tree, path: Name)
    returns (r: Search, searched: Name, dir: Dir, os': OpenList)
    requires Closed(tree) && Shows(d, inodes, tree) && Recorded(d, t, inodes) && Fresh(os, inodes) && Searchable(path)
    ensures if Components(path) == [] then r.Garbage? && searched == [] else Judged(tree, Components(path), r, searched)
    ensures LeavesOpen(inodes, os, os', dir, r, tree, path)
  {
    searched, dir, os' := [], RootDir, os;
    var parent, last := 0, None;
    var sub_path, name := NextName(Some(path));
    ghost var done: seq<Name> := [];
    ghost var cs := Components(path);
    StartsOut(tree, path, name, sub_path);
    if |name| >= MAX_NAME {
      return Overrun, searched, dir, os';
    }
    while name != []
      invariant Underway(tree, cs, done, name, sub_path, dir.Number(), parent, searched) && parent in tree
      invariant last == if done == [] then None else Some(dir.Number())
      invariant |searched| + Ahead(name, sub_path) <= |path| && Walked(inodes, os, os', dir, done)
      decreases |name| > 0, |Rest(sub_path)|
    {
      if |searched| >= 512 {
        return Search.Panic, searched, dir, os';
      }
      ghost var done' := done + [name];
      var next;
      next, r, searched, name, sub_path := Advance(d, inodes, tree, dir.Number(), parent, name, sub_path, searched,
                                                   cs, done);
      if next.None? {
        return;
      }
      done := done';
      parent, last := dir.Number(), next;
      dir, os' := StepInto(d, t, inodes, os', tree, dir, next.value, os, done);
    }
    Arrived(tree, cs, done, dir.Number(), parent);
    r := if last.None? then Garbage else Hit(last.value, parent, FT_DIRECTORY);
    dir, os' := StepInto(d, t, inodes, os', tree, dir, parent, os, [[]]);
  }

  /** The list of open inodes on the way, after the components in done. */
  ghost predicate Walked(inodes: map<nat, Inode>, os: OpenList, os': OpenList, dir: Dir, done: seq<Name>) {
    Fresh(os', inodes) && Holds(os, os', dir) && (dir.RootDir? <==> done == [])
  }

  /** dir_close and dir_open of another directory of the tree. */
  method StepInto(d: Disk, t: nat, inodes: map<nat, Inode>, os: OpenList, ghost tree: Tree, dir: Dir, no: nat,
                  ghost os0: OpenList, ghost done: seq<Name>)
    returns (dir': Dir, os': OpenList)
    requires Shows(d, inodes, tree) && Recorded(d, t, inodes) && Fresh(os, inodes) && Holds(os0, os, dir)
             && no in tree && done != []
    ensures dir' == Heap(no) && Walked(inodes, os0, os', dir', done)
  {
    InTree(d, inodes, tree, no);
    dir', os' := Exchange(d, t, inodes, os, dir, no, os0);
  }

  /** search_file; dir is the parent_dir of the record, and os' the list of open inodes after the call. */
  method SearchFile(d: Disk, t: nat, inodes: map<nat, Inode>, os: OpenList, ghost tree: Tree, path: Name)
    returns (r: Search, searched: Name, dir: Dir, os': OpenList)
    requires Closed(tree) && Shows(d, inodes, tree) && Recorded(d, t, inodes) && Fresh(os, inodes)
    ensures SearchIs(tree, path, r, searched) && LeavesOpen(inodes, os, os', dir, r, tree, path)
  {
    if IsRoot(path) {
      return Hit(0, 0, FT_DIRECTORY), [], RootDir, os;
    }
    if !Searchable(path) {
      return Search.Panic, [], RootDir, os;
    }
    r, searched, dir, os' := Descend(d, t, inodes, os, tree, path);
  }

  /** The printed path has the components that were looked up, so equal depths mean that the last component
      was reached. */
  lemma DepthTest(tree: Tree, path: Name, r: Search, searched: Name)
    requires Closed(tree) && SearchIs(tree, path, r, searched) && Searchable(path) && !IsRoot(path)
             && Components(path) != []
    requires !Overlong(tree, Components(path))
    ensures var cs, t := Components(path), Visit(tree, 0, 0, Components(path));
            && Components(searched) == cs[..t.visited]
            && (|Components(searched)| == |cs| <==> t.visited == |cs|)
  {
    var cs, t := Components(path), Visit(tree, 0, 0, Components(path));
    ComponentsProper(path);
    ComponentsOfPrint(cs[..t.visited]);
  }
}
