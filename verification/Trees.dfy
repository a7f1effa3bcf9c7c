/** What the directory tree keeps while entries come and go. */
module Trees {
  import opened Disks
  import opened InodeTable
  import opened Entries
  import opened Paths
  import opened Walks
  import opened WorkingDirs

  // ---------------------------------------------------------------- the invariant

  /** Slot x of directory a has an entry other than "." and "..". */
  ghost predicate Link(tree: Tree, a: nat, x: nat) {
    a in tree && 2 <= x < |tree[a]| && tree[a][x].Entry?
  }

  /** It leads to an inode in use: to a directory of the tree, or to a regular file, which is not one. */
  ghost predicate LinkOk(tree: Tree, used: set<nat>, a: nat, x: nat)
    requires Link(tree, a, x)
  {
    var e := tree[a][x];
    e.ino in used && 0 < e.ino < MAX_FILES_PER_PART && Proper(e.name) && |e.name| < MAX_NAME
    && (e.ftype == FT_REGULAR ==> e.ino !in tree)
  }

  /** Two entries lead to the same inode. */
  ghost predicate Twice(tree: Tree, a: nat, x: nat, b: nat, y: nat) {
    Link(tree, a, x) && Link(tree, b, y) && (a != b || x != y) && tree[a][x].ino == tree[b][y].ino
  }

  ghost predicate LinksOk(tree: Tree, used: set<nat>) {
    && tree.Keys <= used
    && (forall a, x {:trigger Link(tree, a, x)} :: Link(tree, a, x) ==> LinkOk(tree, used, a, x))
    && (forall a, x, b, y :: !Twice(tree, a, x, b, y))
  }

  /** Every directory but the root has one parent, one step nearer to the root, and one entry there; every
      entry leads to an inode in use, and no two to the same. */
  ghost predicate TreeOk(tree: Tree, depth: map<nat, nat>, used: set<nat>) {
    Closed(tree) && Linked(tree, depth) && LinksOk(tree, used)
  }

  // ---------------------------------------------------------------- one path for each directory

  /** An entry of a directory that leads to a directory is the one that its path goes through. */
  lemma ChildNames(tree: Tree, depth: map<nat, nat>, used: set<nat>, a: nat, y: nat)
    requires TreeOk(tree, depth, used) && Link(tree, a, y) && tree[a][y].ftype == FT_DIRECTORY
    ensures var i := tree[a][y].ino;
            i in tree && NamesTo(tree, depth, i) == NamesTo(tree, depth, a) + [tree[a][y].name]
  {
    var i := tree[a][y].ino;
    assert EntryOk(tree, tree[a][y]) && LinkOk(tree, used, a, y);
    FindsChild(tree, depth, i);
    assert LinkedAt(tree, depth, i);
    var p := ParentOf(tree[i]);
    var x := Where(tree[p], i, 0);
    assert Link(tree, p, x) && !Twice(tree, p, x, a, y);
  }

  /** Names without "." and ".." that lead from one directory to another are those between them. */
  lemma {:induction false} NamesBetween(tree: Tree, depth: map<nat, nat>, used: set<nat>, at: nat, parent: nat,
                                        cs: seq<Name>)
    requires TreeOk(tree, depth, used) && at in tree && Visit(tree, at, parent, cs).outcome.Directory?
    requires forall c <- cs :: c != DOT && c != DOTDOT
    ensures var i := Visit(tree, at, parent, cs).outcome.ino;
            i in tree && NamesTo(tree, depth, i) == NamesTo(tree, depth, at) + cs
    decreases |cs|
  {
    if cs != [] {
      LookupOk(tree, at, cs[0]);
      NameMapHas(tree[at], cs[0]);
      var y: nat :| Named(tree[at], y, cs[0]) && NameMap(tree[at])[cs[0]] == tree[at][y];
      assert RowOk(tree[at]) && cs[0] in cs;
      ChildNames(tree, depth, used, at, y);
      assert forall c <- cs[1..] :: c in cs;
      NamesBetween(tree, depth, used, tree[at][y].ino, at, cs[1..]);
      assert [cs[0]] + cs[1..] == cs;
    }
  }

  /** The path that sys_getcwd prints is the only one of its shape that leads to the directory. */
  lemma OnlyPath(tree: Tree, depth: map<nat, nat>, used: set<nat>, path: Name)
    requires TreeOk(tree, depth, used) && 0 in tree && Canonical(path)
    requires Visit(tree, 0, 0, Components(path)).outcome.Directory?
    ensures var i := Visit(tree, 0, 0, Components(path)).outcome.ino;
            i in tree && path == PathTo(tree, depth, i)
  {
    var cs := Components(path);
    if path == [SLASH] {
      SkipSlash(path);
      assert cs == [];
    } else {
      NamesBetween(tree, depth, used, 0, 0, cs);
      var i := Visit(tree, 0, 0, cs).outcome.ino;
      assert NamesTo(tree, depth, 0) == [];
      assert NamesTo(tree, depth, i) == cs;
    }
  }

  // ---------------------------------------------------------------- slot x of directory a changes

  lemma ChildStill(tree: Tree, tree': Tree, i: nat, p: nat)
    requires HasChild(tree, i, p) && i in tree' && p in tree' && |tree'[p]| == |tree[p]|
    requires forall x: nat :: ChildAt(tree, i, p, x) ==> tree'[p][x] == tree[p][x]
    ensures HasChild(tree', i, p)
  {
    var x: nat :| ChildAt(tree, i, p, x);
    assert ChildAt(tree', i, p, x);
  }

  /** Directory i is linked to its parent as before. */
  lemma LinkedStill(tree: Tree, tree': Tree, depth: map<nat, nat>, depth': map<nat, nat>, i: nat)
    requires Closed(tree) && Closed(tree') && i in tree && i in depth && LinkedAt(tree, depth, i)
    requires var p := ParentOf(tree[i]);
             && i in tree' && p in tree' && i in depth' && p in depth' && depth'[i] == depth[i] && depth'[p] == depth[p]
             && tree'[i][0] == tree[i][0] && tree'[i][1] == tree[i][1]
             && (i != 0 ==> HasChild(tree', i, p))
    ensures LinkedAt(tree', depth', i)
  {
  }

  ghost function SetIn(tree: Tree, a: nat, x: nat, e: Entry): Tree
    requires a in tree && x < |tree[a]|
  {
    tree[a := tree[a][x := e]]
  }

  lemma SetClosed(tree: Tree, a: nat, x: nat, e: Entry)
    requires Closed(tree) && a in tree && x < CAPACITY && RowOk(tree[a][x := e]) && EntryOk(tree, e)
    ensures |tree[a]| == CAPACITY && Closed(SetIn(tree, a, x, e))
  {
    var tree' := SetIn(tree, a, x, e);
    forall i, y | i in tree' && 0 <= y < |tree'[i]| ensures EntryOk(tree', tree'[i][y]) {
      assert i != a || y != x ==> EntryOk(tree, tree[i][y]);
    }
  }

  lemma SetLinkedAt(tree: Tree, depth: map<nat, nat>, a: nat, x: nat, e: Entry, i: nat)
    requires Closed(tree) && a in tree && 2 <= x < CAPACITY && |tree[a]| == CAPACITY && Closed(SetIn(tree, a, x, e))
    requires tree[a][x].Entry? ==> tree[a][x].ftype != FT_DIRECTORY
    requires i in tree && i in depth && LinkedAt(tree, depth, i)
    ensures LinkedAt(SetIn(tree, a, x, e), depth, i)
  {
    var tree' := SetIn(tree, a, x, e);
    SetRow(tree, a, x, e, i);
    if i != 0 {
      SetRow(tree, a, x, e, ParentOf(tree[i]));
      ChildStill(tree, tree', i, ParentOf(tree[i]));
    }
    LinkedStill(tree, tree', depth, depth, i);
  }

  lemma SetLinked(tree: Tree, depth: map<nat, nat>, a: nat, x: nat, e: Entry)
    requires Closed(tree) && Linked(tree, depth) && a in tree && 2 <= x < CAPACITY && |tree[a]| == CAPACITY
    requires Closed(SetIn(tree, a, x, e)) && (tree[a][x].Entry? ==> tree[a][x].ftype != FT_DIRECTORY)
    ensures Linked(SetIn(tree, a, x, e), depth)
  {
    forall i <- SetIn(tree, a, x, e) ensures LinkedAt(SetIn(tree, a, x, e), depth, i) {
      assert LinkedAt(tree, depth, i);
      SetLinkedAt(tree, depth, a, x, e, i);
    }
  }

  lemma SetRow(tree: Tree, a: nat, x: nat, e: Entry, i: nat)
    requires a in tree && x < |tree[a]| && i in tree
    ensures var row := SetIn(tree, a, x, e)[i];
            |row| == |tree[i]| && forall y :: 0 <= y < |row| ==> row[y] == if i == a && y == x then e else tree[i][y]
  {
  }

  /** A regular file gets an entry. */
  lemma FileEntered(tree: Tree, depth: map<nat, nat>, used: set<nat>, a: nat, x: nat, e: Entry)
    requires TreeOk(tree, depth, used) && a in tree && 2 <= x < CAPACITY && RowOk(tree[a][x := e]) && tree[a][x].Free?
    requires e.Entry? && e.ftype == FT_REGULAR && Proper(e.name) && |e.name| < MAX_NAME
             && 0 < e.ino < MAX_FILES_PER_PART && e.ino !in used
    ensures |tree[a]| == CAPACITY && TreeOk(SetIn(tree, a, x, e), depth, used + {e.ino})
  {
    SetClosed(tree, a, x, e);
    SetLinked(tree, depth, a, x, e);
    EnteredLinks(tree, used, a, x, e);
  }

  lemma EnteredLinks(tree: Tree, used: set<nat>, a: nat, x: nat, e: Entry)
    requires LinksOk(tree, used) && a in tree && 2 <= x < |tree[a]| && tree[a][x].Free?
    requires e.Entry? && e.ftype == FT_REGULAR && Proper(e.name) && |e.name| < MAX_NAME
             && 0 < e.ino < MAX_FILES_PER_PART && e.ino !in used
    ensures LinksOk(SetIn(tree, a, x, e), used + {e.ino})
  {
    var tree' := SetIn(tree, a, x, e);
    forall b, y {:trigger Link(tree', b, y)} | Link(tree', b, y) ensures LinkOk(tree', used + {e.ino}, b, y) {
      assert b != a || y != x ==> Link(tree, b, y);
    }
    forall b, y, c, z ensures !Twice(tree', b, y, c, z) {
      assert !Twice(tree, b, y, c, z);
      if Link(tree', b, y) && (b != a || y != x) {
        assert Link(tree, b, y);
      }
      if Link(tree', c, z) && (c != a || z != x) {
        assert Link(tree, c, z);
      }
    }
  }

  /** A regular file loses its entry, and its inode. */
  lemma FileRemoved(tree: Tree, depth: map<nat, nat>, used: set<nat>, a: nat, x: nat)
    requires TreeOk(tree, depth, used) && Link(tree, a, x) && x < CAPACITY && tree[a][x].ftype == FT_REGULAR
             && RowOk(tree[a][x := Free])
    ensures TreeOk(SetIn(tree, a, x, Free), depth, used - {tree[a][x].ino})
  {
    SetClosed(tree, a, x, Free);
    SetLinked(tree, depth, a, x, Free);
    RemovedLinks(tree, used, a, x);
  }

  lemma RemovedLinks(tree: Tree, used: set<nat>, a: nat, x: nat)
    requires LinksOk(tree, used) && Link(tree, a, x) && tree[a][x].ino !in tree
    ensures LinksOk(SetIn(tree, a, x, Free), used - {tree[a][x].ino})
  {
    var tree' := SetIn(tree, a, x, Free);
    forall b, y {:trigger Link(tree', b, y)} | Link(tree', b, y) ensures LinkOk(tree', used - {tree[a][x].ino}, b, y) {
      assert Link(tree, b, y) && !Twice(tree, a, x, b, y);
    }
    forall b, y, c, z ensures !Twice(tree', b, y, c, z) {
      assert !Twice(tree, b, y, c, z);
    }
  }

  // ---------------------------------------------------------------- directories come and go

  /** A new directory: "." and ".." and nothing else. */
  ghost predicate NewRow(row: seq<Entry>, j: nat, a: nat) {
    && RowOk(row) && row[0].ino == j && row[1].ino == a && row[0].ftype == FT_DIRECTORY && row[1].ftype == FT_DIRECTORY
    && forall y :: 2 <= y < |row| ==> row[y].Free?
  }

  /** The root alone is a tree. */
  lemma RootOnly(row: seq<Entry>)
    requires NewRow(row, 0, 0)
    ensures TreeOk(map[0 := row], map[0 := 0], {0})
  {
    var tree: Tree := map[0 := row];
    forall i, x | i in tree && 0 <= x < |tree[i]| ensures EntryOk(tree, tree[i][x]) {
    }
    forall a, x ensures !Link(tree, a, x) {
    }
  }

  ghost function WithDir(tree: Tree, a: nat, x: nat, e: Entry, row: seq<Entry>): Tree
    requires a in tree && x < |tree[a]| && e.Entry?
  {
    SetIn(tree, a, x, e)[e.ino := row]
  }

  lemma EnteredClosed(tree: Tree, a: nat, x: nat, e: Entry, row: seq<Entry>)
    requires Closed(tree) && a in tree && x < CAPACITY && RowOk(tree[a][x := e])
    requires e.Entry? && e.ftype == FT_DIRECTORY && e.ino !in tree && NewRow(row, e.ino, a)
    ensures |tree[a]| == CAPACITY && Closed(WithDir(tree, a, x, e, row))
  {
    var tree' := WithDir(tree, a, x, e, row);
    forall i, y | i in tree' && 0 <= y < |tree'[i]| ensures EntryOk(tree', tree'[i][y]) {
      if i != e.ino {
        SetRow(tree, a, x, e, i);
        assert EntryOk(tree, tree[i][y]);
      }
    }
    forall i <- tree' ensures RowOk(tree'[i]) {
    }
  }

  lemma EnteredLinkedAt(tree: Tree, depth: map<nat, nat>, a: nat, x: nat, e: Entry, row: seq<Entry>, i: nat)
    requires Closed(tree) && a in tree && a in depth && 2 <= x < CAPACITY && |tree[a]| == CAPACITY && tree[a][x].Free?
    requires e.Entry? && e.ino !in tree && NewRow(row, e.ino, a) && Closed(WithDir(tree, a, x, e, row))
    requires i in tree && i in depth && LinkedAt(tree, depth, i)
    ensures LinkedAt(WithDir(tree, a, x, e, row), depth[e.ino := depth[a] + 1], i)
  {
    var tree' := WithDir(tree, a, x, e, row);
    SetRow(tree, a, x, e, i);
    if i != 0 {
      SetRow(tree, a, x, e, ParentOf(tree[i]));
      ChildStill(tree, tree', i, ParentOf(tree[i]));
    }
    LinkedStill(tree, tree', depth, depth[e.ino := depth[a] + 1], i);
  }

  lemma NewLinkedAt(tree: Tree, depth: map<nat, nat>, a: nat, x: nat, e: Entry, row: seq<Entry>)
    requires a in tree && a in depth && 2 <= x < CAPACITY && |tree[a]| == CAPACITY && e.Entry?
             && e.ftype == FT_DIRECTORY
    requires Proper(e.name) && |e.name| < MAX_NAME && 0 < e.ino < MAX_FILES_PER_PART && e.ino !in tree
             && NewRow(row, e.ino, a)
    requires Closed(WithDir(tree, a, x, e, row))
    ensures LinkedAt(WithDir(tree, a, x, e, row), depth[e.ino := depth[a] + 1], e.ino)
  {
    var tree' := WithDir(tree, a, x, e, row);
    assert tree'[a] == tree[a][x := e];
    assert ChildAt(tree', e.ino, a, x);
  }

  lemma EnteredDirLinks(tree: Tree, used: set<nat>, a: nat, x: nat, e: Entry, row: seq<Entry>)
    requires LinksOk(tree, used) && a in tree && 2 <= x < |tree[a]| && tree[a][x].Free? && e.Entry?
             && NewRow(row, e.ino, a)
    requires e.ftype == FT_DIRECTORY && Proper(e.name) && |e.name| < MAX_NAME && 0 < e.ino < MAX_FILES_PER_PART
             && e.ino !in used
    ensures LinksOk(WithDir(tree, a, x, e, row), used + {e.ino})
  {
    var tree' := WithDir(tree, a, x, e, row);
    forall b, y {:trigger Link(tree', b, y)} | Link(tree', b, y) ensures LinkOk(tree', used + {e.ino}, b, y) {
      assert b != a || y != x ==> Link(tree, b, y);
    }
    forall b, y, c, z ensures !Twice(tree', b, y, c, z) {
      assert !Twice(tree, b, y, c, z);
      if Link(tree', b, y) && (b != a || y != x) {
        assert Link(tree, b, y);
      }
      if Link(tree', c, z) && (c != a || z != x) {
        assert Link(tree, c, z);
      }
    }
  }

  lemma EnteredLinked(tree: Tree, depth: map<nat, nat>, a: nat, x: nat, e: Entry, row: seq<Entry>)
    requires Closed(tree) && Linked(tree, depth) && a in tree && 2 <= x < CAPACITY && tree[a][x].Free?
    requires e.Entry? && e.ftype == FT_DIRECTORY && Proper(e.name) && |e.name| < MAX_NAME
             && 0 < e.ino < MAX_FILES_PER_PART && e.ino !in tree && NewRow(row, e.ino, a)
    requires Closed(WithDir(tree, a, x, e, row))
    ensures Linked(WithDir(tree, a, x, e, row), depth[e.ino := depth[a] + 1])
  {
    var tree', depth' := WithDir(tree, a, x, e, row), depth[e.ino := depth[a] + 1];
    EnteredKeys(tree, depth, a, x, e, row);
    forall i {:trigger LinkedAt(tree', depth', i)} | i in tree' ensures LinkedAt(tree', depth', i) {
      if i == e.ino {
        NewLinkedAt(tree, depth, a, x, e, row);
      } else {
        assert LinkedAt(tree, depth, i);
        EnteredLinkedAt(tree, depth, a, x, e, row, i);
      }
    }
  }

  /** A directory gets an entry in its parent a. */
  lemma DirEntered(tree: Tree, depth: map<nat, nat>, used: set<nat>, a: nat, x: nat, e: Entry, row: seq<Entry>)
    requires TreeOk(tree, depth, used) && a in tree && 2 <= x < CAPACITY && RowOk(tree[a][x := e]) && tree[a][x].Free?
    requires e.Entry? && e.ftype == FT_DIRECTORY && Proper(e.name) && |e.name| < MAX_NAME
             && 0 < e.ino < MAX_FILES_PER_PART && e.ino !in used && NewRow(row, e.ino, a)
    ensures |tree[a]| == CAPACITY && TreeOk(WithDir(tree, a, x, e, row), depth[e.ino := depth[a] + 1], used + {e.ino})
  {
    EnteredClosed(tree, a, x, e, row);
    EnteredDirLinks(tree, used, a, x, e, row);
    EnteredLinked(tree, depth, a, x, e, row);
  }

  ghost predicate EmptyRow(row: seq<Entry>) {
    forall y :: 2 <= y < |row| ==> row[y].Free?
  }

  ghost function WithoutDir(tree: Tree, a: nat, x: nat): Tree
    requires a in tree && x < |tree[a]| && tree[a][x].Entry?
  {
    SetIn(tree, a, x, Free) - {tree[a][x].ino}
  }

  /** An empty directory is nobody's parent. */
  lemma NoChildren(tree: Tree, depth: map<nat, nat>, c: nat, i: nat)
    requires Closed(tree) && Linked(tree, depth) && c in tree && c != 0 && EmptyRow(tree[c]) && i in tree
    ensures ParentOf(tree[i]) != c
  {
    assert LinkedAt(tree, depth, i);
    assert forall x: nat :: !ChildAt(tree, i, c, x);
  }

  /** Only its own entry leads to it. */
  lemma OnlyLink(tree: Tree, depth: map<nat, nat>, used: set<nat>, a: nat, x: nat, i: nat, y: nat)
    requires TreeOk(tree, depth, used) && Link(tree, a, x) && tree[a][x].ino in tree && EmptyRow(tree[tree[a][x].ino])
    requires i in tree && i != tree[a][x].ino && y < |tree[i]| && (i != a || y != x) && tree[i][y].Entry?
    ensures tree[i][y].ino != tree[a][x].ino
  {
    var c := tree[a][x].ino;
    assert LinkOk(tree, used, a, x) && LinkedAt(tree, depth, i) && RowOk(tree[i]);
    NoChildren(tree, depth, c, i);
    assert y >= 2 ==> Link(tree, i, y);
    assert !Twice(tree, a, x, i, y);
  }

  lemma RemovedClosed(tree: Tree, depth: map<nat, nat>, used: set<nat>, a: nat, x: nat)
    requires TreeOk(tree, depth, used) && Link(tree, a, x) && x < CAPACITY && RowOk(tree[a][x := Free])
    requires tree[a][x].ino in tree && EmptyRow(tree[tree[a][x].ino])
    ensures a != tree[a][x].ino && Closed(WithoutDir(tree, a, x))
  {
    var c, tree' := tree[a][x].ino, WithoutDir(tree, a, x);
    assert LinkOk(tree, used, a, x);
    forall i, y | i in tree' && 0 <= y < |tree'[i]| ensures EntryOk(tree', tree'[i][y]) {
      SetRow(tree, a, x, Free, i);
      if tree'[i][y].Entry? {
        OnlyLink(tree, depth, used, a, x, i, y);
        assert EntryOk(tree, tree[i][y]);
      }
    }
    forall i <- tree' ensures RowOk(tree'[i]) {
    }
  }

  lemma RemovedLinkedAt(tree: Tree, depth: map<nat, nat>, a: nat, x: nat, i: nat)
    requires Closed(tree) && Link(tree, a, x) && x < CAPACITY && Closed(WithoutDir(tree, a, x))
    requires i in tree && i != tree[a][x].ino && i in depth && LinkedAt(tree, depth, i)
             && ParentOf(tree[i]) != tree[a][x].ino
    ensures LinkedAt(WithoutDir(tree, a, x), depth - {tree[a][x].ino}, i)
  {
    var tree' := WithoutDir(tree, a, x);
    SetRow(tree, a, x, Free, i);
    if i != 0 {
      SetRow(tree, a, x, Free, ParentOf(tree[i]));
      ChildStill(tree, tree', i, ParentOf(tree[i]));
    }
    LinkedStill(tree, tree', depth, depth - {tree[a][x].ino}, i);
  }

  lemma RemovedDirLinks(tree: Tree, used: set<nat>, a: nat, x: nat)
    requires LinksOk(tree, used) && Link(tree, a, x)
    ensures LinksOk(WithoutDir(tree, a, x), used - {tree[a][x].ino})
  {
    var c, tree' := tree[a][x].ino, WithoutDir(tree, a, x);
    forall b, y {:trigger Link(tree', b, y)} | Link(tree', b, y) ensures LinkOk(tree', used - {c}, b, y) {
      assert Link(tree, b, y) && !Twice(tree, a, x, b, y);
    }
    forall b, y, e, z ensures !Twice(tree', b, y, e, z) {
      assert !Twice(tree, b, y, e, z);
    }
  }

  lemma RemovedLinked(tree: Tree, depth: map<nat, nat>, a: nat, x: nat)
    requires Closed(tree) && Linked(tree, depth) && Link(tree, a, x) && Closed(WithoutDir(tree, a, x))
    requires tree[a][x].ino in tree && tree[a][x].ino != 0 && EmptyRow(tree[tree[a][x].ino])
    ensures Linked(WithoutDir(tree, a, x), depth - {tree[a][x].ino})
  {
    var c := tree[a][x].ino;
    var tree', depth' := WithoutDir(tree, a, x), depth - {c};
    RemovedKeys(tree, depth, a, x);
    forall i {:trigger LinkedAt(tree', depth', i)} | i in tree' ensures LinkedAt(tree', depth', i) {
      assert LinkedAt(tree, depth, i);
      NoChildren(tree, depth, c, i);
      RemovedLinkedAt(tree, depth, a, x, i);
    }
  }

  lemma RemovedKeys(tree: Tree, depth: map<nat, nat>, a: nat, x: nat)
    requires depth.Keys == tree.Keys && Link(tree, a, x)
    ensures (depth - {tree[a][x].ino}).Keys == WithoutDir(tree, a, x).Keys
  {
  }

  lemma EnteredKeys(tree: Tree, depth: map<nat, nat>, a: nat, x: nat, e: Entry, row: seq<Entry>)
    requires depth.Keys == tree.Keys && a in tree && x < |tree[a]| && e.Entry?
    ensures depth[e.ino := depth[a] + 1].Keys == WithDir(tree, a, x, e, row).Keys
  {
  }

  /** An empty directory loses its entry, and its inode. */
  lemma DirRemoved(tree: Tree, depth: map<nat, nat>, used: set<nat>, a: nat, x: nat)
    requires TreeOk(tree, depth, used) && Link(tree, a, x) && x < CAPACITY && RowOk(tree[a][x := Free])
    requires tree[a][x].ino in tree && EmptyRow(tree[tree[a][x].ino])
    ensures a != tree[a][x].ino && TreeOk(WithoutDir(tree, a, x), depth - {tree[a][x].ino}, used - {tree[a][x].ino})
  {
    RemovedClosed(tree, depth, used, a, x);
    RemovedDirLinks(tree, used, a, x);
    assert LinkOk(tree, used, a, x);
    RemovedLinked(tree, depth, a, x);
  }

  // ---------------------------------------------------------------- the same, by names

  /** Directory a has one more name, and nothing else has changed but for the new directory, if e is one. */
  ghost predicate Entered(tree: Tree, tree': Tree, a: nat, e: Entry) {
    && a in tree && a in tree' && e.Entry? && e.name !in NameMap(tree[a])
       && NameMap(tree'[a]) == NameMap(tree[a])[e.name := e]
    && (forall b <- tree :: b != a ==> b in tree' && tree'[b] == tree[b])
    && tree'.Keys == tree.Keys + if e.ftype == FT_DIRECTORY then {e.ino} else {}
  }

  /** Directory a has one name less, and nothing else has changed but for the directory that e was, if any. */
  ghost predicate Left(tree: Tree, tree': Tree, a: nat, e: Entry) {
    && a in tree && a in tree' && e.Entry? && e.name in NameMap(tree[a]) && NameMap(tree[a])[e.name] == e
    && NameMap(tree'[a]) == NameMap(tree[a]) - {e.name}
    && (forall b <- tree' :: b != a ==> b in tree && tree'[b] == tree[b])
    && tree'.Keys == tree.Keys - if e.ftype == FT_DIRECTORY then {e.ino} else {}
  }

  lemma FileIsEntered(tree: Tree, a: nat, x: nat, e: Entry)
    requires a in tree && x < |tree[a]| && tree[a][x].Free? && e.Entry? && e.ftype == FT_REGULAR
    requires Unique(tree[a]) && Unique(tree[a][x := e])
    ensures Entered(tree, SetIn(tree, a, x, e), a, e)
  {
    NameMapSet(tree[a], tree[a][x := e], x, e);
  }

  lemma DirIsEntered(tree: Tree, a: nat, x: nat, e: Entry, row: seq<Entry>)
    requires a in tree && x < |tree[a]| && tree[a][x].Free? && e.Entry? && e.ftype == FT_DIRECTORY && e.ino !in tree
    requires Unique(tree[a]) && Unique(tree[a][x := e])
    ensures Entered(tree, WithDir(tree, a, x, e, row), a, e)
  {
    NameMapSet(tree[a], tree[a][x := e], x, e);
  }

  lemma FileHasLeft(tree: Tree, a: nat, x: nat)
    requires a in tree && x < |tree[a]| && tree[a][x].Entry? && tree[a][x].ftype == FT_REGULAR
    requires Unique(tree[a]) && Unique(tree[a][x := Free])
    ensures Left(tree, SetIn(tree, a, x, Free), a, tree[a][x])
  {
    NameMapAt(tree[a], x, tree[a][x].name);
    NameMapClear(tree[a], tree[a][x := Free], x, Free);
  }

  lemma DirHasLeft(tree: Tree, a: nat, x: nat)
    requires a in tree && x < |tree[a]| && tree[a][x].Entry? && tree[a][x].ftype == FT_DIRECTORY && a != tree[a][x].ino
    requires Unique(tree[a]) && Unique(tree[a][x := Free])
    ensures Left(tree, WithoutDir(tree, a, x), a, tree[a][x])
  {
    NameMapAt(tree[a], x, tree[a][x].name);
    NameMapClear(tree[a], tree[a][x := Free], x, Free);
  }

  /** A path whose last name was missing in directory a leads to the new entry. */
  lemma {:induction false} VisitEntered(tree: Tree, tree': Tree, a: nat, e: Entry, at: nat, parent: nat, cs: seq<Name>)
    requires Closed(tree) && Closed(tree') && Entered(tree, tree', a, e) && at in tree && cs != []
             && cs[|cs| - 1] == e.name
    requires Visit(tree, at, parent, cs) == Trace(Missing(a), |cs|)
    requires e.ftype == FT_REGULAR || e.ftype == FT_DIRECTORY
    ensures at in tree'
    ensures Visit(tree', at, parent, cs).outcome ==
            if e.ftype == FT_DIRECTORY then Directory(e.ino, a) else File(e.ino, a)
    decreases |cs|
  {
    assert at in tree';
    if cs[0] in NameMap(tree[at]) {
      LookupOk(tree, at, cs[0]);
      var f := NameMap(tree[at])[cs[0]];
      assert cs[0] in NameMap(tree'[at]) && NameMap(tree'[at])[cs[0]] == f;
      VisitEntered(tree, tree', a, e, f.ino, at, cs[1..]);
    } else {
      assert |cs| == 1 && at == a;
      LookupOk(tree', a, e.name);
      assert cs[1..] == [];
    }
  }

  /** A path that looked up that name in directory a finds it missing. */
  lemma {:induction false} VisitLeft(tree: Tree, tree': Tree, a: nat, e: Entry, at: nat, parent: nat, cs: seq<Name>)
    requires Closed(tree) && Closed(tree') && Left(tree, tree', a, e) && at in tree && at in tree' && cs != []
    requires var t := Visit(tree, at, parent, cs);
             && 1 <= t.visited && cs[t.visited - 1] == e.name
             && (t.outcome == File(e.ino, a) || (t.outcome == Directory(e.ino, a) && t.visited == |cs|))
    ensures Visit(tree', at, parent, cs).outcome == Missing(a)
    decreases |cs|
  {
    if at == a && cs[0] == e.name {
    } else {
      LookupOk(tree, at, cs[0]);
      var f := NameMap(tree[at])[cs[0]];
      assert cs[0] in NameMap(tree'[at]) && NameMap(tree'[at])[cs[0]] == f;
      LookupOk(tree', at, cs[0]);
      if f.ftype == FT_DIRECTORY {
        VisitLeft(tree, tree', a, e, f.ino, at, cs[1..]);
      }
    }
  }
}
