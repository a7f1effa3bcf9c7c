/** fs/fs.c: the path of the working directory, found by walking ".." up to the root. */
module WorkingDirs {
  import opened Disks
  import opened InodeTable
  import opened OpenInodes
  import opened Volumes
  import opened Entries
  import opened DirSlots
  import opened Dirs
  import opened Paths
  import opened Walks
  import opened Options
  import DirInserts
  import DirDeletes

  // ---------------------------------------------------------------- the tree, upwards

  /** The first slot from x on whose entry has the number c. */
  function Where(row: seq<Entry>, c: nat, x: nat): (r: nat)
    requires x <= |row|
    ensures x <= r <= |row| && (r < |row| ==> row[r].Entry? && row[r].ino == c)
    ensures forall y :: x <= y < r && row[y].Entry? ==> row[y].ino != c
    decreases |row| - x
  {
    if x == |row| || (row[x].Entry? && row[x].ino == c) then x else Where(row, c, x + 1)
  }

  function ParentOf(row: seq<Entry>): nat
    requires |row| == CAPACITY && row[1].Entry?
  {
    row[1].ino
  }

  /** Directory i is named in slot x of the directory that its ".." points at. */
  ghost predicate ChildAt(tree: Tree, i: nat, p: nat, x: nat) {
    && i in tree && p in tree && 2 <= x < |tree[p]|
    && tree[p][x].Entry? && tree[p][x].ino == i && tree[p][x].ftype == FT_DIRECTORY
    && Proper(tree[p][x].name) && |tree[p][x].name| < MAX_NAME
  }

  ghost predicate HasChild(tree: Tree, i: nat, p: nat) {
    exists x :: ChildAt(tree, i, p, x)
  }

  /** The first two entries of directory i are itself and its parent, which is one step nearer to the root. */
  ghost predicate LinkedAt(tree: Tree, depth: map<nat, nat>, i: nat)
    requires Closed(tree) && i in tree && i in depth
  {
    var p := ParentOf(tree[i]);
    && i < MAX_FILES_PER_PART && tree[i][0].ino == i && tree[i][0].ftype == tree[i][1].ftype == FT_DIRECTORY
       && p in tree && p in depth
    && if i == 0 then p == 0 else depth[i] == depth[p] + 1 && HasChild(tree, i, p)
  }

  ghost predicate Linked(tree: Tree, depth: map<nat, nat>)
    requires Closed(tree)
  {
    depth.Keys == tree.Keys && forall i {:trigger LinkedAt(tree, depth, i)} :: i in tree ==> LinkedAt(tree, depth, i)
  }

  lemma OnlyOne(row: seq<Entry>, i: nat, x: nat)
    requires RowOk(row) && row[0].ino != i && row[1].ino != i && 2 <= x < |row| && row[x].Entry? && row[x].ino == i
    ensures Where(row, i, 0) == x
  {
    assert !SameIno(row, Where(row, i, 0), x);
  }

  /** Searching the parent for a child's number meets the child's own entry first, not "." or "..". */
  lemma FindsChild(tree: Tree, depth: map<nat, nat>, i: nat)
    requires Closed(tree) && Linked(tree, depth) && i in tree && i != 0
    ensures var p := ParentOf(tree[i]); p in tree && ChildAt(tree, i, p, Where(tree[p], i, 0))
  {
    assert LinkedAt(tree, depth, i);
    var p := ParentOf(tree[i]);
    assert LinkedAt(tree, depth, p);
    var x :| ChildAt(tree, i, p, x);
    OnlyOne(tree[p], i, x);
  }

  /** The names from the root down to directory i. */
  ghost function NamesTo(tree: Tree, depth: map<nat, nat>, i: nat): seq<Name>
    requires Closed(tree) && Linked(tree, depth) && i in tree
    decreases depth[i]
  {
    if i == 0 then [] else
    FindsChild(tree, depth, i);
    assert LinkedAt(tree, depth, i);
    var p := ParentOf(tree[i]);
    NamesTo(tree, depth, p) + [tree[p][Where(tree[p], i, 0)].name]
  }

  // ---------------------------------------------------------------- down again

  lemma {:induction false} VisitMore(tree: Tree, at: nat, parent: nat, cs: seq<Name>, c: Name)
    requires Closed(tree) && at in tree && Visit(tree, at, parent, cs).outcome.Directory?
    requires var p := Visit(tree, at, parent, cs).outcome.ino;
             p in tree && c in NameMap(tree[p]) && NameMap(tree[p])[c].Entry?
             && NameMap(tree[p])[c].ftype == FT_DIRECTORY
    ensures Visit(tree, at, parent, cs + [c]).outcome ==
            var p := Visit(tree, at, parent, cs).outcome.ino; Directory(NameMap(tree[p])[c].ino, p)
    decreases |cs|
  {
    if cs == [] {
      assert cs + [c] == [c];
      LookupOk(tree, at, c);
      assert [c][1..] == [];
    } else {
      LookupOk(tree, at, cs[0]);
      assert (cs + [c])[1..] == cs[1..] + [c] && (cs + [c])[0] == cs[0];
      VisitMore(tree, NameMap(tree[at])[cs[0]].ino, at, cs[1..], c);
    }
  }

  /** The names lead back to the directory. */
  lemma {:induction false} NamesLead(tree: Tree, depth: map<nat, nat>, i: nat)
    requires Closed(tree) && Linked(tree, depth) && i in tree
    ensures var o := Visit(tree, 0, 0, NamesTo(tree, depth, i)).outcome; o.Directory? && o.ino == i
    decreases depth[i]
  {
    if i != 0 {
      FindsChild(tree, depth, i);
      assert LinkedAt(tree, depth, i);
      var p := ParentOf(tree[i]);
      var x := Where(tree[p], i, 0);
      NamesLead(tree, depth, p);
      assert RowOk(tree[p]) && Named(tree[p], x, tree[p][x].name);
      NameMapAt(tree[p], x, tree[p][x].name);
      VisitMore(tree, 0, 0, NamesTo(tree, depth, p), tree[p][x].name);
    }
  }

  lemma {:induction false} NamesProper(tree: Tree, depth: map<nat, nat>, i: nat)
    requires Closed(tree) && Linked(tree, depth) && i in tree
    ensures forall c <- NamesTo(tree, depth, i) :: Proper(c) && c != DOT && c != DOTDOT && |c| < MAX_NAME
    ensures i != 0 ==> NamesTo(tree, depth, i) != []
    decreases depth[i]
  {
    if i != 0 {
      FindsChild(tree, depth, i);
      assert LinkedAt(tree, depth, i);
      var p := ParentOf(tree[i]);
      NamesProper(tree, depth, p);
      assert RowOk(tree[p]);
      DirDeletes.OrdinaryIff(tree[p], Where(tree[p], i, 0));
    }
  }

  // ---------------------------------------------------------------- get_parent_dir_inode_nr and get_child_dir_name

  /** The first block of every directory is in the data region. */
  ghost predicate Above(inodes: map<nat, Inode>, tree: Tree, base: nat) {
    forall i <- tree :: AboveAt(inodes, i, base)
  }

  ghost predicate AboveAt(inodes: map<nat, Inode>, i: nat, base: nat) {
    i in inodes && |inodes[i].sectors| == 13 && inodes[i].sectors[0] >= base
  }

  /** So it is in a valid partition. */
  lemma ValidIsAbove(d: Disk, inodes: map<nat, Inode>, tree: Tree, bits: seq<bool>, base: nat, reserved: set<nat>)
    requires Sound(d, inodes, bits, base, reserved) && Shows(d, inodes, tree)
    ensures Above(inodes, tree, base)
  {
    forall i <- tree ensures AboveAt(inodes, i, base) {
      assert ShowsAt(d, inodes, i, tree[i]);
      DirInserts.BlockInData(d, inodes, bits, base, reserved, i, 0);
    }
  }

  /** ".." of directory i; ok is the two assertions. */
  method GetParent(d: Disk, t: nat, inodes: map<nat, Inode>, os: OpenList, base: nat, ghost tree: Tree, i: nat)
    returns (ok: bool, nr: nat)
    requires Closed(tree) && Shows(d, inodes, tree) && Recorded(d, t, inodes) && Fresh(os, inodes)
             && Above(inodes, tree, base) && i in tree
    ensures nr == ParentOf(tree[i])
    ensures tree[i][1].ftype == FT_DIRECTORY && nr < MAX_FILES_PER_PART ==> ok
  {
    assert ShowsAt(d, inodes, i, tree[i]);
    assert AboveAt(inodes, i, base);
    var child, _ := InodePeek(d, t, inodes, os, i);
    var block_lba := child.sectors[0];
    EntryAt(d, inodes[i].sectors, 0, 1);
    assert RowOk(tree[i]);
    var s := SlotAt(ReadSector(d, block_lba), 1);
    ok := block_lba >= base && InoOf(s) < MAX_FILES_PER_PART && TypeOf(s) == FT_DIRECTORY;
    nr := InoOf(s);
  }

  /** The first slot of a sector with the number c, used or not. */
  method InoInSector(s: Sector, c: nat) returns (k: nat)
    ensures k <= PER_SECTOR && (k < PER_SECTOR ==> InoOf(SlotAt(s, k)) == c)
    ensures forall j :: 0 <= j < k ==> InoOf(SlotAt(s, j)) != c
  {
    k := 0;
    while k < PER_SECTOR
      invariant k <= PER_SECTOR && forall j :: 0 <= j < k ==> InoOf(SlotAt(s, j)) != c
    {
      if InoOf(SlotAt(s, k)) == c {
        return;
      }
      k := k + 1;
    }
  }

  /** No entry before slot x has the number. */
  ghost predicate NotBefore(row: seq<Entry>, x: nat, c: nat) {
    forall y :: 0 <= y < x && y < |row| && row[y].Entry? ==> row[y].ino != c
  }

  lemma NotBeforeMore(d: Disk, sectors: seq<nat>, b: nat, k: nat, c: nat)
    requires |sectors| == 13 && b < DIRECT && k <= PER_SECTOR && NotBefore(View(d, sectors), PER_SECTOR * b, c)
    requires sectors[b] != 0 ==> forall j :: 0 <= j < k ==> InoOf(SlotAt(ReadSector(d, sectors[b]), j)) != c
    ensures NotBefore(View(d, sectors), PER_SECTOR * b + k, c)
  {
    var row := View(d, sectors);
    forall y | PER_SECTOR * b <= y < PER_SECTOR * b + k && row[y].Entry? ensures row[y].ino != c {
      EntryAt(d, sectors, b, y - PER_SECTOR * b);
      if sectors[b] == 0 {
        EmptySlot(SlotIn(d, sectors, b, y - PER_SECTOR * b));
      }
    }
  }

  lemma UsedSlot(d: Disk, sectors: seq<nat>, b: nat, k: nat, c: nat)
    requires |sectors| == 13 && b < DIRECT && k < PER_SECTOR && sectors[b] != 0 && Clean(Row(d, sectors)) && c != 0
    requires InoOf(SlotAt(ReadSector(d, sectors[b]), k)) == c
    ensures var e := View(d, sectors)[PER_SECTOR * b + k];
            e.Entry? && e.ino == c && e.name == NameOf(SlotAt(ReadSector(d, sectors[b]), k))
  {
    RowAt(d, sectors, b, k);
    EntryAt(d, sectors, b, k);
    var s := SlotAt(ReadSector(d, sectors[b]), k);
    assert Row(d, sectors)[PER_SECTOR * b + k] == s;
    if s == EMPTY {
      EmptySlot(s);
    }
  }

  lemma WhereIs(row: seq<Entry>, c: nat, x: nat)
    requires x < |row| && NotBefore(row, x, c) && row[x].Entry? && row[x].ino == c
    ensures Where(row, c, 0) == x
  {
  }

  /** The name of the entry with number c: the first slot with that number is used, because c is not 0. */
  method GetChildName(d: Disk, sectors: seq<nat>, c: nat) returns (r: Option<Name>)
    requires |sectors| == 13 && Clean(Row(d, sectors)) && c != 0
    ensures var row, x := View(d, sectors), Where(View(d, sectors), c, 0);
            (r.Some? <==> x < CAPACITY) && (r.Some? ==> r.value == row[x].name)
  {
    var b := 0;
    while b < DIRECT
      invariant b <= DIRECT && NotBefore(View(d, sectors), PER_SECTOR * b, c)
    {
      var k := PER_SECTOR;
      if sectors[b] != 0 {
        var s := ReadSector(d, sectors[b]);
        k := InoInSector(s, c);
        if k < PER_SECTOR {
          NotBeforeMore(d, sectors, b, k, c);
          UsedSlot(d, sectors, b, k, c);
          WhereIs(View(d, sectors), c, PER_SECTOR * b + k);
          return Some(NameOf(SlotAt(s, k)));
        }
      }
      NotBeforeMore(d, sectors, b, k, c);
      b := b + 1;
    }
    r := None;
  }

  // ---------------------------------------------------------------- the reversal

  function Reversed(ns: seq<Name>): seq<Name> {
    if ns == [] then [] else Reversed(ns[1..]) + [ns[0]]
  }

  lemma ReversedSnoc(ns: seq<Name>, k: nat)
    requires k < |ns|
    ensures Reversed(ns[k..]) == Reversed(ns[k + 1..]) + [ns[k]]
  {
    assert ns[k..][1..] == ns[k + 1..];
  }

  lemma {:induction false} ReversedLast(ns: seq<Name>, c: Name)
    ensures Reversed(ns + [c]) == [c] + Reversed(ns)
  {
    if ns == [] {
      assert ns + [c] == [c] && [c][1..] == [];
    } else {
      assert (ns + [c])[1..] == ns[1..] + [c];
      ReversedLast(ns[1..], c);
    }
  }

  /** strrchr(s, '/') */
  method LastSlash(s: Name) returns (r: Option<nat>)
    ensures r.Some? ==> r.value < |s| && s[r.value] == SLASH && SLASH !in s[r.value + 1..]
    ensures r.None? ==> SLASH !in s
  {
    r := None;
    var i := 0;
    while i < |s|
      invariant 0 <= i <= |s|
      invariant r.None? ==> forall j :: 0 <= j < i ==> s[j] != SLASH
      invariant r.Some? ==> r.value < i && s[r.value] == SLASH && forall j :: r.value < j < i ==> s[j] != SLASH
    {
      if s[i] == SLASH {
        r := Some(i);
      }
      i := i + 1;
    }
  }

  /** The last slash of a printed path is in front of its last component. */
  lemma LastSlashIs(ns: seq<Name>, k: nat)
    requires ns != [] && Proper(ns[|ns| - 1]) && k < |Print(ns)| && Print(ns)[k] == SLASH
             && SLASH !in Print(ns)[k + 1..]
    ensures var n := |ns| - 1; Print(ns)[..k] == Print(ns[..n]) && Print(ns)[k..] == [SLASH] + ns[n]
  {
    var n := |ns| - 1;
    var a, c := Print(ns[..n]), ns[n];
    var s := a + [SLASH] + c;
    assert Print(ns) == s;
    SlashesOf(a, c, k);
  }

  lemma SlashesOf(a: Name, c: Name, k: nat)
    requires SLASH !in c && k < |a| + 1 + |c|
    ensures k < |a| ==> SLASH in (a + [SLASH] + c)[k + 1..]
    ensures k > |a| ==> (a + [SLASH] + c)[k] != SLASH
  {
    var s := a + [SLASH] + c;
    if k < |a| {
      assert s[k + 1..][|a| - k - 1] == s[|a|];
    } else if k > |a| {
      assert s[k] == c[k - |a| - 1];
    }
  }

  lemma HasSlash(ns: seq<Name>)
    requires ns != []
    ensures SLASH in Print(ns)
  {
    var n := |ns| - 1;
    assert (Print(ns[..n]) + [SLASH] + ns[n])[|Print(ns[..n])|] == SLASH;
  }

  /** The second loop of sys_getcwd: the components of `rev` in reverse order. */
  method Reverse(rev: Name, ghost ns: seq<Name>) returns (buf: Name)
    requires rev == Print(ns) && forall c <- ns :: Proper(c)
    ensures buf == Print(Reversed(ns))
  {
    buf := [];
    var full := rev;
    ghost var k := |ns|;
    assert ns[..k] == ns && ns[k..] == [];
    while true
      invariant 0 <= k <= |ns| && full == Print(ns[..k]) && buf == Print(Reversed(ns[k..]))
      decreases k
    {
      var last_slash := LastSlash(full);
      if last_slash.None? {
        NoneLeft(ns, k);
        return;
      }
      TakeLast(ns, k, last_slash.value);
      buf := buf + full[last_slash.value..];
      full := full[..last_slash.value];
      k := k - 1;
    }
  }

  lemma NoneLeft(ns: seq<Name>, k: nat)
    requires k <= |ns| && SLASH !in Print(ns[..k])
    ensures ns[k..] == ns
  {
    if k > 0 {
      HasSlash(ns[..k]);
    }
  }

  /** The cut: what is left in front of the last slash, and behind it the last name. */
  lemma TakeCut(ns: seq<Name>, k: nat, at: nat)
    requires 0 < k <= |ns| && Proper(ns[k - 1])
    requires at < |Print(ns[..k])| && Print(ns[..k])[at] == SLASH && SLASH !in Print(ns[..k])[at + 1..]
    ensures Print(ns[..k])[..at] == Print(ns[..k - 1]) && Print(ns[..k])[at..] == [SLASH] + ns[k - 1]
  {
    var front := ns[..k];
    assert front[k - 1] == ns[k - 1] && front[..k - 1] == ns[..k - 1];
    LastSlashIs(front, at);
  }

  /** The print: that name comes next in the reversed path. */
  lemma TakePrint(ns: seq<Name>, k: nat)
    requires 0 < k <= |ns|
    ensures Print(Reversed(ns[k..])) + ([SLASH] + ns[k - 1]) == Print(Reversed(ns[k - 1..]))
  {
    var r, c := Reversed(ns[k..]), ns[k - 1];
    ReversedSnoc(ns, k - 1);
    PrintSnoc(r, c);
    assert Print(r) + ([SLASH] + c) == Print(r) + [SLASH] + c;
  }

  lemma TakeLast(ns: seq<Name>, k: nat, at: nat)
    requires k <= |ns| && forall c <- ns :: Proper(c)
    requires at < |Print(ns[..k])| && Print(ns[..k])[at] == SLASH && SLASH !in Print(ns[..k])[at + 1..]
    ensures k > 0 && Print(ns[..k])[..at] == Print(ns[..k - 1])
    ensures Print(Reversed(ns[k..])) + Print(ns[..k])[at..] == Print(Reversed(ns[k - 1..]))
  {
    assert k > 0;
    assert ns[k - 1] in ns;
    TakeCut(ns, k, at);
    TakePrint(ns, k);
  }

  // ---------------------------------------------------------------- sys_getcwd

  lemma OneUp(tree: Tree, depth: map<nat, nat>, i: nat)
    requires Closed(tree) && Linked(tree, depth) && i in tree && i != 0
    ensures var p := ParentOf(tree[i]);
            && p in tree && p < MAX_FILES_PER_PART && tree[i][1].ftype == FT_DIRECTORY && depth[p] < depth[i]
            && var x := Where(tree[p], i, 0);
            && x < CAPACITY && Proper(tree[p][x].name)
            && NamesTo(tree, depth, i) == NamesTo(tree, depth, p) + [tree[p][x].name]
  {
    FindsChild(tree, depth, i);
    assert LinkedAt(tree, depth, i);
    assert LinkedAt(tree, depth, ParentOf(tree[i]));
  }

  method ChildName(d: Disk, t: nat, inodes: map<nat, Inode>, os: OpenList, ghost tree: Tree, i: nat, c: nat)
    returns (r: Option<Name>)
    requires Shows(d, inodes, tree) && Recorded(d, t, inodes) && Fresh(os, inodes) && i in tree && c != 0
    ensures |tree[i]| == CAPACITY && (r.Some? <==> Where(tree[i], c, 0) < CAPACITY)
    ensures r.Some? ==> r.value == tree[i][Where(tree[i], c, 0)].name
  {
    assert ShowsAt(d, inodes, i, tree[i]);
    var parent, _ := InodePeek(d, t, inodes, os, i);
    r := GetChildName(d, parent.sectors, c);
  }

  /** One step up: the name of directory i in its parent. */
  method StepUp(d: Disk, t: nat, inodes: map<nat, Inode>, os: OpenList, base: nat, ghost tree: Tree,
                ghost depth: map<nat, nat>, i: nat)
    returns (ok: bool, parent: nat, name: Option<Name>)
    requires Closed(tree) && Linked(tree, depth) && Shows(d, inodes, tree) && Recorded(d, t, inodes)
             && Fresh(os, inodes) && Above(inodes, tree, base)
    requires i in tree && i != 0
    ensures ok && parent in tree && depth[parent] < depth[i]
    ensures name.Some? && Proper(name.value) && NamesTo(tree, depth, i) == NamesTo(tree, depth, parent) + [name.value]
  {
    OneUp(tree, depth, i);
    ok, parent := GetParent(d, t, inodes, os, base, tree, i);
    name := ChildName(d, t, inodes, os, tree, parent, i);
  }

  lemma OneMore(names: seq<Name>, below: seq<Name>, above: seq<Name>, ns: seq<Name>, name: Name)
    requires names == below + Reversed(ns) && below == above + [name]
    ensures names == above + Reversed(ns + [name]) && Print(ns + [name]) == Print(ns) + [SLASH] + name
  {
    ReversedLast(ns, name);
    PrintSnoc(ns, name);
  }

  /** On the way from cwd up to `child` the names ns were met, and printed as rev. */
  ghost predicate Climbed(names: seq<Name>, below: seq<Name>, rev: Name, ns: seq<Name>) {
    rev == Print(ns) && names == below + Reversed(ns) && forall c <- ns :: Proper(c)
  }

  lemma ClimbStart(names: seq<Name>)
    ensures Climbed(names, names, [], [])
  {
    assert names + Reversed([]) == names;
  }

  lemma ClimbEnd(names: seq<Name>, rev: Name, ns: seq<Name>)
    requires Climbed(names, [], rev, ns)
    ensures Reversed(ns) == names && |rev| == |Print(names)|
  {
    assert [] + Reversed(ns) == Reversed(ns);
    SameLength(ns);
  }

  lemma ClimbOn(names: seq<Name>, below: seq<Name>, above: seq<Name>, rev: Name, ns: seq<Name>, name: Name)
    requires Climbed(names, below, rev, ns) && below == above + [name] && Proper(name)
    ensures Climbed(names, above, rev + [SLASH] + name, ns + [name])
  {
    OneMore(names, below, above, ns, name);
  }

  /** One round of the first loop of sys_getcwd. */
  method ClimbOne(d: Disk, t: nat, inodes: map<nat, Inode>, os: OpenList, base: nat, ghost tree: Tree,
                  ghost depth: map<nat, nat>, child: nat, rev: Name, ghost names: seq<Name>, ghost ns: seq<Name>)
    returns (ok: bool, parent: nat, rev': Name, ghost ns': seq<Name>)
    requires Closed(tree) && Linked(tree, depth) && Shows(d, inodes, tree) && Recorded(d, t, inodes)
             && Fresh(os, inodes) && Above(inodes, tree, base)
    requires child in tree && child != 0
    requires Climbed(names, NamesTo(tree, depth, child), rev, ns)
    ensures ok && parent in tree && depth[parent] < depth[child]
    ensures Climbed(names, NamesTo(tree, depth, parent), rev', ns')
  {
    var name;
    ok, parent, name := StepUp(d, t, inodes, os, base, tree, depth, child);
    ok := ok && name.Some?;
    ClimbOn(names, NamesTo(tree, depth, child), NamesTo(tree, depth, parent), rev, ns, name.value);
    rev' := rev + [SLASH] + name.value;
    ns' := ns + [name.value];
  }

  lemma {:induction false} PrintAppend(a: seq<Name>, b: seq<Name>)
    ensures |Print(a + b)| == |Print(a)| + |Print(b)|
  {
    if b == [] {
      assert a + b == a;
    } else {
      var n := |b| - 1;
      PrintAppend(a, b[..n]);
      PrintSnoc(a + b[..n], b[n]);
      assert a + b == a + b[..n] + [b[n]];
    }
  }

  /** What was printed on the way is part of the path. */
  lemma ClimbLength(names: seq<Name>, below: seq<Name>, rev: Name, ns: seq<Name>)
    requires Climbed(names, below, rev, ns)
    ensures |rev| <= |Print(names)|
  {
    PrintAppend(below, Reversed(ns));
    SameLength(ns);
  }

  /** The first loop of sys_getcwd: the names on the way up, printed in that order.  It ends because every
      step leads nearer to the root.  `fits` is false if full_path_reverse was overrun. */
  method Climb(d: Disk, t: nat, inodes: map<nat, Inode>, os: OpenList, base: nat, ghost tree: Tree,
               ghost depth: map<nat, nat>, cwd: nat)
    returns (ok: bool, fits: bool, rev: Name, ghost ns: seq<Name>)
    requires Closed(tree) && Linked(tree, depth) && Shows(d, inodes, tree) && Recorded(d, t, inodes)
             && Fresh(os, inodes) && Above(inodes, tree, base) && cwd in tree
    ensures ok && (fits <==> |Print(NamesTo(tree, depth, cwd))| < MAX_PATH_LEN)
    ensures fits ==> Climbed(NamesTo(tree, depth, cwd), [], rev, ns)
  {
    var child := cwd;
    ok, fits, rev, ns := true, true, [], [];
    ghost var names := NamesTo(tree, depth, cwd);
    ClimbStart(names);
    while child != 0
      invariant ok && fits && child in tree && Climbed(names, NamesTo(tree, depth, child), rev, ns)
                && |rev| < MAX_PATH_LEN
      decreases depth[child]
    {
      ok, child, rev, ns := ClimbOne(d, t, inodes, os, base, tree, depth, child, rev, names, ns);
      if |rev| >= MAX_PATH_LEN {
        ClimbLength(names, NamesTo(tree, depth, child), rev, ns);
        return ok, false, rev, ns;
      }
    }
    RootNames(tree, depth);
    ClimbEnd(names, rev, ns);
  }

  lemma RootNames(tree: Tree, depth: map<nat, nat>)
    requires Closed(tree) && Linked(tree, depth)
    ensures NamesTo(tree, depth, 0) == []
  {
  }

  /** Panic: an assertion failed.  Overrun: a buffer was written behind its end.  Failed: NULL. */
  datatype Cwd = Panic | Overrun | Failed | Path(path: Name)

  /** The path of a directory of the tree. */
  ghost function PathTo(tree: Tree, depth: map<nat, nat>, i: nat): Name
    requires Closed(tree) && Linked(tree, depth) && i in tree
  {
    if i == 0 then [SLASH] else Print(NamesTo(tree, depth, i))
  }

  /** A path as short as can be: the root's slash, or one slash before each name, none of them "." or "..". */
  ghost predicate Canonical(path: Name) {
    || path == [SLASH]
    || (&& Components(path) != [] && path == Print(Components(path))
        && forall c <- Components(path) :: c != DOT && c != DOTDOT)
  }

  lemma {:induction false} CountNames(tree: Tree, depth: map<nat, nat>, i: nat)
    requires Closed(tree) && Linked(tree, depth) && i in tree
    ensures depth[i] == depth[0] + |NamesTo(tree, depth, i)|
    decreases depth[i]
  {
    if i != 0 {
      assert LinkedAt(tree, depth, i);
      CountNames(tree, depth, ParentOf(tree[i]));
    }
  }

  /** No slash follows a slash, and none is at the end. */
  lemma {:induction false} PrintTight(cs: seq<Name>)
    requires cs != [] && forall c <- cs :: Proper(c)
    ensures Print(cs) != [] && Print(cs)[|Print(cs)| - 1] != SLASH
    ensures forall k :: 0 <= k < |Print(cs)| - 1 && Print(cs)[k] == SLASH ==> Print(cs)[k + 1] != SLASH
  {
    var n := |cs| - 1;
    var head, c := Print(cs[..n]), cs[n];
    assert c in cs;
    assert Print(cs) == head + [SLASH] + c;
    if n > 0 {
      PrintTight(cs[..n]);
    }
    var p := Print(cs);
    forall k | 0 <= k < |p| - 1 && p[k] == SLASH ensures p[k + 1] != SLASH {
      if k < |head| {
        assert p[k] == head[k];
        assert k + 1 < |head| ==> p[k + 1] == head[k + 1];
      }
    }
  }

  /** The path of a directory has as many names as the directory is deep, and nothing else. */
  lemma PathShape(tree: Tree, depth: map<nat, nat>, i: nat)
    requires Closed(tree) && Linked(tree, depth) && i in tree
    ensures var path := PathTo(tree, depth, i);
            && Canonical(path) && depth[0] + |Components(path)| == depth[i]
            && path != [] && path[0] == SLASH && (i != 0 ==> path[|path| - 1] != SLASH)
            && forall k :: 0 <= k < |path| - 1 && path[k] == SLASH ==> path[k + 1] != SLASH
  {
    CountNames(tree, depth, i);
    if i == 0 {
      SkipSlash([SLASH]);
    } else {
      var cs := NamesTo(tree, depth, i);
      NamesProper(tree, depth, i);
      ComponentsOfPrint(cs);
      PrintHead(cs);
      PrintTight(cs);
    }
  }

  /** What sys_getcwd makes of a path and a buffer of `size` bytes.  The assertion allows a path of `size` bytes, whose
      terminator is then written behind the buffer. */
  function CwdAnswer(cwd: nat, path: Name, size: nat): (r: Cwd)
    ensures r.Path? <==> r == Path(path) && |path| < size && (cwd != 0 ==> |path| < MAX_PATH_LEN)
    ensures cwd != 0 && r.Panic? ==> size < |path|
  {
    if cwd == 0 then (if |path| >= size then Cwd.Overrun else Path(path))
    else if |path| >= MAX_PATH_LEN then Cwd.Overrun
    else if |path| > size then Cwd.Panic
    else if |path| == size then Cwd.Overrun
    else Path(path)
  }

  /** sys_getcwd */
  method Getcwd(d: Disk, t: nat, inodes: map<nat, Inode>, os: OpenList, base: nat, ghost tree: Tree,
                ghost depth: map<nat, nat>, cwd: nat, size: nat) returns (r: Cwd)
    requires Closed(tree) && Linked(tree, depth) && Shows(d, inodes, tree) && Recorded(d, t, inodes)
             && Fresh(os, inodes) && Above(inodes, tree, base) && cwd in tree
    ensures r == CwdAnswer(cwd, PathTo(tree, depth, cwd), size)
  {
    assert LinkedAt(tree, depth, cwd);
    if cwd >= MAX_FILES_PER_PART {
      return Cwd.Panic;
    }
    if cwd == 0 {
      return if size < 2 then Cwd.Overrun else Path([SLASH]);
    }
    var ok, fits, rev;
    ghost var ns;
    ok, fits, rev, ns := Climb(d, t, inodes, os, base, tree, depth, cwd);
    if !ok {
      return Failed;
    }
    if !fits {
      return Cwd.Overrun;
    }
    ClimbEnd(NamesTo(tree, depth, cwd), rev, ns);
    if |rev| > size {
      return Cwd.Panic;
    }
    var buf := Reverse(rev, ns);
    r := if |buf| >= size then Cwd.Overrun else Path(buf);
  }

  lemma {:induction false} SameLength(ns: seq<Name>)
    ensures |Print(Reversed(ns))| == |Print(ns)|
  {
    if ns != [] {
      var c, rest := ns[0], ns[1..];
      SameLength(rest);
      PrintSnoc(Reversed(rest), c);
      PrintCons(c, rest);
      assert [c] + rest == ns;
    }
  }

  /** search_file of the path of a directory gives that directory back. */
  lemma PathLeadsBack(tree: Tree, depth: map<nat, nat>, i: nat, r: Search, searched: Name)
    requires Closed(tree) && Linked(tree, depth) && i in tree && |PathTo(tree, depth, i)| < MAX_PATH_LEN
    requires SearchIs(tree, PathTo(tree, depth, i), r, searched)
    ensures r.Hit? && r.ino == i && r.ftype == FT_DIRECTORY
  {
    if i != 0 {
      var cs := NamesTo(tree, depth, i);
      NamesProper(tree, depth, i);
      ComponentsOfPrint(cs);
      NamesLead(tree, depth, i);
      PrintHead(cs);
      NotRoot(cs);
    }
  }

  lemma NotRoot(cs: seq<Name>)
    requires cs != [] && forall c <- cs :: Proper(c) && c != DOT && c != DOTDOT
    ensures !IsRoot(Print(cs)) && |Print(cs)| > 1
  {
    var path := Print(cs);
    ComponentsOfPrint(cs);
    PrintHead(cs);
    assert cs[0] in cs;
    SkipSlash([SLASH]);
    FirstComponent(DOT, []);
    FirstComponent(DOTDOT, []);
    assert [SLASH] + DOT + [] == [SLASH] + DOT && [SLASH] + DOTDOT + [] == [SLASH] + DOTDOT;
    assert Components([]) == [];
  }

  /** The string from sys_getcwd, given to search_file, resolves back to the working directory. */
  method CwdRoundTrip(d: Disk, t: nat, inodes: map<nat, Inode>, os: OpenList, base: nat, ghost tree: Tree,
                      ghost depth: map<nat, nat>, cwd: nat, size: nat) returns (c: Cwd, r: Search)
    requires Closed(tree) && Linked(tree, depth) && Shows(d, inodes, tree) && Recorded(d, t, inodes)
             && Fresh(os, inodes) && Above(inodes, tree, base) && cwd in tree
    ensures c == CwdAnswer(cwd, PathTo(tree, depth, cwd), size)
    ensures c.Path? ==> r.Hit? && r.ino == cwd && r.ftype == FT_DIRECTORY
  {
    c := Getcwd(d, t, inodes, os, base, tree, depth, cwd, size);
    r := Garbage;
    if c.Path? {
      var searched;
      var dir, os';
      r, searched, dir, os' := SearchFile(d, t, inodes, os, tree, c.path);
      PathLeadsBack(tree, depth, cwd, r, searched);
    }
  }
}
