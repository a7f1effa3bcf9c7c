/** The entries of a directory, free of their encoding. */
module Entries {
  import opened Disks

  const SLOT := 24             // sizeof(struct dir_entry)
  const PER_SECTOR := 21       // 512 / 24
  const MAX_NAME := 16         // MAX_FILE_NAME_LEN
  const DIRECT := 12
  const CAPACITY := DIRECT * PER_SECTOR   // 252

  const FT_REGULAR := 1
  const FT_DIRECTORY := 2

  const DOT: seq<Byte> := [46]
  const DOTDOT: seq<Byte> := [46, 46]

  /** Free: f_type is FT_UNKNOWN. */
  datatype Entry = Free | Entry(name: seq<Byte>, ino: nat, ftype: nat)

  // ---------------------------------------------------------------- the invariant

  ghost predicate Named(row: seq<Entry>, x: nat, name: seq<Byte>) {
    x < |row| && row[x].Entry? && row[x].name == name
  }

  ghost predicate SameName(row: seq<Entry>, x: nat, y: nat) {
    x < y < |row| && row[x].Entry? && row[y].Entry? && row[x].name == row[y].name
  }

  ghost predicate SameIno(row: seq<Entry>, x: nat, y: nat) {
    2 <= x < y < |row| && row[x].Entry? && row[y].Entry? && row[x].ino == row[y].ino
  }

  ghost predicate Unique(row: seq<Entry>) {
    forall x, y :: !SameName(row, x, y)
  }

  /** "." and ".." are the first two entries, and no name and, but for these two, no inode occurs twice. */
  ghost predicate RowOk(row: seq<Entry>) {
    && |row| == CAPACITY && Named(row, 0, DOT) && Named(row, 1, DOTDOT) && Unique(row)
    && (forall x, y :: !SameIno(row, x, y))
  }

  ghost predicate HasEntry(row: seq<Entry>, b: nat) {
    exists x :: PER_SECTOR * b <= x < PER_SECTOR * b + PER_SECTOR && x < |row| && row[x].Entry?
  }

  /** Every block but the first holds an entry. */
  ghost predicate NoSlack(row: seq<Entry>, sectors: seq<nat>) {
    |sectors| == 13 && forall b: nat {:trigger HasEntry(row, b)} :: 1 <= b < DIRECT && sectors[b] != 0 ==>
      HasEntry(row, b)
  }

  // ---------------------------------------------------------------- the entries in use

  function Listed(row: seq<Entry>): seq<Entry> {
    if row == [] then [] else
    var last := row[|row| - 1];
    Listed(row[..|row| - 1]) + if last.Entry? then [last] else []
  }

  lemma ListedNext(row: seq<Entry>, x: nat)
    requires x < |row|
    ensures Listed(row[..x + 1]) == Listed(row[..x]) + if row[x].Entry? then [row[x]] else []
  {
    assert row[..x + 1][..x] == row[..x];
  }

  lemma {:induction false} ListedSplit(row: seq<Entry>, x: nat)
    requires x <= |row|
    ensures Listed(row) == Listed(row[..x]) + Listed(row[x..])
  {
    if x == |row| {
      assert row[..x] == row;
    } else {
      var n := |row| - 1;
      ListedSplit(row[..n], x);
      assert row[..n][..x] == row[..x];
      assert row[x..][..n - x] == row[..n][x..];
    }
  }

  /** The list with slot x set apart. */
  lemma ListedAround(row: seq<Entry>, x: nat)
    requires x < |row|
    ensures Listed(row) == Listed(row[..x]) + (if row[x].Entry? then [row[x]] else []) + Listed(row[x + 1..])
  {
    ListedSplit(row, x + 1);
    ListedNext(row, x);
  }

  /** Filling an empty slot adds one entry somewhere; emptying a slot takes one away. */
  lemma ListedSet(row: seq<Entry>, x: nat, e: Entry)
    requires x < |row| && e.Entry? && !row[x].Entry?
    ensures multiset(Listed(row[x := e])) == multiset(Listed(row)) + multiset{e}
    ensures |Listed(row[x := e])| == |Listed(row)| + 1
  {
    ListedAround(row, x);
    ListedAround(row[x := e], x);
    assert row[x := e][..x] == row[..x] && row[x := e][x + 1..] == row[x + 1..];
  }

  lemma ListedClear(row: seq<Entry>, x: nat, e: Entry, row': seq<Entry>)
    requires x < |row| && row[x].Entry? && !e.Entry? && row' == row[x := e]
    ensures multiset(Listed(row)) == multiset(Listed(row')) + multiset{row[x]}
    ensures |Listed(row)| == |Listed(row')| + 1
  {
    ListedSet(row', x, row[x]);
    assert row'[x := row[x]] == row;
  }

  /** The list is as long as the row exactly if no slot is empty. */
  lemma {:induction false} ListedFull(row: seq<Entry>)
    ensures |Listed(row)| <= |row|
    ensures |Listed(row)| == |row| <==> forall x :: 0 <= x < |row| ==> row[x].Entry?
  {
    if row != [] {
      var n := |row| - 1;
      ListedFull(row[..n]);
      assert forall x :: 0 <= x < n ==> row[..n][x] == row[x];
    }
  }

  /** No entry of a row without used slots is listed. */
  lemma {:induction false} ListedNone(row: seq<Entry>)
    ensures |Listed(row)| == 0 <==> forall x :: 0 <= x < |row| ==> !row[x].Entry?
  {
    if row != [] {
      var n := |row| - 1;
      ListedNone(row[..n]);
      assert forall x :: 0 <= x < n ==> row[..n][x] == row[x];
    }
  }

  /** At least "." and ".." in the first block, no other block without an entry, no indirect table, and i_size
      counts the entries. */
  ghost predicate EntriesOk(es: seq<Entry>, sectors: seq<nat>, size: nat) {
    && RowOk(es) && NoSlack(es, sectors) && size == SLOT * |Listed(es)|
    && sectors[0] != 0 && sectors[12] == 0
  }

  lemma TwoListed(row: seq<Entry>)
    requires RowOk(row)
    ensures |Listed(row)| == 2 <==> forall x :: 2 <= x < |row| ==> row[x].Free?
  {
    ListedSplit(row, 2);
    ListedNext(row, 0);
    ListedNext(row, 1);
    ListedNone(row[2..]);
    assert forall x :: 2 <= x < |row| ==> row[2..][x - 2] == row[x];
    assert forall x :: 0 <= x < |row| - 2 ==> row[2..][x] == row[x + 2];
  }

  // ---------------------------------------------------------------- a directory as a map

  /** The names in use, with their entries. */
  function NameMap(row: seq<Entry>): map<seq<Byte>, Entry> {
    if row == [] then map[] else
    var last, m := row[|row| - 1], NameMap(row[..|row| - 1]);
    if last.Entry? then m[last.name := last] else m
  }

  lemma {:induction false} NameMapHas(row: seq<Entry>, name: seq<Byte>)
    ensures name in NameMap(row) ==> exists x: nat :: Named(row, x, name) && NameMap(row)[name] == row[x]
    ensures (exists x: nat :: Named(row, x, name)) ==> name in NameMap(row)
  {
    if row != [] {
      var n := |row| - 1;
      NameMapHas(row[..n], name);
      if Named(row, n, name) {
      } else {
        if name in NameMap(row[..n]) {
          var x: nat :| Named(row[..n], x, name) && NameMap(row[..n])[name] == row[..n][x];
          assert Named(row, x, name);
        }
        if y: nat :| Named(row, y, name) {
          assert Named(row[..n], y, name);
        }
      }
    }
  }

  /** In a well-formed directory the map has exactly the entries in use. */
  lemma NameMapAt(row: seq<Entry>, x: nat, name: seq<Byte>)
    requires Unique(row) && Named(row, x, name)
    ensures name in NameMap(row) && NameMap(row)[name] == row[x]
  {
    NameMapHas(row, name);
    var y: nat :| Named(row, y, name) && NameMap(row)[name] == row[y];
    assert !SameName(row, x, y) && !SameName(row, y, x);
  }

  /** A name is in one row if and only if it is in the other, with the same entry, for all but one name. */
  lemma SetOne(row: seq<Entry>, row': seq<Entry>, x: nat, e: Entry, name: seq<Byte>)
    requires x < |row| && row[x].Free? && e.Entry? && row' == row[x := e] && name != e.name
    requires Unique(row) && Unique(row')
    ensures name in NameMap(row') <==> name in NameMap(row)
    ensures name in NameMap(row) ==> NameMap(row')[name] == NameMap(row)[name]
  {
    if name in NameMap(row) {
      NameMapHas(row, name);
      var y: nat :| Named(row, y, name) && NameMap(row)[name] == row[y];
      assert Named(row', y, name);
      NameMapAt(row', y, name);
    }
    if name in NameMap(row') {
      NameMapHas(row', name);
      var y: nat :| Named(row', y, name) && NameMap(row')[name] == row'[y];
      assert Named(row, y, name);
      NameMapAt(row, y, name);
    }
  }

  lemma NewName(row: seq<Entry>, row': seq<Entry>, x: nat, e: Entry)
    requires x < |row| && row[x].Free? && e.Entry? && row' == row[x := e] && Unique(row')
    ensures e.name !in NameMap(row) && e.name in NameMap(row') && NameMap(row')[e.name] == e
  {
    assert Named(row', x, e.name);
    NameMapAt(row', x, e.name);
    forall y: nat ensures !Named(row, y, e.name) {
      assert !SameName(row', x, y) && !SameName(row', y, x);
    }
    NameMapHas(row, e.name);
  }

  /** A new entry changes the map at its own name only. */
  lemma NameMapSet(row: seq<Entry>, row': seq<Entry>, x: nat, e: Entry)
    requires x < |row| && row[x].Free? && e.Entry? && row' == row[x := e]
    requires Unique(row) && Unique(row')
    ensures NameMap(row') == NameMap(row)[e.name := e] && e.name !in NameMap(row)
  {
    var m, m' := NameMap(row), NameMap(row');
    NewName(row, row', x, e);
    forall name | name != e.name ensures (name in m' <==> name in m) && (name in m ==> m'[name] == m[name]) {
      SetOne(row, row', x, e, name);
    }
    assert m'.Keys == m[e.name := e].Keys;
  }

  lemma NameMapClear(row: seq<Entry>, row': seq<Entry>, x: nat, e: Entry)
    requires x < |row| && row[x].Entry? && !e.Entry? && row' == row[x := e]
    requires Unique(row) && Unique(row')
    ensures NameMap(row') == NameMap(row) - {row[x].name} && row[x].name in NameMap(row)
  {
    assert row'[x := row[x]] == row;
    NameMapSet(row', row, x, row[x]);
  }
}
