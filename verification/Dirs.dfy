/** fs/dir.c: what a directory is, looking up a name, and reading it entry by entry. */
module Dirs {
  import opened Disks
  import opened InodeTable
  import opened Volumes
  import opened Entries
  import opened DirSlots
  import opened Options

  ghost predicate DirOk(d: Disk, n: Inode)
    requires |n.sectors| == 13
  {
    Clean(Row(d, n.sectors)) && EntriesOk(View(d, n.sectors), n.sectors, n.size)
  }

  /** What another inode cannot change. */
  lemma DirKept(d: Disk, d': Disk, n: Inode)
    requires |n.sectors| == 13 && Untouched(d, d', n)
    ensures Row(d', n.sectors) == Row(d, n.sectors)
  {
    forall b: nat | b < DIRECT && n.sectors[b] != 0
      ensures ReadSector(d', n.sectors[b]) == ReadSector(d, n.sectors[b]) {
      assert Slots(d, n)[b] == n.sectors[b];
      assert n.sectors[b] in Owns(d, n);
    }
    RowKept(d, d', n.sectors);
  }

  // ---------------------------------------------------------------- search_dir_entry

  /** The entries of one sector, compared with name; unused slots are compared as well. */
  method SearchSector(s: Sector, name: seq<Byte>) returns (k: nat)
    ensures k <= PER_SECTOR && (k < PER_SECTOR ==> NameOf(SlotAt(s, k)) == name)
    ensures forall j :: 0 <= j < k ==> NameOf(SlotAt(s, j)) != name
  {
    k := 0;
    while k < PER_SECTOR
      invariant k <= PER_SECTOR && forall j :: 0 <= j < k ==> NameOf(SlotAt(s, j)) != name
    {
      if NameOf(SlotAt(s, k)) == name {
        return;
      }
      k := k + 1;
    }
  }

  /** No entry before x has the name. */
  ghost predicate NoneBefore(es: seq<Entry>, x: nat, name: seq<Byte>) {
    forall y: nat :: y < x ==> !Named(es, y, name)
  }

  lemma EntryAt(d: Disk, sectors: seq<nat>, b: nat, k: nat)
    requires |sectors| == 13 && b < DIRECT && k < PER_SECTOR
    ensures View(d, sectors)[PER_SECTOR * b + k] == Decode(SlotIn(d, sectors, b, k))
  {
    RowAt(d, sectors, b, k);
  }

  lemma HoleIsFree(d: Disk, sectors: seq<nat>, b: nat, k: nat)
    requires |sectors| == 13 && b < DIRECT && k < PER_SECTOR && sectors[b] == 0
    ensures View(d, sectors)[PER_SECTOR * b + k].Free?
  {
    EntryAt(d, sectors, b, k);
    EmptySlot(SlotIn(d, sectors, b, k));
  }

  lemma BlockSearched(d: Disk, sectors: seq<nat>, b: nat, name: seq<Byte>)
    requires |sectors| == 13 && b < DIRECT && NoneBefore(View(d, sectors), PER_SECTOR * b, name)
    requires sectors[b] != 0 ==> forall j :: 0 <= j < PER_SECTOR ==>
               NameOf(SlotAt(ReadSector(d, sectors[b]), j)) != name
    ensures NoneBefore(View(d, sectors), PER_SECTOR * (b + 1), name)
  {
    var es := View(d, sectors);
    forall y: nat | PER_SECTOR * b <= y < PER_SECTOR * b + PER_SECTOR ensures !Named(es, y, name) {
      var k := y - PER_SECTOR * b;
      EntryAt(d, sectors, b, k);
      if sectors[b] == 0 {
        HoleIsFree(d, sectors, b, k);
      }
    }
  }

  /** all_blocks of a directory without a table. */
  lemma DirBlocks(d: Disk, n: Inode, b: nat)
    requires |n.sectors| == 13 && n.sectors[TABLE] == 0 && b < BLOCKS
    ensures BlocksOf(d, n)[b] == if b < DIRECT then n.sectors[b] else 0
  {
  }

  /** A slot with a name is in use. */
  lemma NameInUse(s: Slot)
    requires (Decode(s).Free? ==> s == EMPTY) && NameOf(s) != []
    ensures Decode(s).Entry?
  {
    if s[0] == 0 {
      NoName(s);
    }
  }

  lemma FoundAt(d: Disk, sectors: seq<nat>, b: nat, k: nat, name: seq<Byte>)
    requires |sectors| == 13 && b < DIRECT && k < PER_SECTOR && sectors[b] != 0 && name != [] && Clean(Row(d, sectors))
    requires NameOf(SlotAt(ReadSector(d, sectors[b]), k)) == name
    ensures Named(View(d, sectors), PER_SECTOR * b + k, name)
    ensures View(d, sectors)[PER_SECTOR * b + k] == Decode(SlotAt(ReadSector(d, sectors[b]), k))
  {
    RowAt(d, sectors, b, k);
    NameInUse(Row(d, sectors)[PER_SECTOR * b + k]);
  }

  /** The entry is in the directory under this name. */
  ghost predicate Finds(es: seq<Entry>, name: seq<Byte>, r: Option<Entry>) {
    r.Some? ==> r.value.Entry? && r.value.name == name && name in NameMap(es) && NameMap(es)[name] == r.value
  }

  lemma FindsAt(es: seq<Entry>, x: nat, name: seq<Byte>)
    requires Unique(es) && Named(es, x, name)
    ensures Finds(es, name, Some(es[x]))
  {
    NameMapAt(es, x, name);
  }

  /** One block that exists. */
  method SearchBlock(d: Disk, sectors: seq<nat>, b: nat, name: seq<Byte>) returns (r: Option<Entry>)
    requires |sectors| == 13 && b < DIRECT && sectors[b] != 0 && name != []
    requires Clean(Row(d, sectors)) && Unique(View(d, sectors)) && NoneBefore(View(d, sectors), PER_SECTOR * b, name)
    ensures Finds(View(d, sectors), name, r)
    ensures r.None? ==> NoneBefore(View(d, sectors), PER_SECTOR * (b + 1), name)
  {
    var buf := ReadSector(d, sectors[b]);
    var k := SearchSector(buf, name);
    if k < PER_SECTOR {
      FoundAt(d, sectors, b, k, name);
      FindsAt(View(d, sectors), PER_SECTOR * b + k, name);
      return Some(Decode(SlotAt(buf, k)));
    }
    BlockSearched(d, sectors, b, name);
    r := None;
  }

  method SearchBlocks(d: Disk, n: Inode, name: seq<Byte>, ghost es: seq<Entry>) returns (r: Option<Entry>)
    requires |n.sectors| == 13 && n.sectors[TABLE] == 0 && name != [] && es == View(d, n.sectors)
    requires Clean(Row(d, n.sectors)) && Unique(es)
    ensures Finds(es, name, r) && (r.None? ==> NoneBefore(es, CAPACITY, name))
  {
    var all_blocks := BlocksOf(d, n);
    var block_idx := 0;
    r := None;
    while block_idx < BLOCKS
      invariant 0 <= block_idx <= BLOCKS && r.None? && NoneBefore(es, PER_SECTOR * block_idx, name)
    {
      DirBlocks(d, n, block_idx);
      if all_blocks[block_idx] != 0 {
        r := SearchBlock(d, n.sectors, block_idx, name);
        if r.Some? {
          return;
        }
      } else if block_idx < DIRECT {
        BlockSearched(d, n.sectors, block_idx, name);
      }
      block_idx := block_idx + 1;
    }
  }

  /** search_dir_entry looks a name up in the map from names to inodes. */
  method SearchDirEntry(d: Disk, n: Inode, name: seq<Byte>) returns (r: Option<Entry>)
    requires |n.sectors| == 13 && DirOk(d, n) && name != []
    ensures Finds(View(d, n.sectors), name, r) && (r.Some? <==> name in NameMap(View(d, n.sectors)))
  {
    r := SearchBlocks(d, n, name, View(d, n.sectors));
    if r.None? {
      NotThere(View(d, n.sectors), name);
    }
  }

  lemma NotThere(es: seq<Entry>, name: seq<Byte>)
    requires NoneBefore(es, |es|, name)
    ensures name !in NameMap(es)
  {
    NameMapHas(es, name);
  }

  // ---------------------------------------------------------------- dir_read

  /** The state of the scan in front of slot x: the entries before it were all returned earlier. */
  ghost predicate Passed(es: seq<Entry>, x: nat, cur: nat, pos: nat) {
    x <= |es| && cur == SLOT * |Listed(es[..x])| && cur <= pos
  }

  lemma ListedPrefix(es: seq<Entry>, x: nat)
    requires x < |es| && es[x].Entry?
    ensures |Listed(es[..x])| < |Listed(es)| && Listed(es)[|Listed(es[..x])|] == es[x]
  {
    ListedAround(es, x);
  }

  /** The inner loop of dir_read: the entry at pos, if it is in this sector. */
  method ReadBlock(s: Sector, ghost es: seq<Entry>, ghost b: nat, cur0: nat, pos: nat)
    returns (r: Option<Entry>, cur: nat)
    requires b < DIRECT && |es| == CAPACITY && pos % SLOT == 0
    requires forall k: nat :: k < PER_SECTOR ==> es[PER_SECTOR * b + k] == Decode(SlotAt(s, k))
    requires Passed(es, PER_SECTOR * b, cur0, pos)
    ensures r.None? ==> Passed(es, PER_SECTOR * (b + 1), cur, pos)
    ensures r.Some? ==> pos / SLOT < |Listed(es)| && r.value == Listed(es)[pos / SLOT]
  {
    var k := 0;
    cur := cur0;
    while k < PER_SECTOR
      invariant k <= PER_SECTOR && Passed(es, PER_SECTOR * b + k, cur, pos)
    {
      ghost var x := PER_SECTOR * b + k;
      var e := Decode(SlotAt(s, k));
      assert es[x] == e;
      ListedNext(es, x);
      if e.Entry? {
        if cur < pos {
          NextSlot(cur, pos, |Listed(es[..x])|);
          cur := cur + SLOT;
        } else {
          ListedPrefix(es, x);
          return Some(e), cur;
        }
      }
      k := k + 1;
    }
    return None, cur;
  }

  lemma NextSlot(cur: nat, pos: nat, m: nat)
    requires cur < pos && cur == SLOT * m && pos % SLOT == 0
    ensures cur + SLOT <= pos
  {
  }

  lemma HolePassed(es: seq<Entry>, x: nat, y: nat)
    requires x <= y <= |es| && forall z :: x <= z < y ==> es[z].Free?
    ensures Listed(es[..y]) == Listed(es[..x])
  {
    ListedSplit(es[..y], x);
    assert es[..y][..x] == es[..x];
    ListedNone(es[..y][x..]);
  }

  /** One block of dir_read, if it exists. */
  method ReadIfThere(d: Disk, sectors: seq<nat>, b: nat, cur0: nat, pos: nat) returns (r: Option<Entry>, cur: nat)
    requires |sectors| == 13 && b < DIRECT && pos % SLOT == 0 && Passed(View(d, sectors), PER_SECTOR * b, cur0, pos)
    ensures var es := View(d, sectors);
            && (r.None? ==> Passed(es, PER_SECTOR * (b + 1), cur, pos))
            && (r.Some? ==> pos / SLOT < |Listed(es)| && r.value == Listed(es)[pos / SLOT])
  {
    ghost var es := View(d, sectors);
    if sectors[b] == 0 {
      forall z | PER_SECTOR * b <= z < PER_SECTOR * (b + 1) ensures es[z].Free? {
        HoleIsFree(d, sectors, b, z - PER_SECTOR * b);
      }
      HolePassed(es, PER_SECTOR * b, PER_SECTOR * (b + 1));
      return None, cur0;
    }
    forall k: nat | k < PER_SECTOR ensures es[PER_SECTOR * b + k] == Decode(SlotAt(ReadSector(d, sectors[b]), k)) {
      EntryAt(d, sectors, b, k);
    }
    r, cur := ReadBlock(ReadSector(d, sectors[b]), es, b, cur0, pos);
  }

  lemma AllPassed(es: seq<Entry>, cur: nat, pos: nat)
    requires Passed(es, |es|, cur, pos)
    ensures pos / SLOT >= |Listed(es)|
  {
    assert es[..|es|] == es;
    AtEnd(pos, cur, |Listed(es)|);
  }

  /** dir_read returns the entry at dir_pos in the order of the slots and moves on by one, or NULL at the
      end; it needs no more of the directory than that i_size is right. */
  method DirRead(d: Disk, sectors: seq<nat>, size: nat, dir_pos: nat) returns (r: Option<Entry>, pos': nat)
    requires |sectors| == 13 && size == SLOT * |Listed(View(d, sectors))| && dir_pos % SLOT == 0
    ensures var all := Listed(View(d, sectors));
            && (r.Some? <==> dir_pos / SLOT < |all|)
            && (r.Some? ==> r.value == all[dir_pos / SLOT] && pos' == dir_pos + SLOT)
            && (r.None? ==> pos' == dir_pos)
  {
    pos' := dir_pos;
    ghost var es := View(d, sectors);
    var block_idx, cur := 0, 0;
    while block_idx < DIRECT
      invariant 0 <= block_idx <= DIRECT && Passed(es, PER_SECTOR * block_idx, cur, dir_pos)
    {
      if dir_pos >= size {
        AtEnd(dir_pos, size, |Listed(es)|);
        return None, pos';
      }
      r, cur := ReadIfThere(d, sectors, block_idx, cur, dir_pos);
      if r.Some? {
        pos' := dir_pos + SLOT;
        return;
      }
      block_idx := block_idx + 1;
    }
    AllPassed(es, cur, dir_pos);
    r := None;
  }

  lemma AtEnd(pos: nat, size: nat, m: nat)
    requires size == SLOT * m && pos >= size
    ensures pos / SLOT >= m
  {
  }

  /** dir_read at position 24 k */
  method ReadNth(d: Disk, n: Inode, k: nat, ghost listed: seq<Entry>) returns (r: Option<Entry>)
    requires |n.sectors| == 13 && DirOk(d, n) && listed == Listed(View(d, n.sectors))
    ensures (r.Some? <==> k < |listed|) && (r.Some? ==> r.value == listed[k])
  {
    Quotient(k);
    var pos;
    r, pos := DirRead(d, n.sectors, n.size, SLOT * k);
  }

  /** Reading from position 0 gives every entry once, and then NULL. */
  method ReadAll(d: Disk, n: Inode) returns (all: seq<Entry>)
    requires |n.sectors| == 13 && DirOk(d, n)
    ensures all == Listed(View(d, n.sectors))
  {
    all := [];
    ghost var listed := Listed(View(d, n.sectors));
    while true
      invariant |all| <= |listed| && all == listed[..|all|]
      decreases |listed| - |all|
    {
      var r := ReadNth(d, n, |all|, listed);
      if r.None? {
        return;
      }
      TakeNext(listed, |all|);
      all := all + [r.value];
    }
  }

  lemma TakeNext(s: seq<Entry>, k: nat)
    requires k < |s|
    ensures s[..k] + [s[k]] == s[..k + 1]
  {
  }

  lemma Quotient(m: nat)
    ensures SLOT * m % SLOT == 0 && SLOT * m / SLOT == m
  {
  }

  // ---------------------------------------------------------------- dir_is_empty

  function DirIsEmpty(n: Inode): bool {
    n.size == SLOT * 2
  }

  lemma EmptyRowMeans(es: seq<Entry>, sectors: seq<nat>)
    requires RowOk(es) && NoSlack(es, sectors) && sectors[TABLE] == 0
    ensures |Listed(es)| == 2 <==> forall x :: 2 <= x < CAPACITY ==> es[x].Free?
    ensures |Listed(es)| == 2 ==> forall b :: 1 <= b < 13 ==> sectors[b] == 0
  {
    TwoListed(es);
    if |Listed(es)| == 2 {
      forall b: nat | 1 <= b < DIRECT ensures sectors[b] == 0 {
        assert !HasEntry(es, b);
      }
    }
  }

  /** dir_is_empty is exact, and an empty directory has only its first block: the assertions of dir_remove. */
  lemma EmptyExact(d: Disk, n: Inode)
    requires |n.sectors| == 13 && DirOk(d, n)
    ensures DirIsEmpty(n) <==> forall x :: 2 <= x < CAPACITY ==> View(d, n.sectors)[x].Free?
    ensures DirIsEmpty(n) ==> forall b :: 1 <= b < 13 ==> n.sectors[b] == 0
  {
    EmptyRowMeans(View(d, n.sectors), n.sectors);
  }
}
