/** fs/dir.c: taking an entry out of a directory, and removing a directory. */
module DirDeletes {
  import opened Disks
  import opened InodeTable
  import opened Volumes
  import opened Entries
  import opened DirSlots
  import opened Dirs
  import DirInserts
  import Files
  import Releases

  // ---------------------------------------------------------------- what a deletion does to the entries

  /** An entry that delete_dir_entry counts. */
  predicate Ordinary(e: Entry) {
    e.Entry? && e.name != DOT && e.name != DOTDOT
  }

  /** All entries but the first two are ordinary. */
  lemma OrdinaryIff(es: seq<Entry>, x: nat)
    requires RowOk(es) && x < CAPACITY
    ensures Ordinary(es[x]) <==> x >= 2 && es[x].Entry?
    ensures es[x].Entry? && es[x].name == DOT <==> x == 0
  {
    assert !SameName(es, 0, x) && !SameName(es, 1, x) && !SameName(es, 0, 1);
  }

  lemma DeleteRow(es: seq<Entry>, x: nat, es': seq<Entry>)
    requires RowOk(es) && 2 <= x < CAPACITY && es' == es[x := Free]
    ensures RowOk(es')
  {
    forall y, z ensures !SameName(es', y, z) {
      assert !SameName(es, y, z);
    }
    forall y, z ensures !SameIno(es', y, z) {
      assert !SameIno(es, y, z);
    }
  }

  /** Either block b keeps another entry, or it goes, or it is the first. */
  lemma DeleteNoSlack(es: seq<Entry>, x: nat, es': seq<Entry>, sectors: seq<nat>, sectors': seq<nat>, b: nat, y: nat)
    requires NoSlack(es, sectors) && x < |es| && es' == es[x := Free] && b < DIRECT
    requires PER_SECTOR * b <= x < PER_SECTOR * b + PER_SECTOR
    requires |sectors'| == 13 && forall c :: 0 <= c < DIRECT && c != b ==> sectors'[c] == sectors[c]
    requires b == 0 || sectors'[b] == 0
             || (PER_SECTOR * b <= y < PER_SECTOR * b + PER_SECTOR && y != x && y < |es| && es[y].Entry?)
    ensures NoSlack(es', sectors')
  {
    forall c: nat | 1 <= c < DIRECT && sectors'[c] != 0 ensures HasEntry(es', c) {
      if c == b {
        assert es'[y].Entry?;
      } else {
        assert HasEntry(es, c);
        var z :| PER_SECTOR * c <= z < PER_SECTOR * c + PER_SECTOR && z < |es| && es[z].Entry?;
        assert es'[z].Entry?;
      }
    }
  }

  /** The entry in slot x may be taken out, which leaves the blocks `sectors'`: slot y still fills block b. */
  ghost predicate Removable(es: seq<Entry>, sectors: seq<nat>, sectors': seq<nat>, b: nat, x: nat, y: nat) {
    && |sectors| == |sectors'| == 13 && |es| == CAPACITY && b < DIRECT && 2 <= x < CAPACITY && es[x].Entry?
    && PER_SECTOR * b <= x < PER_SECTOR * b + PER_SECTOR
    && (forall c :: 0 <= c < DIRECT && c != b ==> sectors'[c] == sectors[c])
    && sectors'[0] == sectors[0] && sectors'[TABLE] == 0
    && (b == 0 || sectors'[b] == 0
        || (PER_SECTOR * b <= y < PER_SECTOR * b + PER_SECTOR && y != x && y < |es| && es[y].Entry?))
  }

  lemma DeletedOk(es: seq<Entry>, es': seq<Entry>, sectors: seq<nat>, sectors': seq<nat>, size: nat, b: nat, x: nat,
                  y: nat)
    requires EntriesOk(es, sectors, size) && Removable(es, sectors, sectors', b, x, y) && es' == es[x := Free]
    ensures size >= SLOT && EntriesOk(es', sectors', size - SLOT)
  {
    DeleteRow(es, x, es');
    DeleteNoSlack(es, x, es', sectors, sectors', b, y);
    ListedClear(es, x, Free, es');
  }

  lemma DeletedDir(d: Disk, d': Disk, n: Inode, n': Inode, b: nat, x: nat, y: nat)
    requires |n.sectors| == 13 && |n'.sectors| == 13 && DirOk(d, n)
             && Removable(View(d, n.sectors), n.sectors, n'.sectors, b, x, y)
    requires Row(d', n'.sectors) == Row(d, n.sectors)[x := EMPTY] && n'.size == n.size - SLOT
    ensures DirOk(d', n') && View(d', n'.sectors) == View(d, n.sectors)[x := Free] && n.size >= SLOT
  {
    EmptySlot(EMPTY);
    DirInserts.ViewSet(d, d', n.sectors, n'.sectors, x, EMPTY);
    DeletedOk(View(d, n.sectors), View(d', n'.sectors), n.sectors, n'.sectors, n.size, b, x, y);
  }

  // ---------------------------------------------------------------- finding the entry

  ghost predicate SameInoIn(blk: seq<Entry>, j: nat, k: nat) {
    j < k < |blk| && Ordinary(blk[j]) && Ordinary(blk[k]) && blk[j].ino == blk[k].ino
  }

  predicate IsDot(e: Entry) {
    e.Entry? && e.name == DOT
  }

  predicate Has(e: Entry, ino: nat) {
    Ordinary(e) && e.ino == ino
  }

  /** dir_entry_found, dir_entry_cnt and is_dir_first_block */
  datatype Scan = Scan(found: nat, cnt: nat, first: bool)

  /** The body of the loop over the slots of a sector, for the entry e in slot k. */
  function Step(r: Scan, e: Entry, k: nat, ino: nat): Scan {
    if e.Free? then r
    else if e.name == DOT then r.(first := true)
    else if e.name == DOTDOT then r
    else Scan(if e.ino == ino then k else r.found, r.cnt + 1, r.first)
  }

  /** What the scan knows after m slots: `one` is an ordinary entry, `other` another. */
  ghost predicate Scanned(blk: seq<Entry>, m: nat, r: Scan, one: nat, other: nat, ino: nat) {
    && m <= |blk| == PER_SECTOR
    && (r.cnt == 0 ==> forall j :: 0 <= j < m ==> !Ordinary(blk[j]))
    && (r.cnt >= 1 ==> one < m && Ordinary(blk[one]))
    && (r.cnt == 1 ==> forall j :: 0 <= j < m && j != one ==> !Ordinary(blk[j]))
    && (r.cnt >= 2 ==> other < m && other != one && Ordinary(blk[other]))
    && (r.found == PER_SECTOR ==> forall j :: 0 <= j < m ==> !Has(blk[j], ino))
    && (r.found != PER_SECTOR ==> r.found < m && Has(blk[r.found], ino))
    && (!r.first ==> forall j :: 0 <= j < m ==> !IsDot(blk[j]))
    && (r.first ==> exists j :: 0 <= j < m && IsDot(blk[j]))
  }

  /** The assertion that the number was not found before holds, and the scan goes on. */
  lemma ScanStep(blk: seq<Entry>, m: nat, r: Scan, one: nat, other: nat, ino: nat)
    requires Scanned(blk, m, r, one, other, ino) && m < PER_SECTOR && forall j, k :: !SameInoIn(blk, j, k)
    ensures Has(blk[m], ino) ==> r.found == PER_SECTOR
    ensures var o := Ordinary(blk[m]);
            Scanned(blk, m + 1, Step(r, blk[m], m, ino), if o && r.cnt == 0 then m else one,
                    if o && r.cnt > 0 then m else other, ino)
  {
    assert !SameInoIn(blk, r.found, m);
    if r.first {
      var j :| 0 <= j < m && IsDot(blk[j]);
    }
  }

  method ScanSector(s: Sector, ino: nat, ghost blk: seq<Entry>)
    returns (ok: bool, r: Scan, ghost one: nat, ghost other: nat)
    requires |blk| == PER_SECTOR && forall k: nat :: k < PER_SECTOR ==> blk[k] == Decode(SlotAt(s, k))
    requires forall j, k :: !SameInoIn(blk, j, k)
    ensures ok && Scanned(blk, PER_SECTOR, r, one, other, ino)
  {
    var k := 0;
    r, ok, one, other := Scan(PER_SECTOR, 0, false), true, 0, 0;
    while k < PER_SECTOR
      invariant k <= PER_SECTOR && ok && Scanned(blk, k, r, one, other, ino)
    {
      var e := Decode(SlotAt(s, k));
      assert e == blk[k];
      ScanStep(blk, k, r, one, other, ino);
      ok := ok && !(Has(e, ino) && r.found != PER_SECTOR);
      one, other := if Ordinary(e) && r.cnt == 0 then k else one, if Ordinary(e) && r.cnt > 0 then k else other;
      r := Step(r, e, k, ino);
      k := k + 1;
    }
  }

  /** No entry before slot x has the number. */
  ghost predicate InoNotBefore(es: seq<Entry>, x: nat, ino: nat) {
    forall y :: 2 <= y < x && y < |es| && es[y].Entry? ==> es[y].ino != ino
  }

  ghost function Block(es: seq<Entry>, b: nat): seq<Entry>
    requires |es| == CAPACITY && b < DIRECT
  {
    es[PER_SECTOR * b..PER_SECTOR * b + PER_SECTOR]
  }

  lemma OnceInBlock(es: seq<Entry>, b: nat)
    requires RowOk(es) && b < DIRECT
    ensures forall j, k :: !SameInoIn(Block(es, b), j, k)
  {
    var x := PER_SECTOR * b;
    forall j: nat, k: nat ensures !SameInoIn(Block(es, b), j, k) {
      if j < k < PER_SECTOR {
        OrdinaryIff(es, x + j);
        OrdinaryIff(es, x + k);
        assert !SameIno(es, x + j, x + k);
      }
    }
  }

  lemma NotInBlock(es: seq<Entry>, b: nat, ino: nat)
    requires RowOk(es) && b < DIRECT && InoNotBefore(es, PER_SECTOR * b, ino)
    requires forall j :: 0 <= j < PER_SECTOR ==> !Has(Block(es, b)[j], ino)
    ensures InoNotBefore(es, PER_SECTOR * (b + 1), ino)
  {
    forall y | PER_SECTOR * b <= y < PER_SECTOR * (b + 1) && 2 <= y && es[y].Entry? ensures es[y].ino != ino {
      OrdinaryIff(es, y);
      assert es[y] == Block(es, b)[y - PER_SECTOR * b];
    }
  }

  /** The entry with the number is in slot x of block b.  It is the only one of a later block, to be dropped,
      or it is not: then slot y has another one, unless this is the first block. */
  ghost predicate Found(es: seq<Entry>, b: nat, x: nat, drop: bool, y: nat, ino: nat) {
    && b < DIRECT && |es| == CAPACITY && 2 <= x && PER_SECTOR * b <= x < PER_SECTOR * b + PER_SECTOR
    && es[x].Entry? && es[x].ino == ino
    && (drop ==> b > 0 && forall z :: PER_SECTOR * b <= z < PER_SECTOR * b + PER_SECTOR && z != x ==> es[z].Free?)
    && (!drop ==> b == 0 || (PER_SECTOR * b <= y < PER_SECTOR * b + PER_SECTOR && y != x && es[y].Entry?))
  }

  lemma FirstIff(es: seq<Entry>, b: nat)
    requires RowOk(es) && b < DIRECT
    ensures b == 0 ==> IsDot(Block(es, b)[0])
    ensures b > 0 ==> forall j :: 0 <= j < PER_SECTOR ==> !IsDot(Block(es, b)[j])
  {
    var x := PER_SECTOR * b;
    forall j | 0 <= j < PER_SECTOR ensures IsDot(Block(es, b)[j]) <==> x + j == 0 {
      OrdinaryIff(es, x + j);
    }
  }

  lemma FoundHere(es: seq<Entry>, b: nat, r: Scan, one: nat, other: nat, ino: nat)
    requires RowOk(es) && b < DIRECT && Scanned(Block(es, b), PER_SECTOR, r, one, other, ino) && r.found < PER_SECTOR
    ensures r.cnt >= 1
    ensures Found(es, b, PER_SECTOR * b + r.found, r.cnt == 1 && !r.first,
                  PER_SECTOR * b + (if r.found == one then other else one), ino)
  {
    var x := PER_SECTOR * b;
    var blk := Block(es, b);
    FirstIff(es, b);
    assert es[x + r.found] == blk[r.found];
    OrdinaryIff(es, x + r.found);
    assert r.first <==> b == 0;
    if r.cnt == 1 && !r.first {
      forall z | x <= z < x + PER_SECTOR && z != x + r.found ensures es[z].Free? {
        assert es[z] == blk[z - x];
        OrdinaryIff(es, z);
      }
    } else if b > 0 {
      var w := if r.found == one then other else one;
      assert es[x + w] == blk[w];
    }
  }

  lemma BlockIs(d: Disk, sectors: seq<nat>, b: nat, k: nat)
    requires |sectors| == 13 && b < DIRECT && k < PER_SECTOR && sectors[b] != 0
    ensures Block(View(d, sectors), b)[k] == Decode(SlotAt(ReadSector(d, sectors[b]), k))
  {
    EntryAt(d, sectors, b, k);
  }

  method ScanSectorOf(d: Disk, sectors: seq<nat>, b: nat, ino: nat, ghost blk: seq<Entry>)
    returns (ok: bool, r: Scan, ghost one: nat, ghost other: nat)
    requires |sectors| == 13 && b < DIRECT && sectors[b] != 0 && blk == Block(View(d, sectors), b)
    requires forall j, k :: !SameInoIn(blk, j, k)
    ensures ok && Scanned(blk, PER_SECTOR, r, one, other, ino)
  {
    var s := ReadSector(d, sectors[b]);
    forall k: nat | k < PER_SECTOR ensures blk[k] == Decode(SlotAt(s, k)) {
      BlockIs(d, sectors, b, k);
    }
    ok, r, one, other := ScanSector(s, ino, blk);
  }

  /** The outcome of the scan of block b. */
  ghost predicate BlockScanned(es: seq<Entry>, b: nat, r: Scan, y: nat, ino: nat) {
    && r.found <= PER_SECTOR
    && (r.found == PER_SECTOR ==> InoNotBefore(es, PER_SECTOR * (b + 1), ino))
    && (r.found < PER_SECTOR ==> r.cnt >= 1 && Found(es, b, PER_SECTOR * b + r.found, r.cnt == 1 && !r.first, y, ino))
  }

  lemma ScanMeans(es: seq<Entry>, b: nat, r: Scan, one: nat, other: nat, ino: nat)
    requires RowOk(es) && b < DIRECT && Scanned(Block(es, b), PER_SECTOR, r, one, other, ino)
    requires InoNotBefore(es, PER_SECTOR * b, ino)
    ensures BlockScanned(es, b, r, PER_SECTOR * b + (if r.found == one then other else one), ino)
  {
    if r.found == PER_SECTOR {
      NotInBlock(es, b, ino);
    } else {
      FoundHere(es, b, r, one, other, ino);
    }
  }

  /** A block that exists. */
  method ScanBlock(d: Disk, sectors: seq<nat>, b: nat, ino: nat) returns (ok: bool, r: Scan, ghost y: nat)
    requires |sectors| == 13 && RowOk(View(d, sectors)) && b < DIRECT && sectors[b] != 0
    requires InoNotBefore(View(d, sectors), PER_SECTOR * b, ino)
    ensures ok && BlockScanned(View(d, sectors), b, r, y, ino)
  {
    OnceInBlock(View(d, sectors), b);
    ghost var one, other;
    ok, r, one, other := ScanSectorOf(d, sectors, b, ino, Block(View(d, sectors), b));
    y := PER_SECTOR * b + if r.found == one then other else one;
    ScanMeans(View(d, sectors), b, r, one, other, ino);
  }

  lemma HoleSkipped(d: Disk, sectors: seq<nat>, b: nat, ino: nat)
    requires |sectors| == 13 && b < DIRECT && sectors[b] == 0 && InoNotBefore(View(d, sectors), PER_SECTOR * b, ino)
    ensures InoNotBefore(View(d, sectors), PER_SECTOR * (b + 1), ino)
  {
    var es := View(d, sectors);
    forall z | PER_SECTOR * b <= z < PER_SECTOR * (b + 1) ensures es[z].Free? {
      HoleIsFree(d, sectors, b, z - PER_SECTOR * b);
    }
  }

  /** One round of the outer loop. */
  method ScanIfThere(d: Disk, sectors: seq<nat>, b: nat, ino: nat) returns (ok: bool, r: Scan, ghost y: nat)
    requires |sectors| == 13 && RowOk(View(d, sectors)) && b < DIRECT
             && InoNotBefore(View(d, sectors), PER_SECTOR * b, ino)
    ensures ok && BlockScanned(View(d, sectors), b, r, y, ino) && (sectors[b] == 0 ==> r.found == PER_SECTOR)
  {
    if sectors[b] == 0 {
      HoleSkipped(d, sectors, b, ino);
      return true, Scan(PER_SECTOR, 0, false), 0;
    }
    ok, r, y := ScanBlock(d, sectors, b, ino);
  }

  /** The outer loop of delete_dir_entry; b is DIRECT if no block has the entry. */
  method FindIno(d: Disk, sectors: seq<nat>, ino: nat) returns (ok: bool, b: nat, r: Scan, ghost y: nat)
    requires |sectors| == 13 && RowOk(View(d, sectors))
    ensures ok && b <= DIRECT
    ensures b < DIRECT ==> r.found < PER_SECTOR && sectors[b] != 0 && BlockScanned(View(d, sectors), b, r, y, ino)
    ensures b == DIRECT ==> InoNotBefore(View(d, sectors), CAPACITY, ino)
  {
    b, r, y, ok := 0, Scan(PER_SECTOR, 0, false), 0, true;
    while b < DIRECT
      invariant b <= DIRECT && ok && InoNotBefore(View(d, sectors), PER_SECTOR * b, ino)
    {
      ok, r, y := ScanIfThere(d, sectors, b, ino);
      if r.found < PER_SECTOR {
        return;
      }
      b := b + 1;
    }
  }

  // ---------------------------------------------------------------- the books

  /** What a deletion has done. */
  ghost predicate Gone(d: Disk, d': Disk, inodes: map<nat, Inode>, inodes': map<nat, Inode>, i: nat, x: nat) {
    && Files.OthersSame(d, d', inodes, inodes', i) && i in inodes
    && var n, n' := inodes[i], inodes'[i];
    && |n.sectors| == 13 && |n'.sectors| == 13 && n.size >= SLOT
       && n' == n.(sectors := n'.sectors, size := n.size - SLOT)
    && DirOk(d', n') && x < CAPACITY && View(d, n.sectors)[x].Entry?
    && View(d', n'.sectors) == View(d, n.sectors)[x := Free]
  }

  lemma GoneNow(d: Disk, d': Disk, inodes: map<nat, Inode>, i: nat, n': Inode, x: nat)
    requires i in inodes && Files.OthersSame(d, d', inodes, inodes[i := n'], i)
    requires |inodes[i].sectors| == 13 && |n'.sectors| == 13 && inodes[i].size >= SLOT
    requires n' == inodes[i].(sectors := n'.sectors, size := inodes[i].size - SLOT)
    requires DirOk(d', n') && x < CAPACITY && View(d, inodes[i].sectors)[x].Entry?
    requires View(d', n'.sectors) == View(d, inodes[i].sectors)[x := Free]
    ensures Gone(d, d', inodes, inodes[i := n'], i, x)
  {
  }

  lemma ShrunkAccounted(d: Disk, d': Disk, inodes: map<nat, Inode>, i: nat, n: Inode, bits: seq<bool>,
                        bits': seq<bool>, base: nat, reserved: set<nat>, lba: nat)
    requires Numbered(inodes) && Accounted(OwnMap(d, inodes), bits, base, reserved) && i in inodes && |n.sectors| == 13
    requires forall j <- inodes :: Untouched(d, d', inodes[j])
    requires lba in Owns(d, inodes[i]) && Owns(d', n) == Owns(d, inodes[i]) - {lba}
    requires Releases.Cleared(bits, bits', base, {lba})
    ensures Accounted(OwnMap(d', inodes[i := n]), bits', base, reserved)
  {
    var o, o' := OwnMap(d, inodes), OwnMap(d', inodes[i := n]);
    forall j | j != i ensures OwnedBy(o', j) == OwnedBy(o, j) {
      if j in inodes {
        assert Untouched(d, d', inodes[j]);
      }
    }
    assert OwnedBy(o', i) == Owns(d', n) && OwnedBy(o, i) == Owns(d, inodes[i]);
    Reassign(o, o', bits, bits', base, reserved, i);
  }

  /** Inode i gave up block lba; nothing in the data region was written. */
  lemma Shrunk(d: Disk, d': Disk, inodes: map<nat, Inode>, i: nat, n: Inode, bits: seq<bool>, bits': seq<bool>,
               base: nat, reserved: set<nat>, lba: nat)
    requires Sound(d, inodes, bits, base, reserved) && i in inodes && n.Fits() && n.no == i && SameData(d, d', base)
    requires lba in Owns(d, inodes[i]) && Owns(d', n) == Owns(d, inodes[i]) - {lba} && Distinct(Slots(d', n))
    requires Releases.Cleared(bits, bits', base, {lba})
    ensures Sound(d', inodes[i := n], bits', base, reserved) && Files.OthersSame(d, d', inodes, inodes[i := n], i)
  {
    Releases.OthersAfterRelease(d, d', inodes, bits, base, reserved, i);
    ShrunkAccounted(d, d', inodes, i, n, bits, bits', base, reserved, lba);
    Files.AllDistinct(d, d', inodes, inodes[i := n], i, n);
    Files.OthersDone(d, d', inodes, inodes[i := n], i, n);
  }

  lemma DropSlot(s: seq<nat>, k: nat)
    requires Distinct(s) && k < |s| && s[k] != 0
    ensures Distinct(s[k := 0]) && NonZero(s[k := 0]) == NonZero(s) - {s[k]}
  {
    var t := s[k := 0];
    forall i, j ensures !Clash(t, i, j) {
      assert !Clash(s, i, j);
    }
    forall y ensures y in t && y != 0 <==> y in s && y != 0 && y != s[k] {
      if y in s && y != s[k] {
        var i :| 0 <= i < |s| && s[i] == y;
        assert t[i] == y;
      }
      if y in t && y != 0 {
        var i :| 0 <= i < |t| && t[i] == y;
        assert i != k && s[i] == y && !Clash(s, i, k) && !Clash(s, k, i);
      }
    }
  }

  function Shorter(n: Inode): Inode
    requires n.size >= SLOT
  {
    n.(size := n.size - SLOT)
  }

  function Dropped(n: Inode, b: nat): Inode
    requires n.size >= SLOT && b < |n.sectors|
  {
    n.(size := n.size - SLOT, sectors := n.sectors[b := 0])
  }

  function ClearedDisk(d: Disk, lba: nat, k: nat): Disk
    requires k < PER_SECTOR
  {
    d[lba := Splice(ReadSector(d, lba), SLOT * k, EMPTY)]
  }

  lemma SizeOk(es: seq<Entry>, sectors: seq<nat>, size: nat, x: nat)
    requires EntriesOk(es, sectors, size) && x < |es| && es[x].Entry?
    ensures size >= SLOT
  {
    ListedAround(es, x);
  }

  /** The entry alone is cleared: the directory. */
  lemma ClearRow(d: Disk, n: Inode, b: nat, k: nat, y: nat, ino: nat)
    requires |n.sectors| == 13 && DirOk(d, n) && k < PER_SECTOR
             && Found(View(d, n.sectors), b, PER_SECTOR * b + k, false, y, ino)
    requires n.sectors[b] != 0 && Distinct(Slots(d, n))
    ensures n.size >= SLOT && DirOk(ClearedDisk(d, n.sectors[b], k), Shorter(n))
    ensures View(ClearedDisk(d, n.sectors[b], k), n.sectors) == View(d, n.sectors)[PER_SECTOR * b + k := Free]
  {
    SizeOk(View(d, n.sectors), n.sectors, n.size, PER_SECTOR * b + k);
    DirInserts.DirectDistinct(d, n);
    RowWrite(d, n.sectors, b, k, EMPTY);
    DeletedDir(d, ClearedDisk(d, n.sectors[b], k), n, Shorter(n), b, PER_SECTOR * b + k, y);
  }

  lemma ClearEntry(d: Disk, inodes: map<nat, Inode>, i: nat, bits: seq<bool>, base: nat, reserved: set<nat>,
                   b: nat, k: nat, y: nat, ino: nat)
    requires Sound(d, inodes, bits, base, reserved) && i in inodes && DirOk(d, inodes[i])
    requires k < PER_SECTOR && Found(View(d, inodes[i].sectors), b, PER_SECTOR * b + k, false, y, ino)
             && inodes[i].sectors[b] != 0
    ensures inodes[i].size >= SLOT
    ensures var d', n' := ClearedDisk(d, inodes[i].sectors[b], k), Shorter(inodes[i]);
            && Sound(d', inodes[i := n'], bits, base, reserved)
               && Gone(d, d', inodes, inodes[i := n'], i, PER_SECTOR * b + k)
  {
    var n := inodes[i];
    assert Distinct(Slots(d, n));
    ClearRow(d, n, b, k, y, ino);
    var d', n' := ClearedDisk(d, n.sectors[b], k), Shorter(n);
    DirInserts.RewriteInPlace(d, d', inodes, i, n', bits, base, reserved, b,
                              Splice(ReadSector(d, n.sectors[b]), SLOT * k, EMPTY));
    GoneNow(d, d', inodes, i, n', PER_SECTOR * b + k);
  }

  lemma OthersEmpty(d: Disk, sectors: seq<nat>, b: nat, k: nat, y: nat, ino: nat)
    requires |sectors| == 13 && Clean(Row(d, sectors)) && k < PER_SECTOR
    requires Found(View(d, sectors), b, PER_SECTOR * b + k, true, y, ino)
    ensures forall k': nat :: k' < PER_SECTOR && k' != k ==> SlotIn(d, sectors, b, k') == EMPTY
  {
    forall k': nat | k' < PER_SECTOR && k' != k ensures SlotIn(d, sectors, b, k') == EMPTY {
      RowAt(d, sectors, b, k');
      assert View(d, sectors)[PER_SECTOR * b + k'].Free?;
    }
  }

  /** The block of the entry is dropped: the directory. */
  lemma DropRow(d: Disk, d1: Disk, n: Inode, b: nat, k: nat, y: nat, ino: nat)
    requires |n.sectors| == 13 && DirOk(d, n) && k < PER_SECTOR
             && Found(View(d, n.sectors), b, PER_SECTOR * b + k, true, y, ino)
    requires forall c: nat :: c < DIRECT && n.sectors[c] != 0 ==>
               ReadSector(d1, n.sectors[c]) == ReadSector(d, n.sectors[c])
    ensures n.size >= SLOT && DirOk(d1, Dropped(n, b))
    ensures View(d1, Dropped(n, b).sectors) == View(d, n.sectors)[PER_SECTOR * b + k := Free]
  {
    SizeOk(View(d, n.sectors), n.sectors, n.size, PER_SECTOR * b + k);
    RowKept(d, d1, n.sectors);
    OthersEmpty(d1, n.sectors, b, k, y, ino);
    RowDrop(d1, n.sectors, b, k);
    DeletedDir(d, d1, n, Dropped(n, b), b, PER_SECTOR * b + k, y);
  }

  /** The block of the entry is dropped: the books. */
  lemma DropBooks(d: Disk, d1: Disk, inodes: map<nat, Inode>, i: nat, bits: seq<bool>, bits1: seq<bool>, base: nat,
                  reserved: set<nat>, b: nat)
    requires Sound(d, inodes, bits, base, reserved) && i in inodes && SameData(d, d1, base) && inodes[i].size >= SLOT
    requires 0 < b < DIRECT && inodes[i].sectors[b] != 0 && inodes[i].sectors[12] == 0
    requires Releases.Cleared(bits, bits1, base, {inodes[i].sectors[b]})
    ensures var n' := Dropped(inodes[i], b);
            Sound(d1, inodes[i := n'], bits1, base, reserved) && Files.OthersSame(d, d1, inodes, inodes[i := n'], i)
  {
    var n := inodes[i];
    var n' := Dropped(n, b);
    DirInserts.DirSlotsSet(d, d1, n, n', b, 0);
    assert Distinct(Slots(d, n)) && Slots(d, n)[b] == n.sectors[b];
    DropSlot(Slots(d, n), b);
    DirInserts.OwnBlock(d, n, b);
    Shrunk(d, d1, inodes, i, n', bits, bits1, base, reserved, n.sectors[b]);
  }

  lemma DropDir(d: Disk, d1: Disk, inodes: map<nat, Inode>, i: nat, bits: seq<bool>, base: nat, reserved: set<nat>,
                b: nat, k: nat, y: nat, ino: nat)
    requires Sound(d, inodes, bits, base, reserved) && i in inodes && DirOk(d, inodes[i]) && SameData(d, d1, base)
    requires k < PER_SECTOR && Found(View(d, inodes[i].sectors), b, PER_SECTOR * b + k, true, y, ino)
    ensures inodes[i].size >= SLOT && b > 0 && inodes[i].sectors[12] == 0 && DirOk(d1, Dropped(inodes[i], b))
    ensures View(d1, Dropped(inodes[i], b).sectors) == View(d, inodes[i].sectors)[PER_SECTOR * b + k := Free]
  {
    Releases.OthersAfterRelease(d, d1, inodes, bits, base, reserved, i);
    OwnSectors(d, d1, inodes[i]);
    DropRow(d, d1, inodes[i], b, k, y, ino);
  }

  lemma DropEntry(d: Disk, d1: Disk, inodes: map<nat, Inode>, i: nat, bits: seq<bool>, bits1: seq<bool>, base: nat,
                  reserved: set<nat>, b: nat, k: nat, y: nat, ino: nat)
    requires Sound(d, inodes, bits, base, reserved) && i in inodes && DirOk(d, inodes[i]) && SameData(d, d1, base)
    requires k < PER_SECTOR && Found(View(d, inodes[i].sectors), b, PER_SECTOR * b + k, true, y, ino)
             && inodes[i].sectors[b] != 0
    requires Releases.Cleared(bits, bits1, base, {inodes[i].sectors[b]})
    ensures inodes[i].size >= SLOT
    ensures var n' := Dropped(inodes[i], b);
            && Sound(d1, inodes[i := n'], bits1, base, reserved) && n'.sectors[0] == inodes[i].sectors[0]
            && Gone(d, d1, inodes, inodes[i := n'], i, PER_SECTOR * b + k)
  {
    var n := inodes[i];
    DropDir(d, d1, inodes, i, bits, base, reserved, b, k, y, ino);
    DropBooks(d, d1, inodes, i, bits, bits1, base, reserved, b);
    DropGone(d, d1, inodes, i, Dropped(n, b), b, PER_SECTOR * b + k);
  }

  lemma DropGone(d: Disk, d1: Disk, inodes: map<nat, Inode>, i: nat, n': Inode, b: nat, x: nat)
    requires i in inodes && Files.OthersSame(d, d1, inodes, inodes[i := n'], i) && |inodes[i].sectors| == 13
             && b < DIRECT
    requires inodes[i].size >= SLOT && n' == Dropped(inodes[i], b) && DirOk(d1, n') && x < CAPACITY
    requires View(d, inodes[i].sectors)[x].Entry? && View(d1, n'.sectors) == View(d, inodes[i].sectors)[x := Free]
    ensures Gone(d, d1, inodes, inodes[i := n'], i, x)
  {
    GoneNow(d, d1, inodes, i, n', x);
  }

  lemma OwnSectors(d: Disk, d': Disk, n: Inode)
    requires |n.sectors| == 13 && Untouched(d, d', n)
    ensures forall c: nat :: c < DIRECT && n.sectors[c] != 0 ==>
              ReadSector(d', n.sectors[c]) == ReadSector(d, n.sectors[c])
  {
    forall c: nat | c < DIRECT && n.sectors[c] != 0
      ensures ReadSector(d', n.sectors[c]) == ReadSector(d, n.sectors[c]) {
      DirInserts.OwnBlock(d, n, c);
    }
  }

  // ---------------------------------------------------------------- delete_dir_entry

  method ClearSlot(p: Partition, i: nat, b: nat, k: nat, ghost y: nat, ino: nat)
    requires p.Valid() && i in p.inodes && DirOk(p.disk, p.inodes[i]) && k < PER_SECTOR
    requires Found(View(p.disk, p.inodes[i].sectors), b, PER_SECTOR * b + k, false, y, ino)
             && p.inodes[i].sectors[b] != 0
    modifies p
    ensures p.Valid() && p.bits == old(p.bits)
            && Gone(old(p.disk), p.disk, old(p.inodes), p.inodes, i, PER_SECTOR * b + k)
    ensures SameTable(old(p.disk), p.disk, p.tableLba)
  {
    ClearEntry(p.disk, p.inodes, i, p.bits, p.dataStart, p.reserved, b, k, y, ino);
    DirInserts.BlockInData(p.disk, p.inodes, p.bits, p.dataStart, p.reserved, i, b);
    DirInserts.Install(p, i, Shorter(p.inodes[i]), ClearedDisk(p.disk, p.inodes[i].sectors[b], k));
  }

  method ClearBit(p: Partition, lba: nat)
    requires p.Layout() && p.dataStart <= lba < p.dataStart + |p.bits|
    requires Noted(p.disk, p.bitmapLba, p.bits, p.dataStart, Tables(p.inodes))
    modifies p`bits, p`disk
    ensures p.Layout() && SameData(old(p.disk), p.disk, p.tableLba)
            && Releases.Cleared(old(p.bits), p.bits, p.dataStart, {lba})
            && SectorSynced(p.disk, p.bitmapLba, p.bits, lba - p.dataStart)
    ensures Noted(p.disk, p.bitmapLba, p.bits, p.dataStart, Tables(p.inodes))
  {
    Releases.ClearOne(p.bits, p.bits, p.dataStart, {}, lba);
    p.bits := p.bits[lba - p.dataStart := false];
    p.BitmapSync(lba);
    NotedSynced(old(p.disk), p.disk, p.bitmapLba, old(p.bits), p.bits, p.dataStart, Tables(p.inodes),
                Tables(p.inodes), lba, false);
  }

  /** The only entry of block b is in slot k, and the bit of the block was cleared. */
  ghost predicate Freed(d: Disk, d1: Disk, inodes: map<nat, Inode>, i: nat, bits: seq<bool>, bits1: seq<bool>,
                        base: nat, reserved: set<nat>, b: nat, k: nat, y: nat, ino: nat)
  {
    && Sound(d, inodes, bits, base, reserved) && i in inodes && DirOk(d, inodes[i]) && SameData(d, d1, base)
       && k < PER_SECTOR
    && Found(View(d, inodes[i].sectors), b, PER_SECTOR * b + k, true, y, ino) && inodes[i].sectors[b] != 0
    && Releases.Cleared(bits, bits1, base, {inodes[i].sectors[b]})
  }

  lemma DropFreed(d: Disk, d1: Disk, inodes: map<nat, Inode>, i: nat, bits: seq<bool>, bits1: seq<bool>, base: nat,
                  reserved: set<nat>, b: nat, k: nat, y: nat, ino: nat)
    requires Freed(d, d1, inodes, i, bits, bits1, base, reserved, b, k, y, ino)
    ensures inodes[i].size >= SLOT
    ensures var n' := Dropped(inodes[i], b);
            && Sound(d1, inodes[i := n'], bits1, base, reserved) && n'.sectors[0] == inodes[i].sectors[0]
            && Gone(d, d1, inodes, inodes[i := n'], i, PER_SECTOR * b + k)
  {
    DropEntry(d, d1, inodes, i, bits, bits1, base, reserved, b, k, y, ino);
  }

  method DropBlock(p: Partition, i: nat, b: nat, ghost k: nat, ghost y: nat, ghost ino: nat)
    requires p.Valid() && i in p.inodes && DirOk(p.disk, p.inodes[i]) && k < PER_SECTOR
    requires Found(View(p.disk, p.inodes[i].sectors), b, PER_SECTOR * b + k, true, y, ino)
             && p.inodes[i].sectors[b] != 0
    modifies p
    ensures p.Valid() && Gone(old(p.disk), p.disk, old(p.inodes), p.inodes, i, PER_SECTOR * b + k)
    ensures SameTable(old(p.disk), p.disk, p.tableLba)
  {
    DirInserts.BlockInData(p.disk, p.inodes, p.bits, p.dataStart, p.reserved, i, b);
    ClearBit(p, p.inodes[i].sectors[b]);
    DropFreed(old(p.disk), p.disk, p.inodes, i, old(p.bits), p.bits, p.dataStart, p.reserved, b, k, y, ino);
    DirInserts.Install(p, i, Dropped(p.inodes[i], b), p.disk);
  }

  lemma SoundAfterSync(d: Disk, d': Disk, inodes: map<nat, Inode>, bits: seq<bool>, base: nat, reserved: set<nat>)
    requires Sound(d, inodes, bits, base, reserved) && SameData(d, d', base)
    ensures Sound(d', inodes, bits, base, reserved) && forall j <- inodes :: Untouched(d, d', inodes[j])
  {
    Releases.OthersAfterRelease(d, d', inodes, bits, base, reserved, 0);
    assert OwnMap(d', inodes) == OwnMap(d, inodes);
    forall j {:trigger Slots(d', inodes[j])} | j in inodes ensures Distinct(Slots(d', inodes[j])) {
      assert Untouched(d, d', inodes[j]) && Distinct(Slots(d, inodes[j]));
    }
  }

  lemma OthersAfterSync(d: Disk, d1: Disk, d2: Disk, inodes: map<nat, Inode>, inodes': map<nat, Inode>, i: nat)
    requires Files.OthersSame(d, d1, inodes, inodes', i)
    requires forall j <- inodes' :: |inodes'[j].sectors| == 13 && Untouched(d1, d2, inodes'[j])
    ensures Files.OthersSame(d, d2, inodes, inodes', i)
  {
    forall j | j in inodes && j != i ensures Untouched(d, d2, inodes[j]) {
      assert Untouched(d, d1, inodes[j]) && Untouched(d1, d2, inodes'[j]);
    }
  }

  lemma GoneAfterSync(d: Disk, d1: Disk, d2: Disk, inodes: map<nat, Inode>, inodes': map<nat, Inode>, i: nat, x: nat)
    requires Gone(d, d1, inodes, inodes', i, x) && Files.OthersSame(d, d2, inodes, inodes', i)
    requires |inodes'[i].sectors| == 13 && Row(d2, inodes'[i].sectors) == Row(d1, inodes'[i].sectors)
    ensures Gone(d, d2, inodes, inodes', i, x)
  {
  }

  /** inode_sync of a directory that was just changed. */
  method SyncDir(p: Partition, i: nat, ghost d: Disk, ghost inodes: map<nat, Inode>, ghost x: nat)
    requires p.Valid() && i in p.inodes && Gone(d, p.disk, inodes, p.inodes, i, x) && SameTable(d, p.disk, p.tableLba)
    modifies p`disk
    ensures p.Valid() && Gone(d, p.disk, inodes, p.inodes, i, x) && Synced(d, p.disk, p.tableLba, p.inodes[i])
  {
    ghost var d1 := p.disk;
    Files.SyncInode(p, p.inodes[i]);
    NotedKept(d1, p.disk, p.bitmapLba, p.bits, p.dataStart, Tables(p.inodes), Tables(p.inodes));
    SoundAfterSync(d1, p.disk, p.inodes, p.bits, p.dataStart, p.reserved);
    OthersAfterSync(d, d1, p.disk, inodes, p.inodes, i);
    DirKept(d1, p.disk, p.inodes[i]);
    GoneAfterSync(d, d1, p.disk, inodes, p.inodes, i, x);
    SyncedAfter(d, d1, p.disk, p.tableLba, p.inodes[i]);
  }

  /** What the scan found can be removed. */
  ghost predicate CanUnlink(d: Disk, n: Inode, x: nat, b: nat, k: nat, drop: bool, y: nat, ino: nat) {
    && |n.sectors| == 13 && DirOk(d, n) && b < DIRECT && k < PER_SECTOR && n.sectors[b] != 0 && x == PER_SECTOR * b + k
    && Found(View(d, n.sectors), b, x, drop, y, ino)
  }

  lemma ScanRemovable(d: Disk, n: Inode, b: nat, r: Scan, y: nat, ino: nat)
    requires |n.sectors| == 13 && DirOk(d, n) && r.found < PER_SECTOR && b < DIRECT && n.sectors[b] != 0
    requires BlockScanned(View(d, n.sectors), b, r, y, ino)
    ensures CanUnlink(d, n, PER_SECTOR * b + r.found, b, r.found, r.cnt == 1 && !r.first, y, ino)
  {
  }

  /** Clear the entry or drop its block. */
  method Unlink(p: Partition, i: nat, ghost x: nat, b: nat, k: nat, drop: bool, ghost y: nat, ino: nat)
    requires p.Valid() && i in p.inodes && CanUnlink(p.disk, p.inodes[i], x, b, k, drop, y, ino)
    modifies p
    ensures p.Valid() && Gone(old(p.disk), p.disk, old(p.inodes), p.inodes, i, x)
    ensures SameTable(old(p.disk), p.disk, p.tableLba)
  {
    if drop {
      DropBlock(p, i, b, k, y, ino);
    } else {
      ClearSlot(p, i, b, k, y, ino);
    }
  }

  /** The entry that the scan found is removed, and the inode synced. */
  method RemoveEntry(p: Partition, i: nat, ghost x: nat, b: nat, k: nat, drop: bool, ghost y: nat, ino: nat)
    requires p.Valid() && i in p.inodes && CanUnlink(p.disk, p.inodes[i], x, b, k, drop, y, ino)
    modifies p
    ensures p.Valid() && Gone(old(p.disk), p.disk, old(p.inodes), p.inodes, i, x)
    ensures Synced(old(p.disk), p.disk, p.tableLba, p.inodes[i])
  {
    Unlink(p, i, x, b, k, drop, y, ino);
    SyncDir(p, i, old(p.disk), old(p.inodes), x);
  }

  /** delete_dir_entry: the entry with number ino becomes free, if there is one; no assertion fails. */
  method DeleteDirEntry(p: Partition, i: nat, ino: nat) returns (ok: bool, found: bool, ghost x: nat)
    requires p.Valid() && i in p.inodes && DirOk(p.disk, p.inodes[i])
    modifies p
    ensures ok && p.Valid()
    ensures !found ==> p.disk == old(p.disk) && p.bits == old(p.bits) && p.inodes == old(p.inodes)
    ensures !found ==> InoNotBefore(View(p.disk, p.inodes[i].sectors), CAPACITY, ino)
    ensures found ==> Gone(old(p.disk), p.disk, old(p.inodes), p.inodes, i, x) && x >= 2
    ensures found ==> old(View(p.disk, p.inodes[i].sectors))[x].ino == ino
    ensures found ==> Synced(old(p.disk), p.disk, p.tableLba, p.inodes[i])
  {
    var b, r;
    ghost var y;
    ok, b, r, y := FindIno(p.disk, p.inodes[i].sectors, ino);
    found := b < DIRECT;
    x := PER_SECTOR * b + r.found;
    if found {
      ScanRemovable(p.disk, p.inodes[i], b, r, y, ino);
      RemoveEntry(p, i, x, b, r.found, r.cnt == 1 && !r.first, y, ino);
    }
  }

  /** The deletion seen from outside: one name less, one entry less in the listing. */
  lemma DeleteMeans(d: Disk, d': Disk, inodes: map<nat, Inode>, inodes': map<nat, Inode>, i: nat, x: nat)
    requires Gone(d, d', inodes, inodes', i, x) && DirOk(d, inodes[i])
    ensures var es, es' := View(d, inodes[i].sectors), View(d', inodes'[i].sectors);
            && es[x].name in NameMap(es) && NameMap(es') == NameMap(es) - {es[x].name}
            && multiset(Listed(es)) == multiset(Listed(es')) + multiset{es[x]}
  {
    var es, es' := View(d, inodes[i].sectors), View(d', inodes'[i].sectors);
    NameMapClear(es, es', x, Free);
    ListedClear(es, x, Free, es');
  }

  // ---------------------------------------------------------------- dir_remove

  /** The loop of assertions: only the first block of an empty directory exists. */
  method OnlyFirstBlock(n: Inode) returns (ok: bool)
    requires |n.sectors| == 13
    ensures ok <==> forall b :: 1 <= b < 13 ==> n.sectors[b] == 0
  {
    var block_idx := 1;
    ok := true;
    while block_idx < 13
      invariant 1 <= block_idx <= 13 && (ok <==> forall b :: 1 <= b < block_idx ==> n.sectors[b] == 0)
    {
      ok := ok && n.sectors[block_idx] == 0;
      block_idx := block_idx + 1;
    }
  }

  /** The directory shows the same entries after another inode was released. */
  lemma ParentKept(d: Disk, d': Disk, n: Inode)
    requires |n.sectors| == 13 && Untouched(d, d', n)
    ensures View(d', n.sectors) == View(d, n.sectors) && (DirOk(d, n) ==> DirOk(d', n))
  {
    DirKept(d, d', n);
  }

  /** The inodes left, but for i, are as they were. */
  ghost predicate OthersLeft(d: Disk, d': Disk, inodes: map<nat, Inode>, inodes': map<nat, Inode>, i: nat) {
    forall k :: k in inodes' && k != i ==>
      k in inodes && inodes'[k] == inodes[k] && |inodes[k].sectors| == 13 && Untouched(d, d', inodes[k])
  }

  /** The entry in slot x of directory i, with number j, is gone. */
  ghost predicate EntryGone(d: Disk, d': Disk, n: Inode, n': Inode, j: nat, x: nat) {
    && |n.sectors| == 13 == |n'.sectors| && 2 <= x < CAPACITY
    && View(d, n.sectors)[x].Entry? && View(d, n.sectors)[x].ino == j
    && DirOk(d', n') && View(d', n'.sectors) == View(d, n.sectors)[x := Free]
  }

  /** Directory i has lost its entry for inode j. */
  ghost predicate Forgotten(d: Disk, d': Disk, inodes: map<nat, Inode>, inodes': map<nat, Inode>, i: nat, j: nat,
                            x: nat) {
    && i in inodes && i in inodes' && EntryGone(d, d', inodes[i], inodes'[i], j, x)
       && OthersLeft(d, d', inodes, inodes', i)
  }

  lemma GoneForgotten(d: Disk, d': Disk, inodes: map<nat, Inode>, inodes': map<nat, Inode>, i: nat, j: nat, x: nat)
    requires Gone(d, d', inodes, inodes', i, x) && View(d, inodes[i].sectors)[x].ino == j && x >= 2
    ensures Forgotten(d, d', inodes, inodes', i, j, x)
  {
  }

  /** No inode in use was touched. */
  ghost predicate NoneTouched(d: Disk, d': Disk, inodes: map<nat, Inode>) {
    forall k <- inodes :: |inodes[k].sectors| == 13 && Untouched(d, d', inodes[k])
  }

  lemma NotTouched(d: Disk, d': Disk, inodes: map<nat, Inode>, k: nat)
    requires NoneTouched(d, d', inodes) && k in inodes
    ensures |inodes[k].sectors| == 13 && Untouched(d, d', inodes[k])
  {
  }

  lemma LeftAfter(d: Disk, d1: Disk, d2: Disk, inodes: map<nat, Inode>, inodes1: map<nat, Inode>,
                  inodes2: map<nat, Inode>, i: nat, j: nat)
    requires OthersLeft(d, d1, inodes, inodes1, i) && inodes2 == inodes1 - {j} && NoneTouched(d1, d2, inodes2)
    ensures OthersLeft(d, d2, inodes, inodes2, i)
  {
    forall k | k in inodes2 && k != i ensures Untouched(d, d2, inodes[k]) {
      assert Untouched(d, d1, inodes[k]);
      NotTouched(d1, d2, inodes2, k);
    }
  }

  lemma StillGone(d: Disk, d1: Disk, d2: Disk, n: Inode, n': Inode, j: nat, x: nat)
    requires EntryGone(d, d1, n, n', j, x) && Untouched(d1, d2, n')
    ensures EntryGone(d, d2, n, n', j, x)
  {
    ParentKept(d1, d2, n');
  }

  lemma StillForgotten(d: Disk, d1: Disk, d2: Disk, inodes: map<nat, Inode>, inodes1: map<nat, Inode>,
                       inodes2: map<nat, Inode>, i: nat, j: nat, x: nat)
    requires Forgotten(d, d1, inodes, inodes1, i, j, x) && i != j && inodes2 == inodes1 - {j}
    requires NoneTouched(d1, d2, inodes2)
    ensures Forgotten(d, d2, inodes, inodes2, i, j, x)
  {
    LeftAfter(d, d1, d2, inodes, inodes1, inodes2, i, j);
    NotTouched(d1, d2, inodes2, i);
    StillGone(d, d1, d2, inodes[i], inodes1[i], j, x);
  }

  lemma GoneRecords(d: Disk, d1: Disk, d2: Disk, t: nat, n: Inode, j: nat)
    requires |n.sectors| == 13 && Synced(d, d1, t, n) && Record(d2, t, j) == Zeros(INODE_SIZE)
    requires forall k: nat :: k < MAX_FILES_PER_PART && k != j ==> Record(d2, t, k) == Record(d1, t, k)
    ensures SyncedGone(d, d2, t, n, j)
  {
  }

  /** What delete_dir_entry followed by inode_release leaves: directory i without its entry for inode j, if it has one,
      and the other inodes, without j, as they were. */
  ghost predicate Removed(d: Disk, d': Disk, t: nat, inodes: map<nat, Inode>, inodes': map<nat, Inode>, i: nat,
                          j: nat, x: nat, listed: bool) {
    if listed then Forgotten(d, d', inodes, inodes', i, j, x) && SyncedGone(d, d', t, inodes'[i], j)
    else inodes' == inodes - {j} && NoneTouched(d, d', inodes')
  }

  /** Between the two. */
  ghost predicate Unlisted(d: Disk, d': Disk, t: nat, inodes: map<nat, Inode>, inodes': map<nat, Inode>, i: nat,
                           j: nat, x: nat, listed: bool) {
    if listed then i != j && Forgotten(d, d', inodes, inodes', i, j, x) && Synced(d, d', t, inodes'[i])
    else inodes' == inodes && d' == d
  }

  /** Directory i has an entry for inode j. */
  ghost predicate Lists(d: Disk, inodes: map<nat, Inode>, i: nat, j: nat) {
    i in inodes && |inodes[i].sectors| == 13 && !InoNotBefore(View(d, inodes[i].sectors), CAPACITY, j)
  }

  /** delete_dir_entry, whose result the callers do not look at. */
  method Forget(p: Partition, i: nat, j: nat) returns (ok: bool, ghost x: nat)
    requires p.Valid() && i in p.inodes && DirOk(p.disk, p.inodes[i]) && (Lists(p.disk, p.inodes, i, j) ==> i != j)
    modifies p
    ensures ok && p.Valid() && p.inodes.Keys == old(p.inodes.Keys)
    ensures Unlisted(old(p.disk), p.disk, p.tableLba, old(p.inodes), p.inodes, i, j, x,
                     Lists(old(p.disk), old(p.inodes), i, j))
  {
    var found;
    ok, found, x := DeleteDirEntry(p, i, j);
    NotListed(View(old(p.disk), old(p.inodes)[i].sectors), x, j, found);
    if found {
      GoneForgotten(old(p.disk), p.disk, old(p.inodes), p.inodes, i, j, x);
    }
  }

  lemma NotListed(es: seq<Entry>, x: nat, j: nat, found: bool)
    requires |es| == CAPACITY && (found ==> 2 <= x < CAPACITY && es[x].Entry? && es[x].ino == j)
    requires !found ==> InoNotBefore(es, CAPACITY, j)
    ensures found <==> !InoNotBefore(es, CAPACITY, j)
  {
  }

  lemma StillRemoved(d: Disk, d1: Disk, d2: Disk, t: nat, inodes: map<nat, Inode>, inodes1: map<nat, Inode>,
                     inodes2: map<nat, Inode>, i: nat, j: nat, x: nat, listed: bool)
    requires Unlisted(d, d1, t, inodes, inodes1, i, j, x, listed) && inodes2 == inodes1 - {j}
             && NoneTouched(d1, d2, inodes2)
    requires Record(d2, t, j) == Zeros(INODE_SIZE)
    requires forall k: nat :: k < MAX_FILES_PER_PART && k != j ==> Record(d2, t, k) == Record(d1, t, k)
    ensures Removed(d, d2, t, inodes, inodes2, i, j, x, listed)
  {
    if listed {
      StillForgotten(d, d1, d2, inodes, inodes1, inodes2, i, j, x);
      GoneRecords(d, d1, d2, t, inodes2[i], j);
    }
  }

  /** The last steps of sys_unlink and of dir_remove: delete_dir_entry in directory i, then inode_release of j, found
      or not. */
  method Remove(p: Partition, i: nat, j: nat) returns (ok: bool, ghost x: nat)
    requires p.Valid() && i in p.inodes && j in p.inodes && 0 < j < MAX_FILES_PER_PART && DirOk(p.disk, p.inodes[i])
    requires Lists(p.disk, p.inodes, i, j) ==> i != j
    modifies p
    ensures ok && p.Valid() && p.inodes.Keys == old(p.inodes.Keys) - {j}
    ensures Removed(old(p.disk), p.disk, p.tableLba, old(p.inodes), p.inodes, i, j, x,
                    Lists(old(p.disk), old(p.inodes), i, j))
  {
    ok, x := Forget(p, i, j);
    ghost var d1, inodes1 := p.disk, p.inodes;
    var fine := Releases.InodeRelease(p, j);
    ok := ok && fine;
    StillRemoved(old(p.disk), d1, p.disk, p.tableLba, old(p.inodes), inodes1, p.inodes, i, j, x,
                 Lists(old(p.disk), old(p.inodes), i, j));
  }

  /** dir_remove of an empty directory j from directory i: no assertion fails, directory i loses its entry for j, if it
      has one, and the books balance without j. */
  method DirRemove(p: Partition, i: nat, j: nat) returns (ok: bool, ghost x: nat)
    requires p.Valid() && i in p.inodes && j in p.inodes && 0 < j < MAX_FILES_PER_PART
    requires DirOk(p.disk, p.inodes[i]) && DirOk(p.disk, p.inodes[j]) && DirIsEmpty(p.inodes[j])
    requires Lists(p.disk, p.inodes, i, j) ==> i != j
    modifies p
    ensures ok && p.Valid() && p.inodes.Keys == old(p.inodes.Keys) - {j}
    ensures Removed(old(p.disk), p.disk, p.tableLba, old(p.inodes), p.inodes, i, j, x,
                    Lists(old(p.disk), old(p.inodes), i, j))
  {
    EmptyExact(p.disk, p.inodes[j]);
    ok := OnlyFirstBlock(p.inodes[j]);
    var fine;
    fine, x := Remove(p, i, j);
    ok := ok && fine;
  }
}
