/** fs/inode.c: a new inode, and giving back an inode with its blocks. */
module Releases {
  import opened Disks
  import opened InodeTable
  import opened Volumes
  import Files

  /** The bits that are set are those of before, without the blocks in `gone`. */
  ghost predicate Cleared(bits0: seq<bool>, bits: seq<bool>, base: nat, gone: set<nat>) {
    |bits| == |bits0| && forall b :: Marked(bits, base, b) <==> Marked(bits0, base, b) && b !in gone
  }

  /** The blocks of every inode but the root lie behind the first data block. */
  lemma OwnedInside(d: Disk, inodes: map<nat, Inode>, bits: seq<bool>, base: nat, reserved: set<nat>, i: nat)
    requires Sound(d, inodes, bits, base, reserved) && i in inodes && i != 0 && base > 0
    requires 0 in inodes && inodes[0].sectors[0] == base
    ensures forall b :: b in Owns(d, inodes[i]) ==> base < b < base + |bits|
  {
    var o := OwnMap(d, inodes);
    assert Slots(d, inodes[0])[0] == base;
    assert base in o[0];
    forall b | b in Owns(d, inodes[i]) ensures base < b < base + |bits| {
      assert i in o && b in o[i];
      assert Taken(o, b);
      assert !Shares(o, 0, i, b);
    }
  }

  lemma ClearOne(bits0: seq<bool>, bits: seq<bool>, base: nat, gone: set<nat>, b: nat)
    requires Cleared(bits0, bits, base, gone) && base <= b < base + |bits|
    ensures Cleared(bits0, bits[b - base := false], base, gone + {b})
  {
    forall c ensures Marked(bits[b - base := false], base, c) <==> Marked(bits, base, c) && c != b {
    }
  }

  /** bitmap_set to 0 and bitmap_sync; ok is the assertion that the index is not 0. */
  method FreeBlock(p: Partition, b: nat, ghost bits0: seq<bool>, ghost gone: set<nat>, ghost tables: set<nat>,
                   ghost tables': set<nat>)
    returns (ok: bool)
    requires Noted(p.disk, p.bitmapLba, p.bits, p.dataStart, tables) && tables - {b} <= tables'
    requires p.Layout() && p.dataStart < b < p.dataStart + |p.bits| && Cleared(bits0, p.bits, p.dataStart, gone)
    modifies p`bits, p`disk
    ensures ok && p.Layout() && Cleared(bits0, p.bits, p.dataStart, gone + {b})
    ensures SameData(old(p.disk), p.disk, p.tableLba) && SectorSynced(p.disk, p.bitmapLba, p.bits, b - p.dataStart)
    ensures Noted(p.disk, p.bitmapLba, p.bits, p.dataStart, tables')
  {
    ok := b - p.dataStart > 0;
    ClearOne(bits0, p.bits, p.dataStart, gone, b);
    p.bits := p.bits[b - p.dataStart := false];
    p.BitmapSync(b);
    NotedSynced(old(p.disk), p.disk, p.bitmapLba, old(p.bits), p.bits, p.dataStart, tables, tables', b, false);
  }

  lemma NextGone(all_blocks: seq<nat>, k: nat, gone: set<nat>)
    requires k < |all_blocks|
    ensures NonZero(all_blocks[..k + 1]) + gone ==
            if all_blocks[k] == 0 then NonZero(all_blocks[..k]) + gone
            else NonZero(all_blocks[..k]) + gone + {all_blocks[k]}
  {
    assert all_blocks[..k + 1] == all_blocks[..k] + [all_blocks[k]];
  }

  /** The loop that frees the data blocks. */
  method FreeData(p: Partition, all_blocks: seq<nat>, ghost bits0: seq<bool>, ghost gone: set<nat>,
                  ghost tables: set<nat>)
    returns (ok: bool)
    requires Noted(p.disk, p.bitmapLba, p.bits, p.dataStart, tables)
    requires p.Layout() && Cleared(bits0, p.bits, p.dataStart, gone)
    requires forall k :: 0 <= k < |all_blocks| && all_blocks[k] != 0 ==>
               p.dataStart < all_blocks[k] < p.dataStart + |p.bits|
    modifies p`bits, p`disk
    ensures ok && p.Layout() && Cleared(bits0, p.bits, p.dataStart, NonZero(all_blocks) + gone)
    ensures SameData(old(p.disk), p.disk, p.tableLba) && Noted(p.disk, p.bitmapLba, p.bits, p.dataStart, tables)
  {
    var block_idx := 0;
    ok := true;
    assert NonZero(all_blocks[..0]) + gone == gone;
    while block_idx < |all_blocks|
      invariant 0 <= block_idx <= |all_blocks| && p.Layout() && ok && |p.bits| == |bits0|
      invariant Cleared(bits0, p.bits, p.dataStart, NonZero(all_blocks[..block_idx]) + gone)
      invariant SameData(old(p.disk), p.disk, p.tableLba) && Noted(p.disk, p.bitmapLba, p.bits, p.dataStart, tables)
    {
      NextGone(all_blocks, block_idx, gone);
      if all_blocks[block_idx] != 0 {
        var fine := FreeBlock(p, all_blocks[block_idx], bits0, NonZero(all_blocks[..block_idx]) + gone, tables,
                              tables);
        ok := ok && fine;
      }
      block_idx := block_idx + 1;
    }
    assert all_blocks[..block_idx] == all_blocks;
  }

  lemma TableAndData(d: Disk, n: Inode)
    requires |n.sectors| == 13
    ensures Owns(d, n) == NonZero(BlocksOf(d, n)) + (if n.sectors[TABLE] == 0 then {} else {n.sectors[TABLE]})
  {
    assert Slots(d, n) == BlocksOf(d, n) + [n.sectors[TABLE]];
  }

  lemma DirectOnly(d: Disk, n: Inode)
    requires |n.sectors| == 13 && n.sectors[TABLE] == 0
    ensures NonZero(n.sectors[..12]) == NonZero(BlocksOf(d, n))
  {
    var z := seq(128, _ => 0);
    assert BlocksOf(d, n) == n.sectors[..12] + z;
    forall x | x in z ensures x == 0 {
    }
  }

  lemma SlotsOwned(d: Disk, n: Inode)
    requires |n.sectors| == 13
    ensures n.sectors[TABLE] != 0 ==> n.sectors[TABLE] in Owns(d, n)
    ensures forall k :: 0 <= k < BLOCKS && BlocksOf(d, n)[k] != 0 ==> BlocksOf(d, n)[k] in Owns(d, n)
  {
    TableAndData(d, n);
  }

  /** All blocks that inode n refers to are given back. */
  method FreeAll(p: Partition, n: Inode, ghost tables: set<nat>, ghost tables': set<nat>) returns (ok: bool)
    requires p.Layout() && |n.sectors| == 13 && p.dataStart > 0
    requires Noted(p.disk, p.bitmapLba, p.bits, p.dataStart, tables) && tables - {n.sectors[TABLE]} <= tables'
    requires forall b :: b in Owns(p.disk, n) ==> p.dataStart < b < p.dataStart + |p.bits|
    modifies p`bits, p`disk
    ensures ok && p.Layout() && Cleared(old(p.bits), p.bits, p.dataStart, old(Owns(p.disk, n)))
    ensures SameData(old(p.disk), p.disk, p.tableLba) && Noted(p.disk, p.bitmapLba, p.bits, p.dataStart, tables')
  {
    var all_blocks := n.sectors[..12];
    ghost var gone := {};
    SlotsOwned(p.disk, n);
    TableAndData(p.disk, n);
    ok := true;
    if n.sectors[TABLE] != 0 {
      all_blocks := BlocksOf(p.disk, n);
      ok := FreeBlock(p, n.sectors[TABLE], p.bits, {}, tables, tables');
      gone := gone + {n.sectors[TABLE]};
    } else {
      DirectOnly(p.disk, n);
      FirstTwelve(p.disk, n);
      NotedKept(p.disk, p.disk, p.bitmapLba, p.bits, p.dataStart, tables, tables');
    }
    var fine := FreeData(p, all_blocks, old(p.bits), gone, tables');
    ok := ok && fine;
  }

  lemma FirstTwelve(d: Disk, n: Inode)
    requires |n.sectors| == 13
    ensures forall k :: 0 <= k < 12 ==> n.sectors[..12][k] == BlocksOf(d, n)[k]
  {
  }

  lemma OthersAfterRelease(d: Disk, d': Disk, inodes: map<nat, Inode>, bits: seq<bool>, base: nat, reserved: set<nat>,
                           i: nat)
    requires Sound(d, inodes, bits, base, reserved) && SameData(d, d', base)
    ensures forall j <- inodes :: Untouched(d, d', inodes[j])
  {
    var o := OwnMap(d, inodes);
    forall j <- inodes ensures Untouched(d, d', inodes[j]) {
      forall b | b in Owns(d, inodes[j]) ensures ReadSector(d', b) == ReadSector(d, b) {
        assert j in o && b in o[j] && Taken(o, b);
      }
      DisjointUntouched(d, d', inodes[j]);
    }
  }

  /** Without inode i and its blocks the books still balance. */
  lemma Released(d: Disk, d': Disk, inodes: map<nat, Inode>, bits: seq<bool>, bits': seq<bool>, base: nat,
                 reserved: set<nat>, i: nat)
    requires Sound(d, inodes, bits, base, reserved) && SameData(d, d', base) && i in inodes
    requires Cleared(bits, bits', base, Owns(d, inodes[i]))
    ensures Sound(d', inodes - {i}, bits', base, reserved)
    ensures forall j <- inodes :: Untouched(d, d', inodes[j])
  {
    var inodes' := inodes - {i};
    var o, o' := OwnMap(d, inodes), OwnMap(d', inodes');
    OthersAfterRelease(d, d', inodes, bits, base, reserved, i);
    forall j | j != i ensures OwnedBy(o', j) == OwnedBy(o, j) {
      if j in inodes {
        assert Untouched(d, d', inodes[j]);
      }
    }
    assert OwnedBy(o', i) == {} && OwnedBy(o, i) == Owns(d, inodes[i]);
    Reassign(o, o', bits, bits', base, reserved, i);
    forall j {:trigger Slots(d', inodes'[j])} | j in inodes' ensures Distinct(Slots(d', inodes'[j])) {
      assert Untouched(d, d', inodes[j]) && Distinct(Slots(d, inodes[j]));
    }
  }

  lemma TablesLess(inodes: map<nat, Inode>, i: nat)
    requires i in inodes && |inodes[i].sectors| == 13
    ensures Tables(inodes) - {inodes[i].sectors[TABLE]} <= Tables(inodes - {i})
  {
    forall x | x in Tables(inodes) && x != inodes[i].sectors[TABLE] ensures x in Tables(inodes - {i}) {
      var j :| j in inodes && |inodes[j].sectors| == 13 && inodes[j].sectors[TABLE] == x;
      assert j in inodes - {i} && (inodes - {i})[j].sectors[TABLE] == x;
    }
  }

  /** inode_release: exactly the blocks that inode i owned are free again, and none of the assertions fails. */
  method InodeRelease(p: Partition, i: nat) returns (ok: bool)
    requires p.Valid() && i in p.inodes && i != 0 && i < MAX_FILES_PER_PART
    modifies p
    ensures ok && p.Valid() && p.inodes == old(p.inodes) - {i}
    ensures Cleared(old(p.bits), p.bits, p.dataStart, old(Owns(p.disk, p.inodes[i])))
    ensures forall j <- p.inodes :: |p.inodes[j].sectors| == 13 && Untouched(old(p.disk), p.disk, p.inodes[j])
    ensures Record(p.disk, p.tableLba, i) == Zeros(INODE_SIZE)
    ensures forall j: nat :: j < MAX_FILES_PER_PART && j != i ==>
              Record(p.disk, p.tableLba, j) == Record(old(p.disk), p.tableLba, j)
  {
    var inode_to_del := p.inodes[i];
    OwnedInside(p.disk, p.inodes, p.bits, p.dataStart, p.reserved, i);
    TablesLess(p.inodes, i);
    ghost var tables' := Tables(p.inodes - {i});
    var fine := FreeAll(p, inode_to_del, Tables(p.inodes), tables');
    ok := inode_to_del.no == i && fine;
    ghost var d1 := p.disk;
    p.disk := InodeDelete(p.disk, p.tableLba, i);
    forall j: nat | j < MAX_FILES_PER_PART
      ensures Record(p.disk, p.tableLba, j) == if j == i then Zeros(INODE_SIZE) else Record(old(p.disk), p.tableLba, j)
    {
      SameRecord(old(p.disk), d1, p.tableLba, j);
    }
    Released(old(p.disk), p.disk, p.inodes, old(p.bits), p.bits, p.dataStart, p.reserved, i);
    NotedKept(d1, p.disk, p.bitmapLba, p.bits, p.dataStart, tables', tables');
    p.inodes := p.inodes - {i};
  }

  // ---------------------------------------------------------------- a new inode

  function NewInode(i: nat): Inode {
    Inode(i, 0, 0, false, seq(13, _ => 0))
  }

  lemma NothingOwned(d: Disk, i: nat)
    ensures Owns(d, NewInode(i)) == {} && Distinct(Slots(d, NewInode(i))) && Files.FileOk(d, NewInode(i))
    ensures Files.Contents(d, NewInode(i)) == []
  {
    var z := seq(BLOCKS + 1, _ => 0);
    assert Slots(d, NewInode(i)) == z;
    forall x | x in z ensures x == 0 {
    }
  }

  /** A new inode is an empty file, and nothing else changes. */
  lemma Added(d: Disk, inodes: map<nat, Inode>, bits: seq<bool>, base: nat, reserved: set<nat>, i: nat)
    requires Sound(d, inodes, bits, base, reserved) && i !in inodes && i < WORDS
    ensures Sound(d, inodes[i := NewInode(i)], bits, base, reserved)
  {
    var n, inodes' := NewInode(i), inodes[i := NewInode(i)];
    NothingOwned(d, i);
    var o, o' := OwnMap(d, inodes), OwnMap(d, inodes');
    assert OwnedBy(o', i) == {} && OwnedBy(o, i) == {};
    Reassign(o, o', bits, bits, base, reserved, i);
    forall j {:trigger Slots(d, inodes'[j])} | j in inodes' ensures Distinct(Slots(d, inodes'[j])) {
      if j != i {
        assert Distinct(Slots(d, inodes[j]));
      }
    }
  }
}
