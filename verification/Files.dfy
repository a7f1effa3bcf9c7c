/** fs/file.c: appending to a file and reading from it. */
module Files {
  import opened Options
  import opened Disks
  import opened InodeTable
  import opened Volumes

  const BLOCK_SIZE := 512
  const MAX_SIZE := BLOCK_SIZE * BLOCKS   // 71680

  // ---------------------------------------------------------------- what a file is

  /** The first `size` bytes of the blocks `blk`. */
  function Bytes(d: Disk, blk: seq<nat>, size: nat): (r: seq<Byte>)
    requires |blk| == BLOCKS && size <= MAX_SIZE
    ensures |r| == size
  {
    seq<Byte>(size, j requires 0 <= j < size => ReadSector(d, blk[j / BLOCK_SIZE])[j % BLOCK_SIZE])
  }

  /** The first nb data blocks exist and no others; there is a table if they do not fit the direct slots. */
  ghost predicate HasBlocks(slots: seq<nat>, nb: nat) {
    && |slots| == BLOCKS + 1 && nb <= BLOCKS
    && (forall k :: 0 <= k < BLOCKS ==> (slots[k] != 0 <==> k < nb))
    && (slots[BLOCKS] != 0 <==> nb > 12)
  }

  /** The number of data blocks: size / 512 + 1, once there is a first block. */
  function BlockCount(slots: seq<nat>, size: nat): nat
    requires |slots| == BLOCKS + 1
  {
    if slots[0] == 0 then 0 else size / BLOCK_SIZE + 1
  }

  ghost predicate FileOk(d: Disk, n: Inode)
    requires |n.sectors| == 13
  {
    && n.size < MAX_SIZE && HasBlocks(Slots(d, n), BlockCount(Slots(d, n), n.size))
    && (n.sectors[0] == 0 ==> n.size == 0)
  }

  function Contents(d: Disk, n: Inode): seq<Byte>
    requires |n.sectors| == 13 && n.size <= MAX_SIZE
  {
    Bytes(d, BlocksOf(d, n), n.size)
  }

  // ---------------------------------------------------------------- collecting and allocating blocks

  /** all_blocks agrees with the blocks of the file where the data will go, and old blocks stay. */
  ghost predicate Collected(slots: seq<nat>, slots': seq<nat>, all_blocks: seq<nat>, has: nat, will: nat) {
    && 1 <= has <= will && HasBlocks(slots', will) && |slots| == |slots'| && |all_blocks| == BLOCKS
    && (forall k :: 0 <= k < has ==> slots'[k] == slots[k])
    && (forall k :: has - 1 <= k < will ==> all_blocks[k] == slots'[k])
  }

  /** Only the table of n, and metadata, changed on the disk. */
  ghost predicate OnlyTable(d: Disk, d': Disk, n: Inode, tableLba: nat)
    requires |n.sectors| == 13
  {
    forall b: nat :: b >= tableLba && b != n.sectors[TABLE] ==> ReadSector(d', b) == ReadSector(d, b)
  }

  lemma NoTable(d: Disk, n: Inode)
    requires |n.sectors| == 13 && n.sectors[TABLE] == 0
    ensures Slots(d, n) == n.sectors[..12] + seq(128, _ => 0) + [0]
  {
  }

  /** The slots of an inode whose table is still in all_blocks. */
  ghost function Pending(n: Inode, all_blocks: seq<nat>): seq<nat>
    requires |n.sectors| == 13 && |all_blocks| == BLOCKS
  {
    n.sectors[..12] + all_blocks[12..] + [n.sectors[TABLE]]
  }

  lemma WriteTable(d: Disk, n: Inode, all_blocks: seq<nat>)
    requires |n.sectors| == 13 && |all_blocks| == BLOCKS && n.sectors[TABLE] != 0
    requires forall k :: 0 <= k < BLOCKS ==> all_blocks[k] < WORDS
    ensures Slots(d[n.sectors[TABLE] := Encode(all_blocks[12..])], n) == Pending(n, all_blocks)
  {
    WordsOfEncode(all_blocks[12..]);
  }

  /** Blocks below `upto` are entered, those below `has` as at the start. */
  ghost predicate Filled(start: seq<nat>, n: Inode, all_blocks: seq<nat>, has: nat, upto: nat) {
    && n.Fits() && |all_blocks| == BLOCKS && |start| == BLOCKS + 1 && 1 <= has <= upto <= BLOCKS
    && n.sectors[TABLE] == start[BLOCKS]
    && (forall k :: 0 <= k < BLOCKS ==> all_blocks[k] < WORDS)
    && var slots := Pending(n, all_blocks);
    && (forall k :: 0 <= k < BLOCKS ==> (slots[k] != 0 <==> k < upto))
    && (forall k :: 0 <= k < has ==> slots[k] == start[k])
    && (forall k :: has - 1 <= k < upto ==> all_blocks[k] == slots[k])
  }

  function Entered(n: Inode, k: nat, b: nat): Inode
    requires |n.sectors| == 13
  {
    if k < 12 then n.(sectors := n.sectors[k := b]) else n
  }

  lemma FillOne(start: seq<nat>, n: Inode, all_blocks: seq<nat>, has: nat, k: nat, b: nat)
    requires Filled(start, n, all_blocks, has, k) && k < BLOCKS && 0 < b < WORDS
    ensures Pending(Entered(n, k, b), all_blocks[k := b]) == Pending(n, all_blocks)[k := b]
    ensures Filled(start, Entered(n, k, b), all_blocks[k := b], has, k + 1)
  {
    assert Pending(Entered(n, k, b), all_blocks[k := b]) == Pending(n, all_blocks)[k := b];
  }

  /** Exactly if so many blocks are free, they are taken. */
  ghost predicate Takes(ok: bool, bits: seq<bool>, bits': seq<bool>, count: nat) {
    (ok <==> FreeBits(bits) >= count) && (ok ==> FreeBits(bits') == FreeBits(bits) - count)
  }

  /** The body of the loops of situations 2 and 3: a new block goes to its direct slot below 12, and to
      all_blocks, which becomes the table in the end. */
  method AllocateOne(p: Partition, n0: Inode, ab0: seq<nat>, k: nat, ghost start: seq<nat>, ghost has: nat,
                     ghost slots0: seq<nat>, ghost bits0: seq<bool>)
    returns (ok: bool, n: Inode, all_blocks: seq<nat>)
    requires p.Layout() && k < BLOCKS && Filled(start, n0, ab0, has, k)
    requires Growing(slots0, bits0, Pending(n0, ab0), p.bits, p.dataStart) && p.NotedFor(n0)
    modifies p`bits, p`disk
    ensures ok ==> p.NotedFor(n0)
    ensures ok ==> p.Layout() && n == n0.(sectors := n.sectors) && Filled(start, n, all_blocks, has, k + 1)
    ensures ok ==> Growing(slots0, bits0, Pending(n, all_blocks), p.bits, p.dataStart)
    ensures SameData(old(p.disk), p.disk, p.tableLba) && (ok <==> FreeBits(old(p.bits)) > 0)
    ensures ok ==> FreeBits(p.bits) == FreeBits(old(p.bits)) - 1
  {
    n, all_blocks := n0, ab0;
    var lba := p.NewBlock(Tables(p.inodes) + {n0.sectors[TABLE]});
    if lba.None? {
      ok := false;
      return;
    }
    GrowOne(slots0, bits0, Pending(n0, ab0), old(p.bits), p.dataStart, k, lba.value);
    if k < 12 {
      assert n0.sectors[k] == Pending(n0, ab0)[k] == 0;    // ASSERT: the slot is not in use
    }
    FillOne(start, n0, ab0, has, k, lba.value);
    n := Entered(n0, k, lba.value);
    all_blocks := ab0[k := lba.value];
    ok := true;
  }

  method AllocateRest(p: Partition, n0: Inode, ab0: seq<nat>, has: nat, will: nat, ghost start: seq<nat>,
                      ghost slots0: seq<nat>, ghost bits0: seq<bool>)
    returns (ok: bool, n: Inode, all_blocks: seq<nat>)
    requires p.Layout() && has <= will <= BLOCKS && Filled(start, n0, ab0, has, has)
    requires Growing(slots0, bits0, Pending(n0, ab0), p.bits, p.dataStart) && p.NotedFor(n0)
    modifies p`bits, p`disk
    ensures ok ==> p.NotedFor(n0)
    ensures ok ==> p.Layout() && n == n0.(sectors := n.sectors) && Filled(start, n, all_blocks, has, will)
    ensures ok ==> Growing(slots0, bits0, Pending(n, all_blocks), p.bits, p.dataStart)
    ensures SameData(old(p.disk), p.disk, p.tableLba) && Takes(ok, old(p.bits), p.bits, will - has)
  {
    n, all_blocks := n0, ab0;
    var block_idx := has;
    ok := true;
    while block_idx < will
      invariant has <= block_idx <= will && p.Layout() && n == n0.(sectors := n.sectors) && p.NotedFor(n0)
      invariant Filled(start, n, all_blocks, has, block_idx)
      invariant Growing(slots0, bits0, Pending(n, all_blocks), p.bits, p.dataStart)
      invariant SameData(old(p.disk), p.disk, p.tableLba)
      invariant ok && Takes(ok, old(p.bits), p.bits, block_idx - has)
    {
      ok, n, all_blocks := AllocateOne(p, n, all_blocks, block_idx, start, has, slots0, bits0);
      if !ok {
        return;
      }
      block_idx := block_idx + 1;
    }
  }

  /** What the four ways to fill all_blocks have in common. */
  twostate predicate Ready(p: Partition, n0: Inode, n: Inode, all_blocks: seq<nat>, has: nat, will: nat,
                           slots0: seq<nat>, bits0: seq<bool>)
    reads p
  {
    && p.Layout() && |n0.sectors| == 13 && n.Fits() && n == n0.(sectors := n.sectors)
    && Growing(slots0, bits0, Slots(p.disk, n), p.bits, p.dataStart)
    && Collected(old(Slots(p.disk, n0)), Slots(p.disk, n), all_blocks, has, will)
    && OnlyTable(old(p.disk), p.disk, n, p.tableLba) && p.NotedFor(n) && SameTableSlot(n0, n)
  }

  /** An inode that has a table keeps it. */
  ghost predicate SameTableSlot(n0: Inode, n: Inode)
    requires |n0.sectors| == |n.sectors| == 13
  {
    n0.sectors[TABLE] != 0 ==> n.sectors[TABLE] == n0.sectors[TABLE]
  }

  lemma FilledIsCollected(d: Disk, n: Inode, all_blocks: seq<nat>, start: seq<nat>, has: nat, will: nat)
    requires Filled(start, n, all_blocks, has, will) && n.sectors[TABLE] != 0 && will > 12
    ensures var d' := d[n.sectors[TABLE] := Encode(all_blocks[12..])];
            Slots(d', n) == Pending(n, all_blocks) && Collected(start, Slots(d', n), all_blocks, has, will)
  {
    WriteTable(d, n, all_blocks);
  }

  lemma TableLoaded(d: Disk, n: Inode, has: nat, all_blocks: seq<nat>)
    requires n.Fits() && 12 < has <= BLOCKS && HasBlocks(Slots(d, n), has)
    requires all_blocks == seq(12, _ => 0) + SectorWords(ReadSector(d, n.sectors[TABLE]))
    ensures n.sectors[TABLE] != 0 && Pending(n, all_blocks) == Slots(d, n)
            && Filled(Slots(d, n), n, all_blocks, has, has)
  {
    assert n.sectors[TABLE] == Slots(d, n)[BLOCKS];
    assert Pending(n, all_blocks) == Slots(d, n);
  }

  /** The table in all_blocks goes to the disk. */
  method StoreTable(p: Partition, n: Inode, all_blocks: seq<nat>, ghost start: seq<nat>, has: nat, will: nat)
    requires Filled(start, n, all_blocks, has, will) && n.sectors[TABLE] != 0 && will > 12
    modifies p`disk
    ensures Slots(p.disk, n) == Pending(n, all_blocks) && Collected(start, Slots(p.disk, n), all_blocks, has, will)
    ensures OnlyTable(old(p.disk), p.disk, n, 0)
  {
    FilledIsCollected(p.disk, n, all_blocks, start, has, will);
    p.disk := p.disk[n.sectors[TABLE] := Encode(all_blocks[12..])];
  }

  /** The rest of situations 2 and 3. */
  method AllocateAndStore(p: Partition, n0: Inode, ab0: seq<nat>, has: nat, will: nat, ghost start: seq<nat>,
                          ghost slots0: seq<nat>, ghost bits0: seq<bool>)
    returns (ok: bool, n: Inode, all_blocks: seq<nat>)
    requires p.Layout() && 12 < will <= BLOCKS && has <= will
    requires Filled(start, n0, ab0, has, has) && n0.sectors[TABLE] != 0
    requires Growing(slots0, bits0, Pending(n0, ab0), p.bits, p.dataStart) && p.NotedFor(n0)
    modifies p`bits, p`disk
    ensures Takes(ok, old(p.bits), p.bits, will - has)
    ensures ok ==> p.Layout() && n.Fits() && n == n0.(sectors := n.sectors)
    ensures ok ==> Growing(slots0, bits0, Slots(p.disk, n), p.bits, p.dataStart)
    ensures ok ==> Collected(start, Slots(p.disk, n), all_blocks, has, will)
    ensures ok ==> OnlyTable(old(p.disk), p.disk, n, p.tableLba)
    ensures ok ==> n.sectors[TABLE] == n0.sectors[TABLE] && p.NotedFor(n)
  {
    ok, n, all_blocks := AllocateRest(p, n0, ab0, has, will, start, slots0, bits0);
    if ok {
      ghost var d1, tables := p.disk, Tables(p.inodes) + {n.sectors[TABLE]};
      TableInData(slots0, bits0, n, all_blocks, p.bits, p.dataStart);
      StoreTable(p, n, all_blocks, start, has, will);
      NotedKept(d1, p.disk, p.bitmapLba, p.bits, p.dataStart, tables, tables);
    }
  }

  lemma TableInData(slots0: seq<nat>, bits0: seq<bool>, n: Inode, all_blocks: seq<nat>, bits: seq<bool>, base: nat)
    requires |n.sectors| == 13 && |all_blocks| == BLOCKS && n.sectors[TABLE] != 0
    requires Growing(slots0, bits0, Pending(n, all_blocks), bits, base)
    ensures n.sectors[TABLE] >= base
  {
    assert Pending(n, all_blocks)[BLOCKS] == n.sectors[TABLE];
    assert n.sectors[TABLE] in NonZero(Pending(n, all_blocks));
    assert Marked(bits, base, n.sectors[TABLE]);
  }

  lemma DirectOnly(d: Disk, n: Inode, has: nat, all_blocks: seq<nat>)
    requires n.Fits() && 1 <= has <= 12 && HasBlocks(Slots(d, n), has)
    requires all_blocks == seq(BLOCKS, _ => 0)[has - 1 := n.sectors[has - 1]]
    ensures Pending(n, all_blocks) == Slots(d, n) && Filled(Slots(d, n), n, all_blocks, has, has)
  {
    assert n.sectors[TABLE] == Slots(d, n)[BLOCKS];
    NoTable(d, n);
    assert Pending(n, all_blocks) == Slots(d, n);
  }

  lemma StillDirect(d: Disk, n: Inode, all_blocks: seq<nat>, start: seq<nat>, has: nat, will: nat)
    requires Filled(start, n, all_blocks, has, will) && will <= 12 && start[BLOCKS] == 0
    ensures Slots(d, n) == Pending(n, all_blocks) && Collected(start, Slots(d, n), all_blocks, has, will)
  {
    NoTable(d, n);
    forall k | 12 <= k < BLOCKS ensures all_blocks[k] == 0 {
      assert Pending(n, all_blocks)[k] == all_blocks[k];
    }
    assert Slots(d, n) == Pending(n, all_blocks);
  }

  /** Situation 1: twelve direct blocks are enough. */
  method Situation1(p: Partition, n0: Inode, has: nat, will: nat, ghost slots0: seq<nat>, ghost bits0: seq<bool>)
    returns (ok: bool, n: Inode, all_blocks: seq<nat>)
    requires p.Layout() && n0.Fits() && 1 <= has <= will <= 12
    requires Growing(slots0, bits0, Slots(p.disk, n0), p.bits, p.dataStart) && HasBlocks(Slots(p.disk, n0), has)
    requires p.NotedFor(n0)
    modifies p`bits, p`disk
    ensures Takes(ok, old(p.bits), p.bits, will - has)
    ensures ok ==> Ready(p, n0, n, all_blocks, has, will, slots0, bits0)
  {
    assert n0.sectors[has - 1] == Slots(p.disk, n0)[has - 1] != 0;    // ASSERT: the last block exists
    all_blocks := seq(BLOCKS, _ => 0)[has - 1 := n0.sectors[has - 1]];
    DirectOnly(p.disk, n0, has, all_blocks);
    ghost var start := Slots(p.disk, n0);
    ok, n, all_blocks := AllocateRest(p, n0, all_blocks, has, will, start, slots0, bits0);
    if ok {
      StillDirect(p.disk, n, all_blocks, start, has, will);
    }
  }

  /** Situation 3: the file already has a table. */
  method Situation3(p: Partition, n0: Inode, has: nat, will: nat, ghost slots0: seq<nat>, ghost bits0: seq<bool>)
    returns (ok: bool, n: Inode, all_blocks: seq<nat>)
    requires p.Layout() && n0.Fits() && 12 < has < will <= BLOCKS
    requires Growing(slots0, bits0, Slots(p.disk, n0), p.bits, p.dataStart) && HasBlocks(Slots(p.disk, n0), has)
    requires p.NotedFor(n0)
    modifies p`bits, p`disk
    ensures Takes(ok, old(p.bits), p.bits, will - has)
    ensures ok ==> Ready(p, n0, n, all_blocks, has, will, slots0, bits0)
  {
    assert n0.sectors[TABLE] == Slots(p.disk, n0)[BLOCKS] != 0;    // ASSERT: the table exists
    all_blocks := seq(12, _ => 0) + SectorWords(ReadSector(p.disk, n0.sectors[TABLE]));
    TableLoaded(p.disk, n0, has, all_blocks);
    ok, n, all_blocks := AllocateAndStore(p, n0, all_blocks, has, will, Slots(p.disk, n0), slots0, bits0);
  }

  /** The table of a file that has none yet; its bit is not synced at once. */
  method NewTable(p: Partition, n0: Inode, has: nat, ghost slots0: seq<nat>, ghost bits0: seq<bool>)
    returns (ok: bool, n: Inode)
    requires p.Layout() && n0.Fits() && 1 <= has <= 12
    requires Growing(slots0, bits0, Slots(p.disk, n0), p.bits, p.dataStart) && HasBlocks(Slots(p.disk, n0), has)
    requires p.NotedFor(n0)
    modifies p`bits
    ensures p.Layout() && Takes(ok, old(p.bits), p.bits, 1) && n0.sectors[TABLE] == 0
    ensures ok ==> |n.sectors| == 13 && n == n0.(sectors := n0.sectors[TABLE := n.sectors[TABLE]])
                   && n.sectors[TABLE] != 0
    ensures ok ==> var ab := seq(BLOCKS, _ => 0)[has - 1 := n0.sectors[has - 1]];
                   && Filled(Slots(p.disk, n0)[BLOCKS := n.sectors[TABLE]], n, ab, has, has)
                   && Growing(slots0, bits0, Pending(n, ab), p.bits, p.dataStart) && p.NotedFor(n)
  {
    n, ok := n0, false;
    ghost var slots := Slots(p.disk, n0);
    assert n0.sectors[TABLE] == slots[BLOCKS] == 0;    // ASSERT: there is no table yet
    var lba := p.BlockAlloc();
    if lba.None? {
      return;
    }
    n := n0.(sectors := n0.sectors[TABLE := lba.value]);
    NotedNow(p.disk, p.bitmapLba, old(p.bits), p.bits, p.dataStart, Tables(p.inodes), lba.value);
    GrowOne(slots0, bits0, slots, old(p.bits), p.dataStart, BLOCKS, lba.value);
    TableFresh(p.disk, n0, has, lba.value);
    ok := true;
  }

  /** Situation 2: the file gets its table now. */
  method Situation2(p: Partition, n0: Inode, has: nat, will: nat, ghost slots0: seq<nat>, ghost bits0: seq<bool>)
    returns (ok: bool, n: Inode, all_blocks: seq<nat>)
    requires p.Layout() && n0.Fits() && 1 <= has <= 12 < will <= BLOCKS
    requires Growing(slots0, bits0, Slots(p.disk, n0), p.bits, p.dataStart) && HasBlocks(Slots(p.disk, n0), has)
    requires p.NotedFor(n0)
    modifies p`bits, p`disk
    ensures Takes(ok, old(p.bits), p.bits, will - has + 1)
    ensures ok ==> Ready(p, n0, n, all_blocks, has, will, slots0, bits0)
  {
    all_blocks := seq(BLOCKS, _ => 0);
    all_blocks := all_blocks[has - 1 := n0.sectors[has - 1]];
    ghost var slots := Slots(p.disk, n0);
    ok, n := NewTable(p, n0, has, slots0, bits0);
    if ok {
      ok, n, all_blocks := AllocateAndStore(p, n, all_blocks, has, will, slots[BLOCKS := n.sectors[TABLE]], slots0,
                                            bits0);
    }
  }

  /** An inode without a table gets one. */
  lemma NotedNow(d: Disk, lba: nat, bits: seq<bool>, bits': seq<bool>, base: nat, tables: set<nat>, b: nat)
    requires Noted(d, lba, bits, base, tables + {0}) && 0 < base <= b < base + |bits| && |bits| % 4096 == 0
    requires bits' == bits[b - base := true]
    ensures Noted(d, lba, bits', base, tables + {b})
  {
    NotedTable(d, lba, bits, bits', base, tables + {0}, b);
    NotedKept(d, d, lba, bits', base, tables + {0} + {b}, tables + {b});
  }

  lemma TableFresh(d: Disk, n: Inode, has: nat, b: nat)
    requires n.Fits() && 1 <= has <= 12 && HasBlocks(Slots(d, n), has) && 0 < b < WORDS
    ensures var n' := n.(sectors := n.sectors[TABLE := b]);
            var ab := seq(BLOCKS, _ => 0)[has - 1 := n.sectors[has - 1]];
            var start := Slots(d, n)[BLOCKS := b];
            Pending(n', ab) == start && Filled(start, n', ab, has, has)
  {
    var n' := n.(sectors := n.sectors[TABLE := b]);
    var ab := seq(BLOCKS, _ => 0)[has - 1 := n.sectors[has - 1]];
    var start := Slots(d, n)[BLOCKS := b];
    assert n.sectors[TABLE] == Slots(d, n)[BLOCKS];
    NoTable(d, n);
    assert Pending(n', ab) == start;
  }

  /** The blocks that a file of `has` blocks needs to have `will`: the table counts. */
  function MoreBlocks(has: nat, will: nat): nat
    requires has <= will
  {
    will - has + if has <= 12 < will then 1 else 0
  }

  /** The way through the branches of file_write that fill all_blocks.  With no block to add, the last block
      or the table is read. */
  method Collect(p: Partition, n0: Inode, has: nat, will: nat, ghost slots0: seq<nat>, ghost bits0: seq<bool>)
    returns (ok: bool, n: Inode, all_blocks: seq<nat>)
    requires p.Layout() && n0.Fits() && 1 <= has <= will <= BLOCKS
    requires Growing(slots0, bits0, Slots(p.disk, n0), p.bits, p.dataStart) && HasBlocks(Slots(p.disk, n0), has)
    requires p.NotedFor(n0)
    modifies p`bits, p`disk
    ensures Takes(ok, old(p.bits), p.bits, MoreBlocks(has, will))
    ensures ok ==> Ready(p, n0, n, all_blocks, has, will, slots0, bits0)
  {
    var add_blocks := will - has;
    if add_blocks == 0 {
      n, ok := n0, true;
      if has <= 12 {
        all_blocks := seq(BLOCKS, _ => 0)[has - 1 := n.sectors[has - 1]];
        DirectOnly(p.disk, n, has, all_blocks);
      } else {
        assert n.sectors[TABLE] == Slots(p.disk, n)[BLOCKS] != 0;    // ASSERT: the table exists
        all_blocks := seq(12, _ => 0) + SectorWords(ReadSector(p.disk, n.sectors[TABLE]));
        TableLoaded(p.disk, n, has, all_blocks);
      }
    } else if will <= 12 {
      ok, n, all_blocks := Situation1(p, n0, has, will, slots0, bits0);
    } else if has <= 12 {
      ok, n, all_blocks := Situation2(p, n0, has, will, slots0, bits0);
    } else {
      ok, n, all_blocks := Situation3(p, n0, has, will, slots0, bits0);
    }
  }

  // ---------------------------------------------------------------- writing the data

  /** The sector after a chunk was copied into it. */
  lemma WriteChunk(d: Disk, blk: seq<nat>, size: nat, chunk: seq<Byte>, io_buf: Sector)
    requires |blk| == BLOCKS && size + |chunk| <= MAX_SIZE && 0 < |chunk| <= BLOCK_SIZE - size % BLOCK_SIZE
    requires size % BLOCK_SIZE == 0 || io_buf == ReadSector(d, blk[size / BLOCK_SIZE])
    requires forall k :: 0 <= k < size / BLOCK_SIZE ==> blk[k] != blk[size / BLOCK_SIZE]
    ensures var lba := blk[size / BLOCK_SIZE];
            var d' := d[lba := Splice(io_buf, size % BLOCK_SIZE, chunk)];
            Bytes(d', blk, size + |chunk|) == Bytes(d, blk, size) + chunk
  {
    var k := size / BLOCK_SIZE;
    var d' := d[blk[k] := Splice(io_buf, size % BLOCK_SIZE, chunk)];
    forall j | 0 <= j < size + |chunk|
      ensures Bytes(d', blk, size + |chunk|)[j] == (Bytes(d, blk, size) + chunk)[j]
    {
      if j < k * BLOCK_SIZE {
        assert j / BLOCK_SIZE < k;
      } else {
        assert j / BLOCK_SIZE == k && j % BLOCK_SIZE == j - k * BLOCK_SIZE;
      }
    }
  }

  /** The two disks agree outside the blocks blk. */
  ghost predicate OnlyBlocks(d: Disk, d': Disk, blk: seq<nat>) {
    forall b: nat :: b !in blk ==> ReadSector(d', b) == ReadSector(d, b)
  }

  function Min(a: nat, b: nat): nat {
    if a < b then a else b
  }

  /** Arithmetic in uint32_t. */
  function U32(x: int): (r: nat)
    ensures 0 <= x < WORDS ==> r == x
  {
    x % WORDS
  }

  lemma U32Add(x: int, c: int)
    ensures U32(U32(x) + c) == U32(x + c)
  {
    assert x == x / WORDS * WORDS + x % WORDS;
    ModAdd(x % WORDS + c, x / WORDS);
  }

  lemma ModAdd(y: int, q: int)
    ensures (y + q * WORDS) % WORDS == y % WORDS
  {
    assert y == y / WORDS * WORDS + y % WORDS;
    assert y + q * WORDS == (y / WORDS + q) * WORDS + y % WORDS;
  }

  lemma FullSector(size: nat)
    ensures (size + (BLOCK_SIZE - size % BLOCK_SIZE)) % BLOCK_SIZE == 0
  {
  }

  /** One chunk: at most the rest of the block that the end of the file is in. */
  method WriteOne(p: Partition, size: nat, rest: seq<Byte>, first: bool, sec_lba: nat, ghost blk: seq<nat>)
    returns (chunk_size: nat)
    requires |blk| == BLOCKS && Distinct(blk) && size + |rest| < MAX_SIZE && |rest| > 0
    requires sec_lba == blk[size / BLOCK_SIZE] != 0 && (first || size % BLOCK_SIZE == 0)
    modifies p`disk
    ensures 0 < chunk_size <= |rest| && (chunk_size == |rest| || (size + chunk_size) % BLOCK_SIZE == 0)
    ensures Bytes(p.disk, blk, size + chunk_size) == Bytes(old(p.disk), blk, size) + rest[..chunk_size]
    ensures OnlyBlocks(old(p.disk), p.disk, blk)
  {
    var io_buf: Sector := ZEROS;
    var sec_off_bytes := size % BLOCK_SIZE;
    var sec_left_bytes := BLOCK_SIZE - sec_off_bytes;
    chunk_size := Min(|rest|, sec_left_bytes);
    if first {
      io_buf := ReadSector(p.disk, sec_lba);
    }
    FullSector(size);
    NoEarlier(blk, size / BLOCK_SIZE);
    WriteChunk(p.disk, blk, size, rest[..chunk_size], io_buf);
    p.disk := p.disk[sec_lba := Splice(io_buf, sec_off_bytes, rest[..chunk_size])];
  }

  /** The next chunk behind `a` and the bytes of buf that are already written. */
  method WriteNext(p: Partition, size: nat, buf: seq<Byte>, written: nat, first: bool, sec_lba: nat,
                   ghost blk: seq<nat>, ghost a: seq<Byte>)
    returns (chunk_size: nat)
    requires |blk| == BLOCKS && Distinct(blk) && written < |buf| && size + |buf| - written < MAX_SIZE
    requires sec_lba == blk[size / BLOCK_SIZE] != 0 && (first || size % BLOCK_SIZE == 0)
    requires Bytes(p.disk, blk, size) == a + buf[..written]
    modifies p`disk
    ensures 0 < chunk_size <= |buf| - written
            && (written + chunk_size == |buf| || (size + chunk_size) % BLOCK_SIZE == 0)
    ensures Bytes(p.disk, blk, size + chunk_size) == a + buf[..written + chunk_size]
    ensures OnlyBlocks(old(p.disk), p.disk, blk)
  {
    chunk_size := WriteOne(p, size, buf[written..], first, sec_lba, blk);
    NextChunk(a, buf, written, chunk_size);
  }

  /** The loop of file_write that moves the data. */
  method WriteData(p: Partition, n0: Inode, buf: seq<Byte>, all_blocks: seq<nat>, ghost blk: seq<nat>)
    returns (n: Inode, fd_pos: nat)
    requires |blk| == |all_blocks| == BLOCKS && Distinct(blk) && n0.size + |buf| < MAX_SIZE
    requires forall k :: n0.size / BLOCK_SIZE <= k <= (n0.size + |buf|) / BLOCK_SIZE ==> all_blocks[k] == blk[k] != 0
    modifies p`disk
    ensures n == n0.(size := n0.size + |buf|) && fd_pos == U32(n.size - 1)
    ensures Bytes(p.disk, blk, n.size) == Bytes(old(p.disk), blk, n0.size) + buf
    ensures OnlyBlocks(old(p.disk), p.disk, blk)
  {
    n := n0;
    var first_write_block, bytes_written := true, 0;
    fd_pos := U32(n.size - 1);
    while bytes_written < |buf|
      invariant 0 <= bytes_written <= |buf|
      invariant n == n0.(size := n0.size + bytes_written) && fd_pos == U32(n.size - 1)
      invariant Bytes(p.disk, blk, n.size) == Bytes(old(p.disk), blk, n0.size) + buf[..bytes_written]
      invariant OnlyBlocks(old(p.disk), p.disk, blk)
      invariant first_write_block || bytes_written == |buf| || n.size % BLOCK_SIZE == 0
    {
      var sec_idx := n.size / BLOCK_SIZE;
      var chunk_size := WriteNext(p, n.size, buf, bytes_written, first_write_block, all_blocks[sec_idx], blk,
                                  Bytes(old(p.disk), blk, n0.size));
      U32Add(n.size - 1, chunk_size);
      first_write_block := false;
      n := n.(size := n.size + chunk_size);
      fd_pos := U32(fd_pos + chunk_size);
      bytes_written := bytes_written + chunk_size;
    }
    assert buf[..|buf|] == buf;
  }

  lemma NextChunk(a: seq<Byte>, buf: seq<Byte>, w: nat, c: nat)
    requires w + c <= |buf|
    ensures a + buf[..w] + buf[w..][..c] == a + buf[..w + c]
  {
    assert buf[..w] + buf[w..][..c] == buf[..w + c];
  }

  lemma NoEarlier(blk: seq<nat>, k: nat)
    requires Distinct(blk) && k < |blk| && blk[k] != 0
    ensures forall j :: 0 <= j < k ==> blk[j] != blk[k]
  {
    forall j | 0 <= j < k ensures blk[j] != blk[k] {
      assert !Clash(blk, j, k);
    }
  }

  // ---------------------------------------------------------------- file_write

  /** Panic: an ASSERT stopped the kernel.  Failed: file_write returned -1.  Damaged: the sum of size and count wraps,
      passes the check, and the loop runs behind all_blocks. */
  datatype Write = Panic | Failed | Damaged | Written(count: nat)

  lemma StartGrowing(d: Disk, inodes: map<nat, Inode>, bits: seq<bool>, base: nat, reserved: set<nat>, i: nat)
    requires Numbered(inodes) && Accounted(OwnMap(d, inodes), bits, base, reserved) && i in inodes
    requires Distinct(Slots(d, inodes[i]))
    ensures var s := Slots(d, inodes[i]); Growing(s, bits, s, bits, base)
  {
    var o := OwnMap(d, inodes);
    forall b | b in Owns(d, inodes[i]) ensures Marked(bits, base, b) {
      assert i in o && b in o[i];
      assert Taken(o, b);
    }
  }

  lemma FirstSlot(d: Disk, d': Disk, n: Inode, b: nat)
    requires n.Fits() && HasBlocks(Slots(d, n), 0) && 0 < b < WORDS
    ensures var n' := n.(sectors := n.sectors[0 := b]);
            n'.Fits() && Slots(d', n') == Slots(d, n)[0 := b] && HasBlocks(Slots(d', n'), 1)
  {
    var n' := n.(sectors := n.sectors[0 := b]);
    assert n.sectors[TABLE] == Slots(d, n)[BLOCKS];
    NoTable(d, n);
    NoTable(d', n');
    assert Slots(d', n') == Slots(d, n)[0 := b];
  }

  lemma DistinctPrefix(s: seq<nat>, n: nat)
    requires Distinct(s) && n <= |s|
    ensures Distinct(s[..n])
  {
    forall i, j ensures !Clash(s[..n], i, j) {
      assert !Clash(s, i, j);
    }
  }

  /** The table is none of the data blocks. */
  lemma TableApart(slots: seq<nat>)
    requires |slots| == BLOCKS + 1 && Distinct(slots) && slots[BLOCKS] != 0
    ensures slots[BLOCKS] !in slots[..BLOCKS]
  {
    forall k | 0 <= k < BLOCKS ensures slots[k] != slots[BLOCKS] {
      assert !Clash(slots, k, BLOCKS);
    }
  }

  /** A data block of an inode is no table, of this inode or another. */
  lemma DataNoTable(d: Disk, inodes: map<nat, Inode>, bits: seq<bool>, base: nat, reserved: set<nat>, i: nat, b: nat)
    requires Sound(d, inodes, bits, base, reserved) && i in inodes && b != 0 && b in BlocksOf(d, inodes[i])
    ensures b !in Tables(inodes) && Marked(bits, base, b)
  {
    var o, n := OwnMap(d, inodes), inodes[i];
    assert Slots(d, n) == BlocksOf(d, n) + [n.sectors[TABLE]];
    assert i in o && b in o[i];
    assert Taken(o, b);
    if b in Tables(inodes) {
      var j :| j in inodes && |inodes[j].sectors| == 13 && inodes[j].sectors[TABLE] == b;
      assert Slots(d, inodes[j])[BLOCKS] == b;
      assert !Shares(o, i, j, b);
      TableApart(Slots(d, n));
    }
  }

  /** Every data block of an inode is in use in the bitmap on the disk. */
  lemma DataOnDisk(p: Partition, i: nat, b: nat)
    requires p.Valid() && i in p.inodes && b != 0 && b in BlocksOf(p.disk, p.inodes[i])
    ensures p.dataStart <= b && DiskBit(p.disk, p.bitmapLba, b - p.dataStart)
  {
    DataNoTable(p.disk, p.inodes, p.bits, p.dataStart, p.reserved, i, b);
    NotedBit(p.disk, p.bitmapLba, p.bits, p.dataStart, Tables(p.inodes), b - p.dataStart);
  }

  /** Every block that is free in memory is free in the bitmap on the disk. */
  lemma FreeOnDisk(p: Partition, k: nat)
    requires p.Valid() && k < |p.bits| && !p.bits[k]
    ensures !DiskBit(p.disk, p.bitmapLba, k)
  {
    if p.dataStart + k in Tables(p.inodes) {
      TableMarked(p.disk, p.inodes, p.bits, p.dataStart, p.reserved, p.dataStart + k);
    }
    NotedBit(p.disk, p.bitmapLba, p.bits, p.dataStart, Tables(p.inodes), k);
  }

  lemma NotedBit(d: Disk, lba: nat, bits: seq<bool>, base: nat, tables: set<nat>, k: nat)
    requires Noted(d, lba, bits, base, tables) && k < |bits| && base + k !in tables
    ensures DiskBit(d, lba, k) == bits[k]
  {
    assert NotedAt(d, lba, bits, base, tables, k);
  }

  lemma TableMarked(d: Disk, inodes: map<nat, Inode>, bits: seq<bool>, base: nat, reserved: set<nat>, b: nat)
    requires Sound(d, inodes, bits, base, reserved) && b != 0 && b in Tables(inodes)
    ensures Marked(bits, base, b)
  {
    var o := OwnMap(d, inodes);
    var j :| j in inodes && |inodes[j].sectors| == 13 && inodes[j].sectors[TABLE] == b;
    assert Slots(d, inodes[j])[BLOCKS] == b;
    assert j in o && b in o[j];
    assert Taken(o, b);
  }

  /** Collecting blocks does not change what the file holds. */
  lemma SameBytes(d: Disk, d': Disk, slots: seq<nat>, slots': seq<nat>, size: nat, n: Inode, tableLba: nat, base: nat)
    requires |slots| == |slots'| == BLOCKS + 1 && size < MAX_SIZE && |n.sectors| == 13 && 0 < base && tableLba <= base
    requires Distinct(slots') && slots'[BLOCKS] == n.sectors[TABLE]
    requires forall k :: 0 <= k < size / BLOCK_SIZE + 1 ==> slots'[k] == slots[k] >= base
    requires OnlyTable(d, d', n, tableLba)
    ensures Bytes(d', slots'[..BLOCKS], size) == Bytes(d, slots[..BLOCKS], size)
  {
    forall k | 0 <= k < size / BLOCK_SIZE + 1 ensures ReadSector(d', slots'[k]) == ReadSector(d, slots[k]) {
      assert !Clash(slots', k, BLOCKS);
    }
    forall j | 0 <= j < size ensures Bytes(d', slots'[..BLOCKS], size)[j] == Bytes(d, slots[..BLOCKS], size)[j] {
      assert j / BLOCK_SIZE < size / BLOCK_SIZE + 1;
    }
  }

  /** The data goes to data blocks only, so the slots stay. */
  lemma SlotsAfterData(d: Disk, d': Disk, n: Inode)
    requires |n.sectors| == 13 && Distinct(Slots(d, n)) && OnlyBlocks(d, d', BlocksOf(d, n))
    ensures Slots(d', n) == Slots(d, n)
  {
    if n.sectors[TABLE] != 0 {
      assert Slots(d, n)[BLOCKS] == n.sectors[TABLE] && Slots(d, n)[..BLOCKS] == BlocksOf(d, n);
      TableApart(Slots(d, n));
    }
    SlotsKept(d, d', n);
  }

  /** The other inodes have the same blocks with the same contents. */
  ghost predicate OthersSame(d: Disk, d': Disk, inodes: map<nat, Inode>, inodes': map<nat, Inode>, i: nat) {
    && inodes'.Keys == inodes.Keys
    && forall j :: j in inodes && j != i ==>
         inodes'[j] == inodes[j] && |inodes[j].sectors| == 13 && Untouched(d, d', inodes[j])
  }

  /** File i has grown by buf, and nothing else has changed. */
  ghost predicate Appended(d: Disk, d': Disk, inodes: map<nat, Inode>, inodes': map<nat, Inode>, i: nat,
                           buf: seq<Byte>) {
    && OthersSame(d, d', inodes, inodes', i) && i in inodes
    && var n, n' := inodes[i], inodes'[i];
    && |n.sectors| == 13 && |n'.sectors| == 13 && n' == n.(sectors := n'.sectors, size := n.size + |buf|)
    && FileOk(d', n') && n'.sectors[0] != 0
    && Contents(d', n') == Contents(d, n) + buf
  }

  lemma GrownFileOk(d: Disk, n: Inode)
    requires n.Fits() && n.size < MAX_SIZE && HasBlocks(Slots(d, n), n.size / BLOCK_SIZE + 1)
    ensures FileOk(d, n) && n.sectors[0] != 0
  {
    assert Slots(d, n)[0] == n.sectors[0];
  }

  lemma OthersDone(d: Disk, d': Disk, inodes: map<nat, Inode>, inodes': map<nat, Inode>, i: nat, n: Inode)
    requires Numbered(inodes) && i in inodes && inodes' == inodes[i := n]
    requires forall j <- inodes :: j != i ==> Untouched(d, d', inodes[j])
    ensures OthersSame(d, d', inodes, inodes', i)
  {
  }

  lemma AppendDone(d: Disk, d': Disk, inodes: map<nat, Inode>, inodes': map<nat, Inode>, i: nat, n: Inode,
                   buf: seq<Byte>)
    requires OthersSame(d, d', inodes, inodes', i) && i in inodes && inodes'[i] == n
             && |inodes[i].sectors| == 13 == |n.sectors|
    requires n == inodes[i].(sectors := n.sectors, size := inodes[i].size + |buf|)
    requires FileOk(d', n) && n.sectors[0] != 0 && Contents(d', n) == Contents(d, inodes[i]) + buf
    ensures Appended(d, d', inodes, inodes', i, buf)
  {
  }

  /** The blocks that an append of so many bytes needs. */
  function BlocksNeeded(n: Inode, count: nat): nat
    requires |n.sectors| == 13
  {
    DivMono(n.size, count);
    (if n.sectors[0] == 0 then 1 else 0) + MoreBlocks(n.size / BLOCK_SIZE + 1, (n.size + count) / BLOCK_SIZE + 1)
  }

  lemma DivMono(size: nat, count: nat)
    ensures size / BLOCK_SIZE <= (size + count) / BLOCK_SIZE
  {
  }

  /** The first block of an empty file. */
  method FirstBlock(p: Partition, n0: Inode) returns (ok: bool, n: Inode)
    requires p.Layout() && n0.Fits() && Marked(p.bits, p.dataStart, p.dataStart)
    requires Growing(Slots(p.disk, n0), p.bits, Slots(p.disk, n0), p.bits, p.dataStart)
    requires HasBlocks(Slots(p.disk, n0), BlockCount(Slots(p.disk, n0), n0.size))
             && (n0.sectors[0] == 0 ==> n0.size == 0) && p.NotedFor(n0)
    modifies p`bits, p`disk
    ensures SameData(old(p.disk), p.disk, p.tableLba)
    ensures Takes(ok, old(p.bits), p.bits, if n0.sectors[0] == 0 then 1 else 0)
    ensures ok ==> p.Layout() && n.Fits() && n == n0.(sectors := n.sectors)
    ensures ok ==> Growing(old(Slots(p.disk, n0)), old(p.bits), Slots(p.disk, n), p.bits, p.dataStart)
    ensures ok ==> HasBlocks(Slots(p.disk, n), n.size / BLOCK_SIZE + 1)
    ensures ok && n0.size > 0 ==> Slots(p.disk, n) == old(Slots(p.disk, n0))
    ensures ok ==> n.sectors[TABLE] == n0.sectors[TABLE] && p.NotedFor(n)
  {
    n, ok := n0, true;
    if n.sectors[0] == 0 {
      var lba := p.NewBlock(Tables(p.inodes) + {n0.sectors[TABLE]});
      if lba.None? {
        ok := false;
        return;
      }
      assert lba.value != p.dataStart;
      GrowOne(old(Slots(p.disk, n0)), old(p.bits), old(Slots(p.disk, n0)), old(p.bits), p.dataStart, 0, lba.value);
      FirstSlot(old(p.disk), p.disk, n0, lba.value);
      n := n.(sectors := n.sectors[0 := lba.value]);
    }
  }

  lemma OnlyTableAfter(d: Disk, d1: Disk, d2: Disk, n: Inode, tableLba: nat)
    requires |n.sectors| == 13 && SameData(d, d1, tableLba) && OnlyTable(d1, d2, n, tableLba)
    ensures OnlyTable(d, d2, n, tableLba)
  {
  }

  /** Collecting blocks does not change what the file holds: s0 before, s1 with a first block, s2 collected. */
  lemma CollectedBytes(d: Disk, d': Disk, s0: seq<nat>, s1: seq<nat>, s2: seq<nat>, all_blocks: seq<nat>,
                       bits: seq<bool>, bits': seq<bool>, n: Inode, will: nat, tableLba: nat, base: nat)
    requires |s0| == BLOCKS + 1 && n.size < MAX_SIZE && |n.sectors| == 13 && 0 < base && tableLba <= base
    requires Growing(s0, bits, s2, bits', base) && s2[BLOCKS] == n.sectors[TABLE] && (n.size > 0 ==> s1 == s0)
    requires HasBlocks(s1, n.size / BLOCK_SIZE + 1) && Collected(s1, s2, all_blocks, n.size / BLOCK_SIZE + 1, will)
    requires OnlyTable(d, d', n, tableLba)
    ensures Bytes(d', s2[..BLOCKS], n.size) == Bytes(d, s0[..BLOCKS], n.size)
  {
    if n.size > 0 {
      forall k | 0 <= k < n.size / BLOCK_SIZE + 1 ensures s2[k] == s0[k] >= base {
        assert s0[k] in NonZero(s0);
        assert Marked(bits, base, s0[k]);
      }
      SameBytes(d, d', s0, s2, n.size, n, tableLba, base);
    }
  }

  /** d and n0 from before, d1 and n1 with a first block, d2 and n collected. */
  lemma GatherDone(d: Disk, d1: Disk, d2: Disk, n0: Inode, n1: Inode, n: Inode, all_blocks: seq<nat>, bits: seq<bool>,
                   bits': seq<bool>, count: nat, tableLba: nat, base: nat)
    requires |n0.sectors| == |n1.sectors| == |n.sectors| == 13 && n0.size == n1.size == n.size
    requires n.size + count < MAX_SIZE && 0 < base && tableLba <= base && SameData(d, d1, tableLba)
    requires Growing(Slots(d, n0), bits, Slots(d2, n), bits', base) && (n.size > 0 ==> Slots(d1, n1) == Slots(d, n0))
    requires HasBlocks(Slots(d1, n1), n.size / BLOCK_SIZE + 1) && OnlyTable(d1, d2, n, tableLba)
    requires Collected(Slots(d1, n1), Slots(d2, n), all_blocks, n.size / BLOCK_SIZE + 1,
                       (n.size + count) / BLOCK_SIZE + 1)
    ensures HasBlocks(Slots(d2, n), (n.size + count) / BLOCK_SIZE + 1) && |all_blocks| == BLOCKS
    ensures forall k :: n.size / BLOCK_SIZE <= k <= (n.size + count) / BLOCK_SIZE ==> all_blocks[k] == Slots(d2, n)[k]
    ensures Contents(d2, n) == Contents(d, n0) && OnlyTable(d, d2, n, tableLba)
  {
    var s0, s2, will := Slots(d, n0), Slots(d2, n), (n.size + count) / BLOCK_SIZE + 1;
    OnlyTableAfter(d, d1, d2, n, tableLba);
    CollectedBytes(d, d2, s0, Slots(d1, n1), s2, all_blocks, bits, bits', n, will, tableLba, base);
    assert s2[..BLOCKS] == BlocksOf(d2, n) && s0[..BLOCKS] == BlocksOf(d, n0);
  }

  lemma TakesFirst(bits: seq<bool>, bits1: seq<bool>, n: Inode, count: nat)
    requires |n.sectors| == 13 && Takes(false, bits, bits1, if n.sectors[0] == 0 then 1 else 0)
    ensures Takes(false, bits, bits1, BlocksNeeded(n, count))
  {
  }

  lemma TakesAll(ok: bool, bits: seq<bool>, bits1: seq<bool>, bits2: seq<bool>, n: Inode, count: nat, has: nat,
                 will: nat)
    requires |n.sectors| == 13 && has == n.size / BLOCK_SIZE + 1 && will == (n.size + count) / BLOCK_SIZE + 1
             && has <= will
    requires Takes(true, bits, bits1, if n.sectors[0] == 0 then 1 else 0)
    requires Takes(ok, bits1, bits2, MoreBlocks(has, will))
    ensures Takes(ok, bits, bits2, BlocksNeeded(n, count))
  {
  }

  /** The part of file_write before the data is moved: every block that the file will use is in place. */
  method Gather(p: Partition, n0: Inode, count: nat) returns (ok: bool, n: Inode, all_blocks: seq<nat>)
    requires p.Layout() && n0.Fits() && Marked(p.bits, p.dataStart, p.dataStart) && n0.size + count < MAX_SIZE
    requires Growing(Slots(p.disk, n0), p.bits, Slots(p.disk, n0), p.bits, p.dataStart) && FileOk(p.disk, n0)
    requires p.NotedFor(n0)
    modifies p`bits, p`disk
    ensures Takes(ok, old(p.bits), p.bits, BlocksNeeded(n0, count))
    ensures ok ==> p.Layout() && n.Fits() && n == n0.(sectors := n.sectors) && |all_blocks| == BLOCKS
    ensures ok ==> Growing(old(Slots(p.disk, n0)), old(p.bits), Slots(p.disk, n), p.bits, p.dataStart)
    ensures ok ==> HasBlocks(Slots(p.disk, n), (n.size + count) / BLOCK_SIZE + 1)
    ensures ok ==> forall k :: n.size / BLOCK_SIZE <= k <= (n.size + count) / BLOCK_SIZE ==>
                     all_blocks[k] == Slots(p.disk, n)[k]
    ensures ok ==> Contents(p.disk, n) == old(Contents(p.disk, n0)) && OnlyTable(old(p.disk), p.disk, n, p.tableLba)
    ensures ok ==> p.NotedFor(n) && SameTableSlot(n0, n)
  {
    all_blocks := [];
    ok, n := FirstBlock(p, n0);
    if !ok {
      TakesFirst(old(p.bits), p.bits, n0, count);
      return;
    }
    var has, will := n.size / BLOCK_SIZE + 1, (n.size + count) / BLOCK_SIZE + 1;
    ghost var d1, n1, bits1 := p.disk, n, p.bits;
    ok, n, all_blocks := Collect(p, n, has, will, old(Slots(p.disk, n0)), old(p.bits));
    TakesAll(ok, old(p.bits), bits1, p.bits, n0, count, has, will);
    if !ok {
      return;
    }
    GatherDone(old(p.disk), d1, p.disk, n0, n1, n, all_blocks, old(p.bits), p.bits, count, p.tableLba, p.dataStart);
  }

  /** Outside the blocks of n the data region is as before. */
  ghost predicate OnlyOwn(d: Disk, d': Disk, n: Inode, tableLba: nat)
    requires |n.sectors| == 13
  {
    forall b: nat :: b >= tableLba && b !in Owns(d', n) ==> ReadSector(d', b) == ReadSector(d, b)
  }

  lemma OnlyOwnAfter(d: Disk, d1: Disk, d2: Disk, n: Inode, tableLba: nat)
    requires |n.sectors| == 13 && tableLba > 0 && OnlyTable(d, d1, n, tableLba)
    requires OnlyBlocks(d1, d2, BlocksOf(d1, n)) && Slots(d2, n) == Slots(d1, n)
    ensures OnlyOwn(d, d2, n, tableLba)
  {
    forall b: nat | b >= tableLba && b !in Owns(d2, n) ensures ReadSector(d2, b) == ReadSector(d, b) {
      assert Slots(d1, n)[BLOCKS] == n.sectors[TABLE];
      assert Slots(d1, n)[..BLOCKS] == BlocksOf(d1, n);
      assert b !in Slots(d1, n);
      assert b !in BlocksOf(d1, n);
    }
  }

  lemma SplitSlots(slots: seq<nat>, d: Disk, n: Inode)
    requires |n.sectors| == 13 && slots == Slots(d, n) && Distinct(slots)
    ensures Distinct(BlocksOf(d, n)) && forall k :: 0 <= k < BLOCKS ==> slots[k] == BlocksOf(d, n)[k]
  {
    DistinctPrefix(slots, BLOCKS);
    assert slots[..BLOCKS] == BlocksOf(d, n);
  }

  lemma DataMoved(d: Disk, d1: Disk, d2: Disk, n1: Inode, n: Inode, tableLba: nat)
    requires |n1.sectors| == 13 && n.sectors == n1.sectors && tableLba > 0
    requires OnlyTable(d, d1, n1, tableLba) && Distinct(Slots(d1, n1)) && OnlyBlocks(d1, d2, BlocksOf(d1, n1))
    ensures Slots(d2, n) == Slots(d1, n1) && BlocksOf(d2, n) == BlocksOf(d1, n1) && OnlyOwn(d, d2, n, tableLba)
  {
    SlotsAfterData(d1, d2, n1);
    OnlyOwnAfter(d, d1, d2, n1, tableLba);
    SameSectors(d2, n1, n);
    assert Slots(d2, n)[..BLOCKS] == BlocksOf(d2, n) && Slots(d1, n1)[..BLOCKS] == BlocksOf(d1, n1);
  }

  lemma SameSectors(d: Disk, n: Inode, m: Inode)
    requires |n.sectors| == 13 && m.sectors == n.sectors
    ensures Slots(d, m) == Slots(d, n) && BlocksOf(d, m) == BlocksOf(d, n)
  {
  }

  /** The data does not go to the bitmap. */
  lemma NotedData(slots0: seq<nat>, bits0: seq<bool>, d: Disk, d': Disk, n: Inode, bits: seq<bool>, base: nat, lba: nat,
                  tables: set<nat>)
    requires |n.sectors| == 13 && Growing(slots0, bits0, Slots(d, n), bits, base) && OnlyBlocks(d, d', BlocksOf(d, n))
    requires Noted(d, lba, bits, base, tables) && |bits| % 4096 == 0 && 0 < lba && lba + |bits| / 4096 <= base
    ensures Noted(d', lba, bits, base, tables)
  {
    SlotsInRegion(slots0, bits0, d, n, bits, base);
    NotedKept(d, d', lba, bits, base, tables, tables);
  }

  /** file_write without the size checks, up to inode_sync. */
  method Append(p: Partition, n0: Inode, buf: seq<Byte>) returns (ok: bool, n: Inode, fd_pos: nat)
    requires p.Layout() && n0.Fits() && Marked(p.bits, p.dataStart, p.dataStart) && n0.size + |buf| < MAX_SIZE
    requires Growing(Slots(p.disk, n0), p.bits, Slots(p.disk, n0), p.bits, p.dataStart) && FileOk(p.disk, n0)
    requires p.NotedFor(n0)
    modifies p`bits, p`disk
    ensures Takes(ok, old(p.bits), p.bits, BlocksNeeded(n0, |buf|))
    ensures ok ==> p.Layout() && n.Fits() && n == n0.(sectors := n.sectors, size := n0.size + |buf|)
    ensures ok ==> fd_pos == U32(n.size - 1)
    ensures ok ==> Growing(old(Slots(p.disk, n0)), old(p.bits), Slots(p.disk, n), p.bits, p.dataStart)
    ensures ok ==> HasBlocks(Slots(p.disk, n), n.size / BLOCK_SIZE + 1)
    ensures ok ==> Contents(p.disk, n) == old(Contents(p.disk, n0)) + buf && OnlyOwn(old(p.disk), p.disk, n, p.tableLba)
    ensures ok ==> p.NotedFor(n) && SameTableSlot(n0, n)
  {
    fd_pos := 0;
    var all_blocks;
    ok, n, all_blocks := Gather(p, n0, |buf|);
    if !ok {
      return;
    }
    ghost var d1, n1 := p.disk, n;
    SplitSlots(Slots(d1, n1), d1, n1);
    n, fd_pos := WriteData(p, n, buf, all_blocks, BlocksOf(d1, n1));
    DataMoved(old(p.disk), d1, p.disk, n1, n, p.tableLba);
    NotedData(old(Slots(p.disk, n0)), old(p.bits), d1, p.disk, n1, p.bits, p.dataStart, p.bitmapLba,
              Tables(p.inodes) + {n1.sectors[TABLE]});
  }

  /** The blocks of an inode are not in the inode table. */
  lemma OwnIsData(slots0: seq<nat>, bits0: seq<bool>, d: Disk, d': Disk, n: Inode, bits: seq<bool>, base: nat, t: nat)
    requires |n.sectors| == 13 && Growing(slots0, bits0, Slots(d', n), bits, base) && OnlyOwn(d, d', n, t)
    ensures forall b: nat :: t <= b < base ==> ReadSector(d', b) == ReadSector(d, b)
  {
    forall b: nat | t <= b < base ensures b !in Owns(d', n) {
      assert !Marked(bits, base, b);
    }
  }

  /** inode_sync keeps away from the data region. */
  method SyncInode(p: Partition, n: Inode)
    requires p.Layout() && |n.sectors| == 13
    modifies p`disk
    ensures OnlyRecord(old(p.disk), p.disk, p.tableLba, Low8(n.no), Pure(n))
    ensures SameData(old(p.disk), p.disk, p.dataStart) && SameBitmap(old(p.disk), p.disk, p.bitmapLba, p.tableLba)
  {
    p.disk := InodeSync(p.disk, p.tableLba, n);
  }

  lemma SameDataSlots(d: Disk, d': Disk, n: Inode, base: nat, size: nat)
    requires |n.sectors| == 13 && SameData(d, d', base) && size <= MAX_SIZE
    requires n.sectors[TABLE] == 0 || n.sectors[TABLE] >= base
    requires forall k :: 0 <= k < BLOCKS && k * BLOCK_SIZE < size ==> BlocksOf(d, n)[k] >= base
    ensures Slots(d', n) == Slots(d, n) && BlocksOf(d', n) == BlocksOf(d, n)
    ensures Bytes(d', BlocksOf(d', n), size) == Bytes(d, BlocksOf(d, n), size)
  {
    SlotsKept(d, d', n);
    assert BlocksOf(d', n) == Slots(d', n)[..BLOCKS] && BlocksOf(d, n) == Slots(d, n)[..BLOCKS];
    forall j | 0 <= j < size
      ensures Bytes(d', BlocksOf(d', n), size)[j] == Bytes(d, BlocksOf(d, n), size)[j]
    {
      assert j / BLOCK_SIZE * BLOCK_SIZE <= j;
    }
  }

  lemma AllDistinct(d: Disk, d': Disk, inodes: map<nat, Inode>, inodes': map<nat, Inode>, i: nat, n: Inode)
    requires Numbered(inodes) && Numbered(inodes') && inodes' == inodes[i := n] && |n.sectors| == 13
             && Distinct(Slots(d', n))
    requires forall j {:trigger Slots(d, inodes[j])} :: j in inodes ==> Distinct(Slots(d, inodes[j]))
    requires forall j <- inodes :: j != i ==> Untouched(d, d', inodes[j])
    ensures forall j {:trigger Slots(d', inodes'[j])} :: j in inodes' ==> Distinct(Slots(d', inodes'[j]))
  {
    forall j {:trigger Slots(d', inodes'[j])} | j in inodes' ensures Distinct(Slots(d', inodes'[j])) {
      if j != i {
        assert Untouched(d, d', inodes[j]);
        assert Distinct(Slots(d, inodes[j]));
      }
    }
  }

  lemma SlotsInRegion(slots0: seq<nat>, bits0: seq<bool>, d: Disk, n: Inode, bits: seq<bool>, base: nat)
    requires |n.sectors| == 13 && Growing(slots0, bits0, Slots(d, n), bits, base)
    ensures n.sectors[TABLE] == 0 || n.sectors[TABLE] >= base
    ensures forall k :: 0 <= k < BLOCKS && BlocksOf(d, n)[k] != 0 ==> BlocksOf(d, n)[k] >= base
  {
    var slots := Slots(d, n);
    forall k | 0 <= k < |slots| && slots[k] != 0 ensures slots[k] >= base {
      assert slots[k] in NonZero(slots);
      assert Marked(bits, base, slots[k]);
    }
    assert slots[BLOCKS] == n.sectors[TABLE];
    forall k | 0 <= k < BLOCKS ensures slots[k] == BlocksOf(d, n)[k] {
    }
  }

  /** A grown inode, synced: d before, d1 grown, d2 synced. */
  lemma GrownAndSynced(d: Disk, d1: Disk, d2: Disk, inodes: map<nat, Inode>, i: nat, n: Inode, bits: seq<bool>,
                       bits': seq<bool>, base: nat, reserved: set<nat>, t: nat)
    requires Numbered(inodes) && i in inodes && n.Fits() && n.no == i && t + TABLE_SECTS <= base
    requires Accounted(OwnMap(d, inodes), bits, base, reserved)
    requires Growing(Slots(d, inodes[i]), bits, Slots(d1, n), bits', base) && OnlyOwn(d, d1, n, t)
    requires OnlyRecord(d1, d2, t, Low8(i), Pure(n)) && SameData(d1, d2, base)
    requires n.size < MAX_SIZE && HasBlocks(Slots(d1, n), n.size / BLOCK_SIZE + 1)
    ensures Slots(d2, n) == Slots(d1, n) && Contents(d2, n) == Contents(d1, n) && Synced(d, d2, t, n)
    ensures Accounted(OwnMap(d2, inodes[i := n]), bits', base, reserved)
    ensures forall j <- inodes :: j != i ==> Untouched(d, d2, inodes[j])
  {
    OwnIsData(Slots(d, inodes[i]), bits, d, d1, n, bits', base, t);
    SyncedAfter(d, d1, d2, t, n);
    SlotsInRegion(Slots(d, inodes[i]), bits, d1, n, bits', base);
    forall k | 0 <= k < BLOCKS && k * BLOCK_SIZE < n.size ensures BlocksOf(d1, n)[k] >= base {
      assert k < n.size / BLOCK_SIZE + 1;
      assert Slots(d1, n)[k] == BlocksOf(d1, n)[k];
    }
    SameDataSlots(d1, d2, n, base, n.size);
    CommitGrowth(d, d2, inodes, i, n, bits, bits', base, reserved);
  }

  lemma Committed(d: Disk, d1: Disk, d2: Disk, inodes: map<nat, Inode>, i: nat, n: Inode, bits: seq<bool>,
                  bits': seq<bool>, base: nat, reserved: set<nat>, t: nat)
    requires Sound(d, inodes, bits, base, reserved) && i in inodes && n.Fits() && n.no == i && t + TABLE_SECTS <= base
    requires Growing(Slots(d, inodes[i]), bits, Slots(d1, n), bits', base) && OnlyOwn(d, d1, n, t)
    requires OnlyRecord(d1, d2, t, Low8(i), Pure(n)) && SameData(d1, d2, base)
    requires n.size < MAX_SIZE && HasBlocks(Slots(d1, n), n.size / BLOCK_SIZE + 1)
    ensures FileOk(d2, n) && n.sectors[0] != 0 && Contents(d2, n) == Contents(d1, n) && Synced(d, d2, t, n)
    ensures Sound(d2, inodes[i := n], bits', base, reserved) && OthersSame(d, d2, inodes, inodes[i := n], i)
  {
    GrownAndSynced(d, d1, d2, inodes, i, n, bits, bits', base, reserved, t);
    AllDistinct(d, d2, inodes, inodes[i := n], i, n);
    OthersDone(d, d2, inodes, inodes[i := n], i, n);
    GrownFileOk(d2, n);
  }

  /** Between the data and inode_sync: n is the new inode i, d and bits are from before the call. */
  ghost predicate Moved(d: Disk, d1: Disk, inodes: map<nat, Inode>, bits: seq<bool>, bits': seq<bool>, base: nat,
                        t: nat, i: nat, n: Inode, buf: seq<Byte>)
    requires Numbered(inodes) && i in inodes && inodes[i].size + |buf| < MAX_SIZE
  {
    && n.Fits() && n == inodes[i].(sectors := n.sectors, size := inodes[i].size + |buf|)
    && Growing(Slots(d, inodes[i]), bits, Slots(d1, n), bits', base)
    && HasBlocks(Slots(d1, n), n.size / BLOCK_SIZE + 1)
    && Contents(d1, n) == Contents(d, inodes[i]) + buf && OnlyOwn(d, d1, n, t)
  }

  /** Inode i is replaced, and keeps its table. */
  lemma TablesSet(inodes: map<nat, Inode>, i: nat, n: Inode)
    requires i in inodes && |inodes[i].sectors| == |n.sectors| == 13 && SameTableSlot(inodes[i], n)
    ensures Tables(inodes) + {n.sectors[TABLE]} - {0} <= Tables(inodes[i := n])
    ensures Tables(inodes) + {inodes[i].sectors[TABLE]} == Tables(inodes)
  {
    var inodes' := inodes[i := n];
    forall x | x in Tables(inodes) && x != 0 ensures x in Tables(inodes') {
      var j :| j in inodes && |inodes[j].sectors| == 13 && inodes[j].sectors[TABLE] == x;
      assert j in inodes' && inodes'[j].sectors[TABLE] == x;
    }
    assert i in inodes' && inodes'[i].sectors[TABLE] == n.sectors[TABLE];
  }

  lemma NotedCommit(d: Disk, d': Disk, lba: nat, bits: seq<bool>, base: nat, t: nat, inodes: map<nat, Inode>, i: nat,
                    n: Inode)
    requires i in inodes && |inodes[i].sectors| == |n.sectors| == 13 && SameTableSlot(inodes[i], n)
    requires Noted(d, lba, bits, base, Tables(inodes) + {n.sectors[TABLE]}) && base > 0
    requires |bits| % 4096 == 0 && lba + |bits| / 4096 <= t && SameBitmap(d, d', lba, t)
    ensures Noted(d', lba, bits, base, Tables(inodes[i := n]))
  {
    TablesSet(inodes, i, n);
    NotedKept(d, d', lba, bits, base, Tables(inodes) + {n.sectors[TABLE]}, Tables(inodes[i := n]));
  }

  /** The grown inode replaces the old one and is synced. */
  method CommitFile(p: Partition, i: nat, n: Inode, ghost d: Disk, ghost bits: seq<bool>, ghost buf: seq<Byte>)
    requires p.Layout() && p.RootOk() && i in p.inodes && i != 0
    requires Sound(d, p.inodes, bits, p.dataStart, p.reserved) && p.inodes[i].size + |buf| < MAX_SIZE
    requires Moved(d, p.disk, p.inodes, bits, p.bits, p.dataStart, p.tableLba, i, n, buf)
    requires p.NotedFor(n) && SameTableSlot(p.inodes[i], n)
    modifies p`disk, p`inodes
    ensures p.Valid() && Appended(d, p.disk, old(p.inodes), p.inodes, i, buf)
    ensures p.inodes[i] == n && Synced(d, p.disk, p.tableLba, n)
  {
    ghost var d1 := p.disk;
    SyncInode(p, n);
    Committed(d, d1, p.disk, p.inodes, i, n, bits, p.bits, p.dataStart, p.reserved, p.tableLba);
    NotedCommit(d1, p.disk, p.bitmapLba, p.bits, p.dataStart, p.tableLba, p.inodes, i, n);
    p.inodes := p.inodes[i := n];
    AppendDone(d, p.disk, old(p.inodes), p.inodes, i, n, buf);
  }

  /** The work of file_write before inode_sync. */
  method Prepare(p: Partition, i: nat, buf: seq<Byte>) returns (ok: bool, n: Inode, fd_pos: nat)
    requires p.Valid() && i in p.inodes && FileOk(p.disk, p.inodes[i]) && p.inodes[i].size + |buf| < MAX_SIZE
    modifies p`disk, p`bits
    ensures Takes(ok, old(p.bits), p.bits, BlocksNeeded(p.inodes[i], |buf|))
    ensures ok ==> p.Layout() && fd_pos == U32(n.size - 1)
    ensures ok ==> Moved(old(p.disk), p.disk, p.inodes, old(p.bits), p.bits, p.dataStart, p.tableLba, i, n, buf)
    ensures ok ==> p.NotedFor(n) && SameTableSlot(p.inodes[i], n)
  {
    TablesSet(p.inodes, i, p.inodes[i]);
    StartGrowing(p.disk, p.inodes, p.bits, p.dataStart, p.reserved, i);
    RootMarked(p.disk, p.inodes, p.bits, p.dataStart, p.reserved);
    ok, n, fd_pos := Append(p, p.inodes[i], buf);
  }

  /** file_write without its two size checks. */
  method Extend(p: Partition, i: nat, buf: seq<Byte>) returns (ok: bool, fd_pos: nat)
    requires p.Valid() && i in p.inodes && i != 0 && FileOk(p.disk, p.inodes[i])
    requires p.inodes[i].size + |buf| < MAX_SIZE
    modifies p
    ensures Takes(ok, old(p.bits), p.bits, old(BlocksNeeded(p.inodes[i], |buf|)))
    ensures ok ==> p.Valid() && Appended(old(p.disk), p.disk, old(p.inodes), p.inodes, i, buf)
    ensures ok ==> Synced(old(p.disk), p.disk, p.tableLba, p.inodes[i]) && fd_pos == U32(p.inodes[i].size - 1)
  {
    var n;
    ok, n, fd_pos := Prepare(p, i, buf);
    if ok {
      CommitFile(p, i, n, old(p.disk), old(p.bits), buf);
    }
  }

  /** A sum that wraps comes out smaller than the size. */
  lemma WrapsSmall(size: nat, count: nat)
    requires size < MAX_SIZE && count < WORDS
    ensures U32(size + count) == if size + count < WORDS then size + count else size + count - WORDS
    ensures size + count >= WORDS ==> U32(size + count) < size
  {
    if size + count >= WORDS {
      ModAdd(size + count - WORDS, 1);
    }
  }

  /** What the tests of file_write on the wrapped sum mean for the sum. */
  lemma TestsMean(size: nat, count: nat, total: nat)
    requires size < MAX_SIZE && count < WORDS && total == U32(size + count)
    ensures total > MAX_SIZE ==> MAX_SIZE < size + count < WORDS
    ensures total <= MAX_SIZE && total / BLOCK_SIZE + 1 > BLOCKS ==> size + count == MAX_SIZE
    ensures total / BLOCK_SIZE + 1 <= BLOCKS ==>
              if count > MAX_SIZE then size + count >= WORDS else size + count < MAX_SIZE
  {
    WrapsSmall(size, count);
  }

  /** How file_write ends, by the sum of size and count, the blocks that are free and those that are needed. */
  predicate EndsBy(r: Write, sum: nat, free: nat, needed: nat) {
    && (r.Damaged? <==> sum >= WORDS)
    && (r.Failed? <==> MAX_SIZE < sum < WORDS)
    && (r.Panic? <==> sum == MAX_SIZE || (sum < MAX_SIZE && free < needed))
  }

  /** An append of so many bytes stops the kernel, or damages memory. */
  predicate Stops(n: Inode, count: nat, free: nat)
    requires |n.sectors| == 13
  {
    var sum := n.size + count;
    sum >= WORDS || sum == MAX_SIZE || (sum < MAX_SIZE && free < BlocksNeeded(n, count))
  }

  lemma EndStops(r: Write, n: Inode, count: nat, free: nat)
    requires |n.sectors| == 13 && EndsBy(r, n.size + count, free, BlocksNeeded(n, count))
    ensures r.Panic? || r.Damaged? <==> Stops(n, count, free)
  {
  }

  /** file_write: append buf to file i. */
  method FileWrite(p: Partition, i: nat, buf: seq<Byte>) returns (r: Write, fd_pos: nat)
    requires p.Valid() && i in p.inodes && i != 0 && FileOk(p.disk, p.inodes[i])
    requires |buf| < WORDS
    modifies p
    ensures EndsBy(r, old(p.inodes[i].size) + |buf|, FreeBits(old(p.bits)), old(BlocksNeeded(p.inodes[i], |buf|)))
    ensures r.Written? ==> FreeBits(p.bits) == FreeBits(old(p.bits)) - old(BlocksNeeded(p.inodes[i], |buf|))
    ensures r.Failed? ==> p.disk == old(p.disk) && p.bits == old(p.bits) && p.inodes == old(p.inodes)
    ensures r.Written? ==> p.Valid() && Appended(old(p.disk), p.disk, old(p.inodes), p.inodes, i, buf)
    ensures r.Written? ==> Synced(old(p.disk), p.disk, p.tableLba, p.inodes[i])
    ensures r.Written? ==> fd_pos == U32(p.inodes[i].size - 1) && r.count == |buf|
  {
    var size := p.inodes[i].size;
    fd_pos := 0;
    var total := U32(size + |buf|);
    TestsMean(size, |buf|, total);
    if total > MAX_SIZE {
      return Failed, fd_pos;
    }
    if total / BLOCK_SIZE + 1 > BLOCKS {
      return Panic, fd_pos;
    }
    if |buf| > MAX_SIZE {
      return Damaged, fd_pos;
    }
    var ok;
    ok, fd_pos := Extend(p, i, buf);
    r := if ok then Written(|buf|) else Panic;
  }
}
