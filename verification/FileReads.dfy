/** fs/file.c: reading a file back. */
module FileReads {
  import opened Disks
  import opened InodeTable
  import opened Volumes
  import opened Files

  /** Panic: an ASSERT stopped the kernel.  EndOfFile: file_read returned -1.  Damaged: the loop ran behind
      all_blocks. */
  datatype Read = Panic | EndOfFile | Damaged | Data(bytes: seq<Byte>)

  const LAST := 139   // the block number that file_read asserts it stays below

  /** The part of all_blocks that the read loop uses. */
  ghost predicate Gathered(d: Disk, n: Inode, all_blocks: seq<nat>, first: nat, last: nat)
    requires |n.sectors| == 13
  {
    |all_blocks| == BLOCKS && last < BLOCKS && forall k :: first <= k <= last ==> all_blocks[k] == BlocksOf(d, n)[k]
  }

  /** The table of a file that reaches block 12 exists. */
  lemma TableExists(d: Disk, n: Inode, last: nat)
    requires |n.sectors| == 13 && FileOk(d, n) && 12 <= last <= n.size / BLOCK_SIZE
    ensures n.sectors[TABLE] != 0
  {
    assert Slots(d, n)[0] == n.sectors[0] && Slots(d, n)[BLOCKS] == n.sectors[TABLE];
  }

  lemma DirectPart(d: Disk, n: Inode, k: nat)
    requires |n.sectors| == 13 && k < 12
    ensures BlocksOf(d, n)[k] == n.sectors[k]
  {
  }

  lemma TablePart(d: Disk, n: Inode, k: nat)
    requires |n.sectors| == 13 && 12 <= k < BLOCKS && n.sectors[TABLE] != 0
    ensures BlocksOf(d, n)[k] == SectorWords(ReadSector(d, n.sectors[TABLE]))[k - 12]
  {
  }

  /** The direct blocks first .. upto - 1 go to all_blocks. */
  method Direct(d: Disk, n: Inode, first: nat, upto: nat) returns (all_blocks: seq<nat>)
    requires |n.sectors| == 13 && first <= upto <= 12
    ensures |all_blocks| == BLOCKS && forall k :: first <= k < upto ==> all_blocks[k] == BlocksOf(d, n)[k]
  {
    all_blocks := seq(BLOCKS, _ => 0);
    var block_idx := first;
    while block_idx < upto
      invariant first <= block_idx <= upto && |all_blocks| == BLOCKS
      invariant forall k :: first <= k < block_idx ==> all_blocks[k] == BlocksOf(d, n)[k]
    {
      DirectPart(d, n, block_idx);
      all_blocks := all_blocks[block_idx := n.sectors[block_idx]];
      block_idx := block_idx + 1;
    }
  }

  /** The table is read behind the first twelve entries. */
  method ReadTable(d: Disk, n: Inode, ab: seq<nat>, ghost first: nat) returns (all_blocks: seq<nat>)
    requires |n.sectors| == 13 && |ab| == BLOCKS && n.sectors[TABLE] != 0
    requires forall k :: first <= k < 12 ==> ab[k] == BlocksOf(d, n)[k]
    ensures |all_blocks| == BLOCKS && forall k :: first <= k < BLOCKS ==> all_blocks[k] == BlocksOf(d, n)[k]
  {
    all_blocks := ab[..12] + SectorWords(ReadSector(d, n.sectors[TABLE]));
    forall k | 12 <= k < BLOCKS ensures all_blocks[k] == BlocksOf(d, n)[k] {
      TablePart(d, n, k);
    }
  }

  /** The branches of file_read that fill all_blocks; ok is false if one of their assertions fails. */
  method GatherForRead(d: Disk, n: Inode, first: nat, last: nat) returns (ok: bool, all_blocks: seq<nat>)
    requires |n.sectors| == 13 && FileOk(d, n) && first <= last <= n.size / BLOCK_SIZE && last < BLOCKS
    ensures ok && Gathered(d, n, all_blocks, first, last)
  {
    var read_blocks := last - first;
    ok := true;
    all_blocks := seq(BLOCKS, _ => 0);
    if last >= 12 {
      TableExists(d, n, last);
    }
    if read_blocks == 0 {
      if last < 12 {
        DirectPart(d, n, last);
        all_blocks := all_blocks[last := n.sectors[last]];
      } else {
        all_blocks := ReadTable(d, n, all_blocks, 12);
      }
    } else if last < 12 {
      all_blocks := Direct(d, n, first, last + 1);
    } else if first < 12 {
      all_blocks := Direct(d, n, first, 12);
      ok := n.sectors[TABLE] != 0;
      all_blocks := ReadTable(d, n, all_blocks, first);
    } else {
      ok := n.sectors[TABLE] != 0;
      all_blocks := ReadTable(d, n, all_blocks, 12);
    }
  }

  lemma SameBlock(pos: nat, x: nat)
    requires x < BLOCK_SIZE - pos % BLOCK_SIZE
    ensures (pos + x) / BLOCK_SIZE == pos / BLOCK_SIZE && (pos + x) % BLOCK_SIZE == pos % BLOCK_SIZE + x
  {
  }

  lemma ChunkByte(d: Disk, blk: seq<nat>, size: nat, pos: nat, x: nat)
    requires |blk| == BLOCKS && size <= MAX_SIZE && pos + x < size && x < BLOCK_SIZE - pos % BLOCK_SIZE
    ensures Bytes(d, blk, size)[pos + x] == ReadSector(d, blk[pos / BLOCK_SIZE])[pos % BLOCK_SIZE + x]
  {
    SameBlock(pos, x);
  }

  /** A piece of the file that lies in one block. */
  lemma Chunk(d: Disk, blk: seq<nat>, size: nat, pos: nat, c: nat, off: nat, sec: Sector, s: seq<Byte>)
    requires |blk| == BLOCKS && size <= MAX_SIZE && pos + c <= size && off == pos % BLOCK_SIZE && c <= BLOCK_SIZE - off
    requires pos / BLOCK_SIZE < BLOCKS && sec == ReadSector(d, blk[pos / BLOCK_SIZE]) && s == Bytes(d, blk, size)
    ensures s[pos..pos + c] == sec[off..off + c]
  {
    var a, b := s[pos..pos + c], sec[off..off + c];
    forall x | 0 <= x < c ensures a[x] == b[x] {
      ChunkByte(d, blk, size, pos, x);
      assert a[x] == s[pos + x];
      assert b[x] == sec[off + x];
    }
  }

  lemma Longer(s: seq<Byte>, from: nat, pos: nat, to: nat)
    requires from <= pos <= to <= |s|
    ensures s[from..to] == s[from..pos] + s[pos..to]
  {
  }

  /** One round of the read loop. */
  method ReadOne(d: Disk, all_blocks: seq<nat>, fd_pos: nat, size_left: nat, ghost blk: seq<nat>, ghost size: nat)
    returns (chunk: seq<Byte>)
    requires |blk| == |all_blocks| == BLOCKS && size < MAX_SIZE && fd_pos + size_left <= size && size_left > 0
    requires all_blocks[fd_pos / BLOCK_SIZE] == blk[fd_pos / BLOCK_SIZE]
    ensures 0 < |chunk| <= size_left && chunk == Bytes(d, blk, size)[fd_pos..fd_pos + |chunk|]
  {
    var sec_idx := fd_pos / BLOCK_SIZE;
    var sec_off_bytes := fd_pos % BLOCK_SIZE;
    var chunk_size := Min(size_left, BLOCK_SIZE - sec_off_bytes);
    var io_buf := ReadSector(d, all_blocks[sec_idx]);
    chunk := io_buf[sec_off_bytes..sec_off_bytes + chunk_size];
    Chunk(d, blk, size, fd_pos, chunk_size, sec_off_bytes, io_buf, Bytes(d, blk, size));
  }

  /** The loop that moves the data. */
  method ReadData(d: Disk, all_blocks: seq<nat>, pos0: nat, size: nat, ghost blk: seq<nat>, ghost total: nat,
                  ghost s: seq<Byte>)
    returns (buf: seq<Byte>, fd_pos: nat)
    requires |blk| == |all_blocks| == BLOCKS && pos0 + size <= total < MAX_SIZE && s == Bytes(d, blk, total)
    requires forall k :: pos0 / BLOCK_SIZE <= k <= (pos0 + size) / BLOCK_SIZE ==> all_blocks[k] == blk[k]
    ensures buf == s[pos0..pos0 + size] && fd_pos == pos0 + size
  {
    buf, fd_pos := [], pos0;
    var bytes_read := 0;
    while bytes_read < size
      invariant 0 <= bytes_read <= size && fd_pos == pos0 + bytes_read
      invariant buf == s[pos0..fd_pos]
    {
      var chunk := ReadOne(d, all_blocks, fd_pos, size - bytes_read, blk, total);
      Longer(s, pos0, fd_pos, fd_pos + |chunk|);
      buf := buf + chunk;
      fd_pos := fd_pos + |chunk|;
      bytes_read := bytes_read + |chunk|;
    }
  }

  lemma DivLe(a: nat, b: nat)
    requires a <= b
    ensures a / BLOCK_SIZE <= b / BLOCK_SIZE
  {
  }

  /** file_read when the number of bytes is settled. */
  method ReadRange(d: Disk, n: Inode, pos: nat, size: nat) returns (ok: bool, buf: seq<Byte>, fd_pos: nat)
    requires |n.sectors| == 13 && FileOk(d, n) && pos + size <= n.size
    ensures ok <==> (pos + size) / BLOCK_SIZE < LAST
    ensures ok ==> buf == Contents(d, n)[pos..pos + size] && fd_pos == pos + size
    ensures !ok ==> fd_pos == pos
  {
    fd_pos, buf := pos, [];
    var first, last := pos / BLOCK_SIZE, (pos + size) / BLOCK_SIZE;
    DivLe(pos, pos + size);
    DivLe(pos + size, n.size);
    ok := first < LAST && last < LAST;
    if ok {
      var all_blocks;
      ok, all_blocks := GatherForRead(d, n, first, last);
      if ok {
        buf, fd_pos := ReadData(d, all_blocks, pos, size, BlocksOf(d, n), n.size, Contents(d, n));
      }
    }
  }

  /** The position is in the file, and its sum with the count does not wrap. */
  predicate Sane(n: Inode, pos: nat, count: nat) {
    pos <= n.size && pos + count < WORDS
  }

  /** The number of bytes after the test for the end of the file, in uint32_t. */
  function Clipped(size: nat, pos: nat, count: nat): nat {
    if U32(pos + count) > size then U32(size - pos) else count
  }

  lemma Clip(size: nat, pos: nat, count: nat)
    requires size < MAX_SIZE && pos < WORDS && count < WORDS
    ensures pos <= size && pos + count < WORDS ==> pos + Clipped(size, pos, count) == Min(pos + count, size)
    ensures !(pos <= size && pos + count < WORDS) ==> pos + Clipped(size, pos, count) >= WORDS
    ensures U32(pos + Clipped(size, pos, count)) <= size
    ensures U32(pos + count) > size && U32(size - pos) == 0 <==> pos == size && 0 < count && pos + count < WORDS
  {
    var c := Clipped(size, pos, count);
    Wrap(pos + count);
    if pos > size {
      ModAdd(size - pos, 1);
    }
    Wrap(pos + c);
  }

  lemma Wrap(x: nat)
    requires x < 2 * WORDS
    ensures U32(x) == if x < WORDS then x else x - WORDS
  {
    if x >= WORDS {
      ModAdd(x - WORDS, 1);
    }
  }

  /** file_read from position pos: a position behind the end, such as file_write leaves after a write of no bytes
      to an empty file, or a count that wraps, stops the kernel or reads behind the file. */
  method FileRead(d: Disk, n: Inode, pos: nat, count: nat) returns (r: Read, fd_pos: nat)
    requires |n.sectors| == 13 && FileOk(d, n) && pos < WORDS && count < WORDS
    ensures var end := Min(pos + count, n.size);
            && (r.EndOfFile? <==> pos == n.size && 0 < count && pos + count < WORDS)
            && (r.Panic? <==> !r.EndOfFile? && (if Sane(n, pos, count) then end else pos) / BLOCK_SIZE >= LAST)
            && (r.Damaged? <==> !Sane(n, pos, count) && pos / BLOCK_SIZE < LAST)
            && (r.Data? ==> r.bytes == Contents(d, n)[pos..end] && fd_pos == end)
            && (!r.Data? ==> fd_pos == pos)
  {
    fd_pos := pos;
    var size := count;
    Clip(n.size, pos, count);
    if U32(pos + count) > n.size {
      size := U32(n.size - pos);
      if size == 0 {
        return EndOfFile, fd_pos;
      }
    }
    var first, last := pos / BLOCK_SIZE, U32(pos + size) / BLOCK_SIZE;
    if pos + size > n.size {
      NotBoth(n.size, pos, U32(pos + size), count);
      return if first < LAST && last < LAST then Read.Damaged else Read.Panic, fd_pos;
    }
    var ok, buf;
    ok, buf, fd_pos := ReadRange(d, n, pos, size);
    r := if ok then Data(buf) else Read.Panic;
  }

  /** Behind the end it is the first block that the assertion is about. */
  lemma NotBoth(size: nat, pos: nat, stop: nat, count: nat)
    requires stop <= size < MAX_SIZE && (pos <= size ==> stop < pos)
    ensures pos / BLOCK_SIZE < LAST ==> stop / BLOCK_SIZE < LAST
  {
  }

  // ---------------------------------------------------------------- appends and reads together

  function Flatten(bufs: seq<seq<Byte>>): seq<Byte> {
    if bufs == [] then [] else Flatten(bufs[..|bufs| - 1]) + bufs[|bufs| - 1]
  }

  lemma FlattenSnoc(s: seq<Byte>, bufs: seq<seq<Byte>>, k: nat)
    requires k < |bufs|
    ensures s + Flatten(bufs[..k]) + bufs[k] == s + Flatten(bufs[..k + 1])
  {
    assert bufs[..k + 1][..k] == bufs[..k];
  }

  /** File i is well-formed and holds s. */
  ghost predicate Holds(d: Disk, inodes: map<nat, Inode>, i: nat, s: seq<Byte>) {
    i in inodes && |inodes[i].sectors| == 13 && FileOk(d, inodes[i]) && Contents(d, inodes[i]) == s
  }

  lemma AppendedHolds(d: Disk, d': Disk, inodes: map<nat, Inode>, inodes': map<nat, Inode>, i: nat, buf: seq<Byte>,
                      s: seq<Byte>)
    requires Appended(d, d', inodes, inodes', i, buf) && Contents(d, inodes[i]) == s
    ensures Holds(d', inodes', i, s + buf)
  {
  }

  method WriteNext(p: Partition, i: nat, buf: seq<Byte>, ghost s: seq<Byte>) returns (ok: bool)
    requires p.Valid() && i != 0 && Holds(p.disk, p.inodes, i, s) && |buf| < WORDS
    modifies p
    ensures ok <==> |s| + |buf| < MAX_SIZE && old(BlocksNeeded(p.inodes[i], |buf|)) <= FreeBits(old(p.bits))
    ensures ok ==> p.Valid() && Holds(p.disk, p.inodes, i, s + buf) && p.inodes[i].sectors[0] != 0
    ensures ok ==> FreeBits(p.bits) == FreeBits(old(p.bits)) - old(BlocksNeeded(p.inodes[i], |buf|))
  {
    assert |s| == p.inodes[i].size;
    var r, _ := FileWrite(p, i, buf);
    if r.Written? {
      AppendedHolds(old(p.disk), p.disk, old(p.inodes), p.inodes, i, buf, s);
    }
    ok := r.Written?;
  }

  /** Two appends need as many blocks as one. */
  lemma NeededSplit(n: Inode, n': Inode, a: nat, b: nat)
    requires |n.sectors| == |n'.sectors| == 13 && n'.size == n.size + a && n'.sectors[0] != 0
    ensures BlocksNeeded(n, a) + BlocksNeeded(n', b) == BlocksNeeded(n, a + b)
  {
    DivMono(n.size, a);
    DivMono(n.size + a, b);
    MoreSplit(n.size / BLOCK_SIZE + 1, (n.size + a) / BLOCK_SIZE + 1, (n.size + a + b) / BLOCK_SIZE + 1);
  }

  lemma MoreSplit(x: nat, y: nat, z: nat)
    requires x <= y <= z
    ensures MoreBlocks(x, y) + MoreBlocks(y, z) == MoreBlocks(x, z)
  {
  }

  /** The appends fit the largest size, and the free blocks. */
  ghost predicate AllFit(n: Inode, bufs: seq<seq<Byte>>, free: nat)
    requires |n.sectors| == 13
  {
    bufs == [] || (n.size + |Flatten(bufs)| < MAX_SIZE && BlocksNeeded(n, |Flatten(bufs)|) <= free)
  }

  lemma NeededMore(n: Inode, a: nat, b: nat)
    requires |n.sectors| == 13 && a <= b
    ensures BlocksNeeded(n, a) <= BlocksNeeded(n, b)
  {
    var n' := n.(sectors := n.sectors[0 := 1], size := n.size + a);
    NeededSplit(n, n', a, b - a);
  }

  /** What fits still fits without the last appends. */
  lemma {:induction false} FewerFit(n: Inode, bufs: seq<seq<Byte>>, free: nat, k: nat)
    requires |n.sectors| == 13 && k <= |bufs| && AllFit(n, bufs, free)
    ensures AllFit(n, bufs[..k], free)
    decreases |bufs|
  {
    if k == |bufs| {
      assert bufs[..k] == bufs;
    } else {
      var shorter := bufs[..|bufs| - 1];
      NeededMore(n, |Flatten(shorter)|, |Flatten(bufs)|);
      assert shorter[..k] == bufs[..k];
      FewerFit(n, shorter, free, k);
    }
  }

  /** Between two appends: m is the inode, `free` the number of free blocks, n and free0 those of the beginning. */
  ghost predicate Between(n: Inode, free0: nat, bufs: seq<seq<Byte>>, m: Inode, free: nat)
    requires |n.sectors| == |m.sectors| == 13
  {
    if bufs == [] then m == n && free == free0
    else && m.size == n.size + |Flatten(bufs)| && m.sectors[0] != 0 && AllFit(n, bufs, free0)
         && free == free0 - BlocksNeeded(n, |Flatten(bufs)|)
  }

  /** Append k fits exactly if all up to it fit. */
  lemma NextFits(n: Inode, free0: nat, bufs: seq<seq<Byte>>, k: nat, m: Inode, free: nat)
    requires |n.sectors| == |m.sectors| == 13 && k < |bufs| && Between(n, free0, bufs[..k], m, free)
    ensures AllFit(n, bufs[..k + 1], free0) <==>
            m.size + |bufs[k]| < MAX_SIZE && BlocksNeeded(m, |bufs[k]|) <= free
    ensures BlocksNeeded(n, |Flatten(bufs[..k + 1])|) == free0 - free + BlocksNeeded(m, |bufs[k]|)
    ensures |Flatten(bufs[..k + 1])| == |Flatten(bufs[..k])| + |bufs[k]|
  {
    assert bufs[..k + 1][..k] == bufs[..k];
    if k > 0 {
      NeededSplit(n, m, |Flatten(bufs[..k])|, |bufs[k]|);
    }
  }

  /** Any sequence of appends: all succeed exactly if they fit together, and k is the first that does not. */
  method WriteAll(p: Partition, i: nat, bufs: seq<seq<Byte>>, ghost s: seq<Byte>) returns (ok: bool, k: nat)
    requires p.Valid() && i != 0 && Holds(p.disk, p.inodes, i, s)
    requires forall k :: 0 <= k < |bufs| ==> |bufs[k]| < WORDS
    modifies p
    ensures ok <==> AllFit(old(p.inodes[i]), bufs, FreeBits(old(p.bits)))
    ensures ok ==> p.Valid() && Holds(p.disk, p.inodes, i, s + Flatten(bufs))
    ensures !ok ==> k < |bufs| && AllFit(old(p.inodes[i]), bufs[..k], FreeBits(old(p.bits)))
                    && !AllFit(old(p.inodes[i]), bufs[..k + 1], FreeBits(old(p.bits)))
  {
    ghost var n, free0 := p.inodes[i], FreeBits(p.bits);
    k := 0;
    assert s + Flatten(bufs[..0]) == s;
    while k < |bufs|
      invariant 0 <= k <= |bufs| && p.Valid() && Holds(p.disk, p.inodes, i, s + Flatten(bufs[..k]))
      invariant Between(n, free0, bufs[..k], p.inodes[i], FreeBits(p.bits))
    {
      FlattenSnoc(s, bufs, k);
      NextFits(n, free0, bufs, k, p.inodes[i], FreeBits(p.bits));
      ok := WriteNext(p, i, bufs[k], s + Flatten(bufs[..k]));
      if !ok {
        if AllFit(n, bufs, free0) {
          FewerFit(n, bufs, free0, k + 1);
        }
        return;
      }
      k := k + 1;
    }
    assert bufs[..k] == bufs;
    ok := true;
  }

  /** What was appended is read back, from any position in the file. */
  method WriteAllThenRead(p: Partition, i: nat, bufs: seq<seq<Byte>>, pos: nat, count: nat, ghost s: seq<Byte>)
    returns (ok: bool, k: nat, r: Read)
    requires p.Valid() && i != 0 && Holds(p.disk, p.inodes, i, s)
    requires forall k :: 0 <= k < |bufs| ==> |bufs[k]| < WORDS
    requires pos <= |s + Flatten(bufs)| && pos + count < WORDS
    modifies p
    ensures ok ==> var all := s + Flatten(bufs);
                   var end := Min(pos + count, |all|);
                   && !r.Damaged? && (r.EndOfFile? <==> pos == |all| && count > 0)
                   && (r.Panic? <==> !r.EndOfFile? && end / BLOCK_SIZE >= LAST)
                   && (r.Data? ==> r.bytes == all[pos..end])
    ensures ok <==> AllFit(old(p.inodes[i]), bufs, FreeBits(old(p.bits)))
    ensures !ok ==> k < |bufs| && AllFit(old(p.inodes[i]), bufs[..k], FreeBits(old(p.bits)))
                    && !AllFit(old(p.inodes[i]), bufs[..k + 1], FreeBits(old(p.bits)))
  {
    r := EndOfFile;
    ok, k := WriteAll(p, i, bufs, s);
    if ok {
      var fd_pos;
      r, fd_pos := FileRead(p.disk, p.inodes[i], pos, count);
    }
  }
}
