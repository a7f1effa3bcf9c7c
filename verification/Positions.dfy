/** fs/fs.c: sys_read and sys_lseek, which move the position of an open file. */
module Positions {
  import opened Options
  import opened Disks
  import opened InodeTable
  import opened Volumes
  import opened Walks
  import opened Trees
  import opened Worlds
  import opened Mounts
  import Files
  import FileReads

  /** What the file in slot fd of the table holds. */
  ghost function HeldBy(m: Mount, fd: nat): seq<Byte>
    reads m, m.part
  {
    if IsOpen(m.table, fd) && m.table[fd].value.no in m.part.inodes then
      BytesIn(m.part.disk, m.part.inodes[m.table[fd].value.no])
    else []
  }

  lemma HeldIs(m: Mount, tree: Tree, depth: map<nat, nat>, fd: nat)
    requires Live(m, tree, depth) && IsOpen(m.table, fd)
    ensures var f := m.table[fd].value;
            && f.no in m.part.inodes && f.no !in tree && PosOk(f.pos) && FileAt(m.part.disk, m.part.inodes, f.no)
            && HeldBy(m, fd) == Files.Contents(m.part.disk, m.part.inodes[f.no])
            && |HeldBy(m, fd)| == m.part.inodes[f.no].size < Files.MAX_SIZE
            && f.no in FilesIn(m, tree.Keys) && FilesIn(m, tree.Keys)[f.no] == HeldBy(m, fd)
  {
    SlotFile(m.table, m.part.inodes, tree, fd);
    assert FileAt(m.part.disk, m.part.inodes, m.table[fd].value.no);
  }

  /** sys_read at the end of the file returns -1. */
  predicate AtEnd(size: nat, pos: nat, count: nat) {
    pos == size && 0 < count && pos + count < WORDS
  }

  /** sys_read stops the kernel, or damages memory: it reads from behind the end, or into block 139, or wraps. */
  predicate ReadStops(size: nat, pos: nat, count: nat) {
    !AtEnd(size, pos, count) && (pos > size || pos + count >= WORDS || Files.Min(pos + count, size) / 512 >= 139)
  }

  /** file_read, by the size of the file. */
  method ReadAt(d: Disk, n: Inode, pos: nat, count: nat) returns (s: Status, bytes: seq<Byte>, end: nat)
    requires |n.sectors| == 13 && Files.FileOk(d, n) && n.size < Files.MAX_SIZE && pos < WORDS && count < WORDS
    ensures (s.Refused? <==> AtEnd(n.size, pos, count)) && (s.Stopped? <==> ReadStops(n.size, pos, count)) && !s.Lost?
    ensures s.Done? ==> pos <= end == Files.Min(pos + count, n.size) && bytes == Files.Contents(d, n)[pos..end]
    ensures !s.Done? ==> bytes == []
  {
    bytes := [];
    var r;
    r, end := FileReads.FileRead(d, n, pos, count);
    if r.Data? {
      bytes := r.bytes;
    }
    s := if r.Data? then Done else if r.EndOfFile? then Refused else Stopped;
  }

  /** What sys_read does to the file with the bytes `file`: f before, f' after. */
  ghost predicate Reads(s: Status, bytes: seq<Byte>, f: OpenFile, f': OpenFile, file: seq<Byte>, count: nat) {
    && (s.Refused? <==> AtEnd(|file|, f.pos, count)) && (s.Stopped? <==> ReadStops(|file|, f.pos, count))
    && (if s.Done? then f.pos <= f'.pos == Files.Min(f.pos + count, |file|) && f' == f.(pos := f'.pos)
                        && bytes == file[f.pos..f'.pos]
        else f' == f && bytes == [])
  }

  /** file_read for the file in slot fd. */
  method ReadFile(m: Mount, ghost tree: Tree, ghost depth: map<nat, nat>, fd: nat, count: nat)
    returns (s: Status, bytes: seq<Byte>, end: nat)
    requires Live(m, tree, depth) && count < WORDS && IsOpen(m.table, fd)
    ensures PosOk(end) && !s.Lost?
    ensures Reads(s, bytes, m.table[fd].value, m.table[fd].value.(pos := end), HeldBy(m, fd), count)
  {
    HeldIs(m, tree, depth, fd);
    var f := m.table[fd].value;
    s, bytes, end := ReadAt(m.part.disk, m.part.inodes[f.no], f.pos, count);
    if !s.Done? {
      end := f.pos;
    }
  }

  /** sys_read */
  method SysRead(m: Mount, ghost tree: Tree, ghost depth: map<nat, nat>, fd: nat, count: nat)
    returns (s: Status, bytes: seq<Byte>)
    requires Live(m, tree, depth) && count < WORDS
    modifies m`openInodes, m`table
    ensures m.openInodes == old(m.openInodes) && Live(m, tree, depth) && !s.Lost?
    ensures !IsOpen(old(m.table), fd) ==> s.Stopped? && m.table == old(m.table) && bytes == []
    ensures IsOpen(old(m.table), fd) ==>
              && IsOpen(m.table, fd) && m.table == old(m.table)[fd := m.table[fd]]
              && Reads(s, bytes, old(m.table)[fd].value, m.table[fd].value, old(HeldBy(m, fd)), count)
  {
    bytes := [];
    if !IsOpen(m.table, fd) {
      return Stopped, bytes;
    }
    var end;
    s, bytes, end := ReadFile(m, tree, depth, fd, count);
    MoveTo(m, tree, depth, fd, end, m.part.inodes);
  }

  // ---------------------------------------------------------------- sys_lseek

  const HALF := 0x8000_0000

  /** Arithmetic in int32_t. */
  function I32(x: int): (r: int)
    ensures -HALF <= r < HALF && (-HALF <= x < HALF ==> r == x)
  {
    (x + HALF) % WORDS - HALF
  }

  /** Where sys_lseek counts from; the position is taken as an int32_t. */
  function SeekFrom(whence: nat, pos: nat, size: nat): int {
    if whence == 1 then 0 else if whence == 2 then I32(pos) else size
  }

  /** A sum that wraps is out of the file either way. */
  lemma SeekExact(from: int, offset: int, size: nat)
    requires -1 <= from < Files.MAX_SIZE && -HALF <= offset < HALF && size < Files.MAX_SIZE
    ensures 0 <= I32(from + offset) <= size - 1 <==> 0 <= from + offset < size
    ensures 0 <= from + offset < size ==> I32(from + offset) == from + offset
  {
  }

  /** What sys_lseek does to the file with the bytes `file`: f before, f' after. */
  ghost predicate Seeks(s: Status, f: OpenFile, f': OpenFile, file: seq<Byte>, offset: int, whence: nat) {
    var pos := SeekFrom(whence, f.pos, |file|) + offset;
    (s.Done? <==> 0 <= pos < |file|) && (s.Done? || s.Refused?) && f' == if s.Done? then f.(pos := pos) else f
  }

  /** The new position in a file of that size, or the old one. */
  method SeekIn(fd_pos: nat, file_size: nat, offset: int, whence: nat) returns (s: Status, pos: nat)
    requires PosOk(fd_pos) && file_size < Files.MAX_SIZE && -HALF <= offset < HALF && 1 <= whence <= 3
    ensures PosOk(pos) && (s.Done? || s.Refused?)
    ensures var to := SeekFrom(whence, fd_pos, file_size) + offset;
            (s.Done? <==> 0 <= to < file_size) && pos == if s.Done? then to else fd_pos
  {
    var new_pos := offset;
    if whence == 2 {
      new_pos := I32(I32(fd_pos) + offset);
    } else if whence == 3 {
      new_pos := I32(file_size + offset);
    }
    SeekExact(SeekFrom(whence, fd_pos, file_size), offset, file_size);
    if new_pos < 0 || new_pos > file_size - 1 {
      return Refused, fd_pos;
    }
    s, pos := Done, new_pos;
  }

  method NewPosition(m: Mount, ghost tree: Tree, ghost depth: map<nat, nat>, fd: nat, offset: int, whence: nat)
    returns (s: Status, pos: nat)
    requires Live(m, tree, depth) && -HALF <= offset < HALF && 1 <= whence <= 3 && IsOpen(m.table, fd)
    ensures PosOk(pos)
    ensures Seeks(s, m.table[fd].value, m.table[fd].value.(pos := pos), HeldBy(m, fd), offset, whence)
  {
    HeldIs(m, tree, depth, fd);
    var f := m.table[fd].value;
    s, pos := SeekIn(f.pos, m.part.inodes[f.no].size, offset, whence);
  }

  /** sys_lseek */
  method SysLseek(m: Mount, ghost tree: Tree, ghost depth: map<nat, nat>, fd: nat, offset: int, whence: nat)
    returns (s: Status)
    requires Live(m, tree, depth) && -HALF <= offset < HALF
    modifies m`openInodes, m`table
    ensures m.openInodes == old(m.openInodes) && Live(m, tree, depth) && !s.Lost?
    ensures s.Stopped? <==> !(1 <= whence <= 3) || !IsOpen(old(m.table), fd)
    ensures s.Stopped? ==> m.table == old(m.table)
    ensures !s.Stopped? ==>
              && IsOpen(m.table, fd) && m.table == old(m.table)[fd := m.table[fd]]
              && Seeks(s, old(m.table)[fd].value, m.table[fd].value, old(HeldBy(m, fd)), offset, whence)
  {
    if !(0 < whence < 4) || !IsOpen(m.table, fd) {
      return Stopped;
    }
    var pos;
    s, pos := NewPosition(m, tree, depth, fd, offset, whence);
    MoveTo(m, tree, depth, fd, pos, m.part.inodes);
  }
}
