/** Every run of the system calls on a mounted partition. */
module Runs {
  import opened Options
  import opened Disks
  import opened InodeTable
  import opened OpenInodes
  import opened Volumes
  import opened Entries
  import opened DirSlots
  import opened Dirs
  import opened Paths
  import opened Walks
  import opened WorkingDirs
  import opened Trees
  import opened Worlds
  import opened Mounts
  import opened Positions
  import opened SysCalls
  import Files
  import FileSystems
  import Releases

  // ---------------------------------------------------------------- every run

  datatype Call =
    | Open(path: Name, flags: nat, room: bool)
    | Write(fd: nat, buf: seq<Byte>)
    | Read(fd: nat, count: nat)
    | Lseek(fd: nat, offset: int, whence: nat)
    | Close(fd: nat)
    | Mkdir(path: Name)
    | Unlink(path: Name)
    | Rmdir(path: Name)

  /** Paths are C strings, buffers fit the memory, and numbers their types. */
  predicate Admitted(c: Call) {
    && (c.Open? || c.Mkdir? || c.Unlink? || c.Rmdir? ==> 0 !in c.path) && (c.Write? ==> |c.buf| < WORDS)
    && (c.Read? ==> c.count < WORDS) && (c.Lseek? ==> -HALF <= c.offset < HALF)
  }

  /** What each loss means. */
  ghost predicate LossShows(m: Mount, loss: Loss)
    reads m, m.part
  {
    match loss
    case RootRecord => RootLost(m.part.disk, m.part.tableLba, m.part.inodes)
    case Dangling => !SomeWorld(m.part.disk, m.part.inodes)
    case Stale => !Fresh(m.openInodes, m.part.inodes)
  }

  /** A loss is one: the invariant holds for no tree. */
  lemma LossIsOne(m: Mount, loss: Loss, tree: Tree, depth: map<nat, nat>)
    requires LossShows(m, loss)
    ensures !Live(m, tree, depth)
  {
  }

  // ---------------------------------------------------------------- the file system as its users see it

  /** The directories, the contents of the files, and the table of open files. */
  datatype Fs = Fs(tree: Tree, files: map<nat, seq<Byte>>, table: FileTable)

  ghost function Now(m: Mount, tree: Tree): Fs
    reads m, m.part
  {
    Fs(tree, FilesIn(m, tree.Keys), m.table)
  }

  /** What a call that was not refused does; `no` is the inode that comes or goes or is used, fd the entry of the table,
      and `data` what was read. */
  ghost predicate Effect(c: Call, fs: Fs, fs': Fs, no: nat, fd: nat, data: seq<Byte>)
    requires Closed(fs.tree) && Closed(fs'.tree)
  {
    match c
    case Open(path, flags, _) =>
      if flags >= 4 then
        && NowThere(fs.tree, fs'.tree, path, no, FT_REGULAR) && no !in fs.files && fs'.files == fs.files[no := []]
        && Tabled(fs.table, fs'.table, fd, OpenFile(no, flags, 0))
      else
        && fs'.tree == fs.tree && fs'.files == fs.files && FileThere(fs.tree, path) && no == Target(fs.tree, path).ino
        && Tabled(fs.table, fs'.table, fd, OpenFile(no, flags, 0))
    case Write(fd, buf) =>
      && fs'.tree == fs.tree && IsOpen(fs.table, fd) && fs.table[fd].value.no == no && no in fs.files
      && fs'.files == fs.files[no := fs.files[no] + buf]
      && fs'.table == fs.table[fd := Some(fs.table[fd].value.(pos := Files.U32(|fs'.files[no]| - 1)))]
    case Read(fd, count) =>
      && IsOpen(fs.table, fd) && fs.table[fd].value.no == no && no in fs.files
      && var f, file := fs.table[fd].value, fs.files[no];
         var end := Files.Min(f.pos + count, |file|);
         f.pos <= end && data == file[f.pos..end] && fs' == fs.(table := fs.table[fd := Some(f.(pos := end))])
    case Lseek(fd, offset, whence) =>
      && IsOpen(fs.table, fd) && fs.table[fd].value.no == no && no in fs.files
      && var f := fs.table[fd].value;
         var pos := SeekFrom(whence, f.pos, |fs.files[no]|) + offset;
         0 <= pos < |fs.files[no]| && fs' == fs.(table := fs.table[fd := Some(f.(pos := pos))])
    case Close(fd) => IsOpen(fs.table, fd) && fs' == fs.(table := fs.table[fd := None])
    case Mkdir(path) =>
      NowThere(fs.tree, fs'.tree, path, no, FT_DIRECTORY) && fs'.files == fs.files && fs'.table == fs.table
    case Unlink(path) =>
      && NowGone(fs.tree, fs'.tree, path, no, FT_REGULAR) && no in fs.files && fs'.files == fs.files - {no}
      && fs'.table == fs.table
    case Rmdir(path) =>
      NowGone(fs.tree, fs'.tree, path, no, FT_DIRECTORY) && fs'.files == fs.files && fs'.table == fs.table
  }

  /** A call leads from fs to fs'.  A refused call changes nothing, but sys_open may have left an entry in the table. */
  ghost predicate Does(c: Call, refused: bool, fs: Fs, fs': Fs, data: seq<Byte>) {
    && Closed(fs.tree) && Closed(fs'.tree)
    && if refused then fs'.tree == fs.tree && fs'.files == fs.files && (c.Open? || fs'.table == fs.table)
       else exists no, fd :: Effect(c, fs, fs', no, fd, data)
  }

  lemma DoneNow(c: Call, fs: Fs, fs': Fs, no: nat, fd: nat, data: seq<Byte>)
    requires Closed(fs.tree) && Closed(fs'.tree) && Effect(c, fs, fs', no, fd, data)
    ensures Does(c, false, fs, fs', data)
  {
  }

  /** The directories that the map leaves out may differ in inodes that are not in use. */
  lemma FilesByDirs(d: Disk, inodes: map<nat, Inode>, dirs: set<nat>, dirs': set<nat>)
    requires forall k :: k in inodes ==> (k in dirs <==> k in dirs')
    ensures FilesOf(d, inodes, dirs) == FilesOf(d, inodes, dirs')
  {
  }

  method DoOpen(m: Mount, ghost tree: Tree, ghost depth: map<nat, nat>, c: Call, garbage: Byte)
    returns (s: Status, ghost tree': Tree)
    requires Live(m, tree, depth) && Admitted(c) && c.Open?
    modifies m, m.part
    ensures s.Refused? || s.Done? ==> Live(m, tree', depth)
    ensures s.Refused? || s.Done? ==> Does(c, s.Refused?, old(Now(m, tree)), Now(m, tree'), [])
    ensures s.Lost? ==> LossShows(m, s.loss) && s.loss.RootRecord? && FileSystems.NumbersUsed(old(m.part.inodes), 256)
  {
    var no, fd;
    if c.flags >= 4 {
      s, no, fd, tree' := SysCreate(m, tree, depth, c.path, c.flags, c.room, garbage);
      if s.Done? {
        assert no !in old(FilesIn(m, tree.Keys));
        DoneNow(c, old(Now(m, tree)), Now(m, tree'), no, fd, []);
      }
    } else {
      tree' := tree;
      s, fd := SysOpen(m, tree, depth, c.path, c.flags, c.room, garbage);
      if s.Done? {
        DoneNow(c, old(Now(m, tree)), Now(m, tree), Target(tree, c.path).ino, fd, []);
      }
    }
  }

  /** An append leaves the position before the last byte. */
  ghost predicate AtLast(f: OpenFile, f': OpenFile, files: map<nat, seq<Byte>>, buf: seq<Byte>) {
    f.no in files && f' == f.(pos := Files.U32(|files[f.no]| + |buf| - 1))
  }

  lemma WriteDoes(c: Call, fs: Fs, fs': Fs, no: nat, f': OpenFile)
    requires c.Write? && Closed(fs.tree) && IsOpen(fs.table, c.fd) && fs.table[c.fd].value.no == no
    requires fs'.tree == fs.tree && Grew(fs.files, fs'.files, no, c.buf) && fs'.table == fs.table[c.fd := Some(f')]
    requires AtLast(fs.table[c.fd].value, f', fs.files, c.buf)
    ensures Does(c, false, fs, fs', [])
  {
    DoneNow(c, fs, fs', no, c.fd, []);
  }

  lemma LastByWrote(d: Disk, d': Disk, inodes: map<nat, Inode>, inodes': map<nat, Inode>, dirs: set<nat>, f: OpenFile,
                    buf: seq<Byte>, pos: nat)
    requires Wrote(d, d', inodes, inodes', dirs, f, buf, pos)
    requires f.no in inodes && |FilesOf(d, inodes, dirs)[f.no]| == inodes[f.no].size
    ensures AtLast(f, f.(pos := pos), FilesOf(d, inodes, dirs), buf)
  {
  }

  /** sys_write, as its users see it. */
  method WriteSeen(m: Mount, ghost tree: Tree, ghost depth: map<nat, nat>, fd: nat, buf: seq<Byte>)
    returns (s: Status, pos: nat)
    requires Live(m, tree, depth) && |buf| < WORDS
    modifies m`openInodes, m`table, m.part
    ensures (s.Refused? || s.Done? ==> Live(m, tree, depth)) && !s.Lost?
    ensures s.Refused? ==> FilesIn(m, tree.Keys) == old(FilesIn(m, tree.Keys)) && m.table == old(m.table)
    ensures s.Done? ==> IsOpen(old(m.table), fd) && IsOpen(m.table, fd) && m.table == old(m.table)[fd := m.table[fd]]
    ensures s.Done? ==>
              var f := old(m.table)[fd].value;
              && Grew(old(FilesIn(m, tree.Keys)), FilesIn(m, tree.Keys), f.no, buf)
              && AtLast(f, m.table[fd].value, old(FilesIn(m, tree.Keys)), buf)
  {
    ghost var d, inodes := m.part.disk, m.part.inodes;
    ghost var open := IsOpen(m.table, fd);
    if open {
      HeldIs(m, tree, depth, fd);
      assert |FilesOf(d, inodes, tree.Keys)[m.table[fd].value.no]| == inodes[m.table[fd].value.no].size;
    }
    s, pos := SysWrite(m, tree, depth, fd, buf);
    if s.Done? {
      LastByWrote(d, m.part.disk, inodes, m.part.inodes, tree.Keys, old(m.table)[fd].value, buf, pos);
    }
  }

  method DoWrite(m: Mount, ghost tree: Tree, ghost depth: map<nat, nat>, c: Call) returns (s: Status)
    requires Live(m, tree, depth) && Admitted(c) && c.Write?
    modifies m, m.part
    ensures s.Refused? || s.Done? ==> Live(m, tree, depth)
    ensures s.Refused? || s.Done? ==> Does(c, s.Refused?, old(Now(m, tree)), Now(m, tree), [])
    ensures !s.Lost?
  {
    ghost var fs := Now(m, tree);
    var pos;
    s, pos := WriteSeen(m, tree, depth, c.fd, c.buf);
    if s.Done? {
      WriteDoes(c, fs, Now(m, tree), fs.table[c.fd].value.no, m.table[c.fd].value);
    }
  }

  lemma ReadDoes(c: Call, fs: Fs, f': OpenFile, no: nat, s: Status, data: seq<Byte>)
    requires c.Read? && Closed(fs.tree) && IsOpen(fs.table, c.fd) && fs.table[c.fd].value.no == no && no in fs.files
    requires Reads(s, data, fs.table[c.fd].value, f', fs.files[no], c.count) && (s.Refused? || s.Done?)
    ensures Does(c, s.Refused?, fs, fs.(table := fs.table[c.fd := Some(f')]), data)
  {
    var fs' := fs.(table := fs.table[c.fd := Some(f')]);
    if s.Done? {
      DoneNow(c, fs, fs', no, c.fd, data);
    } else {
      assert fs'.table == fs.table;
    }
  }

  lemma SeekDoes(c: Call, fs: Fs, f': OpenFile, no: nat, s: Status)
    requires c.Lseek? && Closed(fs.tree) && IsOpen(fs.table, c.fd) && fs.table[c.fd].value.no == no && no in fs.files
    requires Seeks(s, fs.table[c.fd].value, f', fs.files[no], c.offset, c.whence)
    ensures Does(c, s.Refused?, fs, fs.(table := fs.table[c.fd := Some(f')]), [])
  {
    var fs' := fs.(table := fs.table[c.fd := Some(f')]);
    if s.Done? {
      DoneNow(c, fs, fs', no, c.fd, []);
    } else {
      assert fs'.table == fs.table;
    }
  }

  method DoRead(m: Mount, ghost tree: Tree, ghost depth: map<nat, nat>, c: Call) returns (s: Status, data: seq<Byte>)
    requires Live(m, tree, depth) && Admitted(c) && c.Read?
    modifies m, m.part
    ensures Live(m, tree, depth) && !s.Lost?
    ensures s.Refused? || s.Done? ==> Does(c, s.Refused?, old(Now(m, tree)), Now(m, tree), data)
  {
    ghost var fs := Now(m, tree);
    if IsOpen(m.table, c.fd) {
      HeldIs(m, tree, depth, c.fd);
    }
    s, data := SysRead(m, tree, depth, c.fd, c.count);
    if s.Refused? || s.Done? {
      ReadDoes(c, fs, m.table[c.fd].value, fs.table[c.fd].value.no, s, data);
    }
  }

  method DoLseek(m: Mount, ghost tree: Tree, ghost depth: map<nat, nat>, c: Call) returns (s: Status)
    requires Live(m, tree, depth) && Admitted(c) && c.Lseek?
    modifies m, m.part
    ensures Live(m, tree, depth) && !s.Lost?
    ensures s.Refused? || s.Done? ==> Does(c, s.Refused?, old(Now(m, tree)), Now(m, tree), [])
  {
    ghost var fs := Now(m, tree);
    if IsOpen(m.table, c.fd) {
      HeldIs(m, tree, depth, c.fd);
    }
    s := SysLseek(m, tree, depth, c.fd, c.offset, c.whence);
    if s.Refused? || s.Done? {
      SeekDoes(c, fs, m.table[c.fd].value, fs.table[c.fd].value.no, s);
    }
  }

  method DoMkdir(m: Mount, ghost tree: Tree, ghost depth: map<nat, nat>, c: Call, garbage: Byte)
    returns (s: Status, ghost tree': Tree, ghost depth': map<nat, nat>)
    requires Live(m, tree, depth) && Admitted(c) && c.Mkdir?
    modifies m, m.part
    ensures s.Refused? || s.Done? ==> Live(m, tree', depth')
    ensures s.Refused? || s.Done? ==> Does(c, s.Refused?, old(Now(m, tree)), Now(m, tree'), [])
    ensures s.Lost? ==> LossShows(m, s.loss) && s.loss.RootRecord? && FileSystems.NumbersUsed(old(m.part.inodes), 256)
  {
    var no;
    s, no, tree', depth' := SysMkdir(m, tree, depth, c.path, garbage);
    if s.Done? {
      DoneNow(c, old(Now(m, tree)), Now(m, tree'), no, 0, []);
    }
  }

  method DoUnlink(m: Mount, ghost tree: Tree, ghost depth: map<nat, nat>, c: Call)
    returns (s: Status, ghost tree': Tree)
    requires Live(m, tree, depth) && Admitted(c) && c.Unlink?
    modifies m, m.part
    ensures s.Refused? || s.Done? ==> Live(m, tree', depth)
    ensures s.Refused? || s.Done? ==> Does(c, s.Refused?, old(Now(m, tree)), Now(m, tree'), [])
    ensures !s.Lost?
  {
    var no;
    s, no, tree' := SysUnlink(m, tree, depth, c.path);
    if s.Done? {
      DoneNow(c, old(Now(m, tree)), Now(m, tree'), no, 0, []);
    }
  }

  method DoRmdir(m: Mount, ghost tree: Tree, ghost depth: map<nat, nat>, c: Call)
    returns (s: Status, ghost tree': Tree, ghost depth': map<nat, nat>)
    requires Live(m, tree, depth) && Admitted(c) && c.Rmdir?
    modifies m, m.part
    ensures s.Refused? || s.Done? ==> Live(m, tree', depth')
    ensures s.Refused? || s.Done? ==> Does(c, s.Refused?, old(Now(m, tree)), Now(m, tree'), [])
    ensures s.Lost? ==> LossShows(m, s.loss) && Removes(tree, c.path)
    ensures Removes(tree, c.path) ==>
              (s.Done? <==> !DotRemoves(tree, c.path) && Count(old(m.openInodes), Target(tree, c.path).ino) == 0)
  {
    var no;
    s, no, tree', depth' := SysRmdir(m, tree, depth, c.path);
    if s.Done? {
      FilesByDirs(m.part.disk, m.part.inodes, tree.Keys, tree'.Keys);
      DoneNow(c, old(Now(m, tree)), Now(m, tree'), no, 0, []);
    }
  }

  method Perform(m: Mount, ghost tree: Tree, ghost depth: map<nat, nat>, c: Call, garbage: Byte)
    returns (s: Status, data: seq<Byte>, ghost tree': Tree, ghost depth': map<nat, nat>)
    requires Live(m, tree, depth) && Admitted(c)
    modifies m, m.part
    ensures s.Refused? || s.Done? ==> Live(m, tree', depth')
    ensures s.Refused? || s.Done? ==> Does(c, s.Refused?, old(Now(m, tree)), Now(m, tree'), data)
    ensures s.Lost? ==> LossShows(m, s.loss)
    ensures c.Rmdir? && Removes(tree, c.path) ==>
              (s.Done? <==> !DotRemoves(tree, c.path) && Count(old(m.openInodes), Target(tree, c.path).ino) == 0)
    ensures s.Lost? ==>
              || (c.Rmdir? && Removes(tree, c.path))
              || ((c.Open? || c.Mkdir?) && s.loss.RootRecord? && FileSystems.NumbersUsed(old(m.part.inodes), 256))
  {
    tree', depth', data := tree, depth, [];
    match c
    case Open(_, _, _) => s, tree' := DoOpen(m, tree, depth, c, garbage);
    case Write(_, _) => s := DoWrite(m, tree, depth, c);
    case Read(_, _) => s, data := DoRead(m, tree, depth, c);
    case Lseek(_, _, _) => s := DoLseek(m, tree, depth, c);
    case Close(fd) =>
      s := SysClose(m, tree, depth, fd);
      if s.Done? {
        DoneNow(c, old(Now(m, tree)), Now(m, tree), 0, fd, []);
      }
    case Mkdir(_) => s, tree', depth' := DoMkdir(m, tree, depth, c, garbage);
    case Unlink(_) => s, tree' := DoUnlink(m, tree, depth, c);
    case Rmdir(_) => s, tree', depth' := DoRmdir(m, tree, depth, c);
  }

  /** A run as its users see it: the states, the calls that were refused, and what was read. */
  datatype Story = Story(states: seq<Fs>, refused: set<nat>, data: seq<seq<Byte>>)

  /** The calls lead from each state to the next. */
  ghost predicate Tells(t: Story, calls: seq<Call>) {
    && |t.states| == |calls| + 1 && |t.data| == |calls| && (forall j :: j in t.refused ==> j < |calls|)
    && forall k: nat {:trigger TellsAt(t, calls, k)} :: k < |calls| ==> TellsAt(t, calls, k)
  }

  ghost predicate TellsAt(t: Story, calls: seq<Call>, k: nat)
    requires |t.states| == |calls| + 1 && |t.data| == |calls| && k < |calls|
  {
    Does(calls[k], k in t.refused, t.states[k], t.states[k + 1], t.data[k])
  }

  ghost function Longer(t: Story, refused: bool, fs: Fs, data: seq<Byte>): Story {
    Story(t.states + [fs], if refused then t.refused + {|t.data|} else t.refused, t.data + [data])
  }

  lemma TellsMore(t: Story, calls: seq<Call>, c: Call, refused: bool, fs: Fs, data: seq<Byte>)
    requires Tells(t, calls) && Does(c, refused, t.states[|calls|], fs, data)
    ensures Tells(Longer(t, refused, fs, data), calls + [c])
  {
    var t', calls' := Longer(t, refused, fs, data), calls + [c];
    forall k: nat {:trigger TellsAt(t', calls', k)} | k < |calls'| ensures TellsAt(t', calls', k) {
      if k < |calls| {
        assert TellsAt(t, calls, k);
      }
    }
  }

  /** What a call appends to file no. */
  ghost function Added(c: Call, refused: bool, fs: Fs, no: nat): seq<Byte> {
    if !refused && c.Write? && IsOpen(fs.table, c.fd) && fs.table[c.fd].value.no == no then c.buf else []
  }

  /** What the first k calls append to file no. */
  ghost function AllAdded(t: Story, calls: seq<Call>, no: nat, k: nat): seq<Byte>
    requires k <= |calls| < |t.states|
  {
    if k == 0 then []
    else AllAdded(t, calls, no, k - 1) + Added(calls[k - 1], k - 1 in t.refused, t.states[k - 1], no)
  }

  lemma StepAdds(c: Call, refused: bool, fs: Fs, fs': Fs, data: seq<Byte>, no: nat)
    requires Does(c, refused, fs, fs', data) && no in fs.files && no in fs'.files
    ensures fs'.files[no] == fs.files[no] + Added(c, refused, fs, no)
  {
    if !refused {
      var n, fd :| Effect(c, fs, fs', n, fd, data);
    }
  }

  /** Over a whole run a file holds what it held, and then what the calls have written to it, in order, whatever else
      they did. */
  lemma {:induction false} FileGrows(t: Story, calls: seq<Call>, no: nat, k: nat)
    requires Tells(t, calls) && k <= |calls| && forall j :: 0 <= j <= k ==> no in t.states[j].files
    ensures t.states[k].files[no] == t.states[0].files[no] + AllAdded(t, calls, no, k)
  {
    if k > 0 {
      FileGrows(t, calls, no, k - 1);
      assert TellsAt(t, calls, k - 1);
      StepAdds(calls[k - 1], k - 1 in t.refused, t.states[k - 1], t.states[k], t.data[k - 1], no);
    }
  }

  /** So a read gives a part of that, from the position that the call before has left. */
  lemma ReadGives(t: Story, calls: seq<Call>, no: nat, k: nat)
    requires Tells(t, calls) && k < |calls| && calls[k].Read? && k !in t.refused
    requires forall j :: 0 <= j <= k ==> no in t.states[j].files
    requires IsOpen(t.states[k].table, calls[k].fd) && t.states[k].table[calls[k].fd].value.no == no
    ensures var all := t.states[0].files[no] + AllAdded(t, calls, no, k);
            var pos := t.states[k].table[calls[k].fd].value.pos;
            && pos <= |all| && t.data[k] == all[pos..Files.Min(pos + calls[k].count, |all|)]
  {
    FileGrows(t, calls, no, k);
    assert TellsAt(t, calls, k);
    var n, fd :| Effect(calls[k], t.states[k], t.states[k + 1], n, fd, t.data[k]);
  }

  /** The run so far: the calls, what was read, and the first state. */
  ghost predicate OnTrack(m: Mount, tree: Tree, depth: map<nat, nat>, t: Story, calls: seq<Call>, data: seq<seq<Byte>>,
                          first: Fs)
    reads m, m.part
  {
    && Live(m, tree, depth) && Tells(t, calls) && t.data == data && t.states[0] == first
    && t.states[|calls|] == Now(m, tree)
  }

  lemma NextCall(calls: seq<Call>, k: nat)
    requires k < |calls|
    ensures calls[..k] + [calls[k]] == calls[..k + 1] && (k + 1 == |calls| ==> calls[..k + 1] == calls)
  {
  }

  lemma NoCalls(calls: seq<Call>, t: Story)
    requires |t.states| == 1 && t.refused == {} && t.data == []
    ensures Tells(t, calls[..0]) && |calls[..0]| == 0 && (calls == [] ==> calls[..0] == calls)
  {
  }

  /** The next call of a run. */
  method Continue(m: Mount, ghost tree: Tree, ghost depth: map<nat, nat>, ghost calls: seq<Call>, c: Call,
                  garbage: Byte, ghost t: Story, data: seq<seq<Byte>>, ghost first: Fs)
    returns (s: Status, data': seq<seq<Byte>>, ghost tree': Tree, ghost depth': map<nat, nat>, ghost t': Story)
    requires OnTrack(m, tree, depth, t, calls, data, first) && Admitted(c)
    modifies m, m.part
    ensures s.Refused? || s.Done? ==> OnTrack(m, tree', depth', t', calls + [c], data', first)
    ensures s.Lost? ==> LossShows(m, s.loss)
  {
    var bytes;
    s, bytes, tree', depth' := Perform(m, tree, depth, c, garbage);
    t', data' := t, data + [bytes];
    if s.Refused? || s.Done? {
      TellsMore(t, calls, c, s.Refused?, Now(m, tree'), bytes);
      t' := Longer(t, s.Refused?, Now(m, tree'), bytes);
    }
  }

  /** In every state that a run of calls reaches without being stopped, no block has two owners, the bitmap marks
      exactly the owned blocks, every file and every directory is well-formed, the directories are a tree, every inode
      in use is in the inode table, and every object in the list of open inodes is that of an inode in use; unless a
      call has lost the invariant, in one of the ways that are left: by inode number 256, or by sys_rmdir of a
      directory by a last "." or of one that was left open.  And the directories, the contents of all files and the
      table of open files go through what the calls are for, and nothing else. */
  method Run(m: Mount, ghost tree: Tree, ghost depth: map<nat, nat>, calls: seq<Call>, garbage: seq<Byte>)
    returns (s: Status, data: seq<seq<Byte>>, ghost tree': Tree, ghost depth': map<nat, nat>, ghost t: Story)
    requires Live(m, tree, depth) && |garbage| == |calls|
    requires forall k :: 0 <= k < |calls| ==> Admitted(calls[k])
    modifies m, m.part
    ensures s.Done? ==> OnTrack(m, tree', depth', t, calls, data, old(Now(m, tree)))
    ensures s.Lost? ==> LossShows(m, s.loss)
    ensures !s.Refused?
  {
    ghost var first := Now(m, tree);
    tree', depth', data, t := tree, depth, [], Story([first], {}, []);
    var k := 0;
    NoCalls(calls, t);
    while k < |calls|
      invariant 0 <= k <= |calls| && (k == |calls| ==> calls[..k] == calls)
      invariant OnTrack(m, tree', depth', t, calls[..k], data, first)
    {
      NextCall(calls, k);
      s, data, tree', depth', t := Continue(m, tree', depth', calls[..k], calls[k], garbage[k], t, data, first);
      if s.Stopped? || s.Lost? {
        return;
      }
      k := k + 1;
    }
    s := Done;
  }

  /** sys_chdir to a directory after any such run: if sys_getcwd gives a path, the path leads back, and it does if the
      path and its terminator fit the two buffers. */
  method RunThenGetcwd(m: Mount, ghost tree: Tree, ghost depth: map<nat, nat>, calls: seq<Call>, garbage: seq<Byte>,
                       path: Name, size: nat)
    returns (s: Status, cwd: Search, c: Cwd, back: Search, ghost tree': Tree, ghost depth': map<nat, nat>)
    requires Live(m, tree, depth) && |garbage| == |calls|
    requires forall k :: 0 <= k < |calls| ==> Admitted(calls[k])
    modifies m, m.part
    ensures s.Done? ==> Live(m, tree', depth')
    ensures s.Done? && Reaches(cwd) ==> cwd.ino in tree'
                                        && c == CwdAnswer(cwd.ino, PathTo(tree', depth', cwd.ino), size)
    ensures s.Done? && Reaches(cwd) && c.Path? ==> back.Hit? && back.ino == cwd.ino && back.ftype == FT_DIRECTORY
  {
    cwd, c, back := Garbage, Cwd.Panic, Garbage;
    ghost var t;
    var data;
    s, data, tree', depth', t := Run(m, tree, depth, calls, garbage);
    if s.Done? {
      var p := m.part;
      var searched, dir, os;
      cwd, searched, dir, os := Find(m, tree', depth', path);
      Leave(m, tree', depth', os, dir);
      if Reaches(cwd) {
        ValidIsAbove(p.disk, p.inodes, tree', p.bits, p.dataStart, p.reserved);
        c, back := CwdRoundTrip(p.disk, p.tableLba, p.inodes, m.openInodes, p.dataStart, tree', depth', cwd.ino, size);
      }
    }
  }

  /** A file that was opened for writing and closed can be opened for writing again. */
  method WriteAgain(m: Mount, ghost tree: Tree, ghost depth: map<nat, nat>, path: Name, flags: nat, garbage: Byte)
    returns (s: Status, again: Status)
    requires Live(m, tree, depth) && 0 < flags < 4
    modifies m
    ensures Live(m, tree, depth) && (s.Done? ==> again.Done?)
  {
    again := Stopped;
    var fd;
    s, fd := SysOpen(m, tree, depth, path, flags, true, garbage);
    if s.Done? {
      ghost var table := m.table;
      var closed := SysClose(m, tree, depth, fd);
      RoomAfter(table, fd);
      again, fd := SysOpen(m, tree, depth, path, flags, true, garbage);
    }
  }

  /** Before it was closed it cannot, by nobody. */
  method WriteTwice(m: Mount, ghost tree: Tree, ghost depth: map<nat, nat>, path: Name, flags: nat, garbage: Byte)
    returns (s: Status, again: Status)
    requires Live(m, tree, depth) && 0 < flags < 4
    modifies m
    ensures Live(m, tree, depth) && (s.Done? ==> again.Refused?)
  {
    again := Stopped;
    var fd;
    s, fd := SysOpen(m, tree, depth, path, flags, true, garbage);
    if s.Done? {
      again, fd := SysOpen(m, tree, depth, path, flags, true, garbage);
    }
  }

  // ---------------------------------------------------------------- a directory that is left open

  const D: Name := [100]
  const F: Name := [102]
  const G: Name := [103]

  const PATH_D: Name := [SLASH] + D
  const PATH_F: Name := [SLASH] + D + [SLASH] + F

  lemma TheNames()
    ensures Components(PATH_D) == [D] && Components(PATH_F) == [D, F]
  {
    PrintSnoc([], D);
    assert Print([]) == [] && [] + [D] == [D] && [] + [SLASH] + D == PATH_D;
    ComponentsOfPrint([D]);
    PrintSnoc([D], F);
    assert [D] + [F] == [D, F] && PATH_D + [SLASH] + F == PATH_F;
    ComponentsOfPrint([D, F]);
  }

  lemma ThePaths()
    ensures Components(PATH_D) == [D] && Components(PATH_F) == [D, F] && Searchable(PATH_D) && Searchable(PATH_F)
    ensures !IsRoot(PATH_D) && !IsRoot(PATH_F) && 0 !in PATH_D && 0 !in PATH_F && !Uncounted(PATH_F)
    ensures PATH_F != [] && PATH_F[|PATH_F| - 1] != SLASH
  {
    TheNames();
    assert PATH_D == [47, 100] && PATH_F == [47, 100, 47, 102];
  }

  /** "/d" is directory c. */
  ghost predicate HasD(tree: Tree, c: nat) {
    Closed(tree) && c != 0 && c in tree && EntryIs(tree, 0, D, c, FT_DIRECTORY)
  }

  /** A path with one name. */
  lemma VisitOne(tree: Tree, at: nat, parent: nat, name: Name)
    requires Closed(tree) && at in tree
    ensures var t := Visit(tree, at, parent, [name]);
            && t.visited == 1
            && if name !in NameMap(tree[at]) then t.outcome == Missing(at)
               else NameMap(tree[at])[name].Entry? &&
                    var e := NameMap(tree[at])[name];
                    t.outcome == if e.ftype == FT_DIRECTORY then Directory(e.ino, at) else Outcome.File(e.ino, at)
  {
    if name in NameMap(tree[at]) {
      LookupOk(tree, at, name);
      assert [name][1..] == [];
    }
  }

  /** What "/d" means, and "/d/f". */
  lemma MeansD(tree: Tree, c: nat)
    requires HasD(tree, c)
    ensures Target(tree, PATH_D) == Directory(c, 0) && Reached(tree, PATH_D) && Components(PATH_D) != []
            && LastLookedUp(tree, PATH_D) == D
    ensures !BadPath(tree, PATH_D) && !LeadsToRoot(tree, PATH_D)
  {
    ThePaths();
    VisitOne(tree, 0, 0, D);
  }

  lemma VisitF(tree: Tree, c: nat, e: nat)
    requires HasD(tree, c)
    ensures var t := Visit(tree, 0, 0, [D, F]);
            && t.visited == 2 && (t.outcome.Missing? ==> t.outcome == Missing(c))
            && (EntryIs(tree, c, F, e, FT_REGULAR) ==> t.outcome == Outcome.File(e, c))
  {
    LookupOk(tree, 0, D);
    assert [D, F][1..] == [F];
    VisitOne(tree, c, 0, F);
  }

  lemma MeansF(tree: Tree, c: nat, e: nat)
    requires HasD(tree, c)
    ensures Components(PATH_F) != [] && Reached(tree, PATH_F) && LastLookedUp(tree, PATH_F) == F
            && !BadPath(tree, PATH_F)
    ensures Target(tree, PATH_F).Missing? ==> Target(tree, PATH_F) == Missing(c)
    ensures EntryIs(tree, c, F, e, FT_REGULAR) ==> FileThere(tree, PATH_F) && Target(tree, PATH_F) == Outcome.File(e, c)
  {
    ThePaths();
    VisitF(tree, c, e);
  }

  /** "/d" is a directory, and "/d/f" the only file in it. */
  ghost predicate HasF(tree: Tree, c: nat, e: nat) {
    && HasD(tree, c) && EntryIs(tree, c, F, e, FT_REGULAR) && e != c
    && NameMap(tree[c]).Keys == {DOT, DOTDOT, F}
  }

  /** The state after mkdir("/d"), and creation and close of "/d/f". */
  ghost predicate Prepared(m: Mount, tree: Tree, depth: map<nat, nat>, c: nat, e: nat)
    reads m, m.part
  {
    Live(m, tree, depth) && HasF(tree, c, e) && Count(m.openInodes, e) == 0 && Room(m.table)
  }

  lemma DotNames(row: seq<Entry>, j: nat, a: nat)
    requires NewRow(row, j, a)
    ensures NameMap(row).Keys == {DOT, DOTDOT}
  {
    NameMapAt(row, 0, DOT);
    NameMapAt(row, 1, DOTDOT);
    forall name | name in NameMap(row) ensures name == DOT || name == DOTDOT {
      NameMapHas(row, name);
      var x: nat :| Named(row, x, name) && NameMap(row)[name] == row[x];
    }
  }

  lemma MadeD(tree: Tree, tree': Tree, c: nat)
    requires Closed(tree) && Closed(tree') && NowThere(tree, tree', PATH_D, c, FT_DIRECTORY) && c != 0 && c in tree'
             && c !in tree
    requires NewRow(tree'[c], c, Target(tree, PATH_D).parent)
    ensures HasD(tree', c) && NameMap(tree'[c]).Keys == {DOT, DOTDOT}
    ensures Entered(tree, tree', 0, Entry(D, c, FT_DIRECTORY))
  {
    ThePaths();
    VisitOne(tree, 0, 0, D);
    DotNames(tree'[c], c, 0);
  }

  lemma MadeF(tree: Tree, tree': Tree, c: nat, e: nat)
    requires HasD(tree, c) && Closed(tree') && NowThere(tree, tree', PATH_F, e, FT_REGULAR) && e != c
    requires NameMap(tree[c]).Keys == {DOT, DOTDOT}
    ensures HasF(tree', c, e) && tree'[0] == tree[0]
  {
    MeansF(tree, c, e);
  }

  /** One file less in the table leaves room. */
  lemma RoomAfter(table: FileTable, fd: nat)
    requires 3 <= fd < |table|
    ensures Room(table[fd := None])
  {
    assert table[fd := None][fd].None?;
  }

  /** mkdir("/d") */
  method PrepareD(m: Mount, ghost tree: Tree, ghost depth: map<nat, nat>, garbage: Byte)
    returns (ok: bool, c: nat, ghost tree': Tree, ghost depth': map<nat, nat>)
    requires Live(m, tree, depth)
    modifies m, m.part
    ensures ok ==> Live(m, tree', depth') && HasD(tree', c) && NameMap(tree'[c]).Keys == {DOT, DOTDOT}
    ensures ok ==> Entered(tree, tree', 0, Entry(D, c, FT_DIRECTORY)) && FileSystems.NumbersUsed(old(m.part.inodes), c)
    ensures ok ==> c !in old(m.part.inodes) && m.part.inodes.Keys == old(m.part.inodes.Keys) + {c}
  {
    ThePaths();
    InTree(m.part.disk, m.part.inodes, tree, 0);
    var s;
    s, c, tree', depth' := SysMkdir(m, tree, depth, PATH_D, garbage);
    ok := s.Done?;
    if ok {
      MadeD(tree, tree', c);
    }
  }

  /** sys_open with O_CREAT alone. */
  method CreateOne(m: Mount, ghost tree: Tree, ghost depth: map<nat, nat>, path: Name, garbage: Byte)
    returns (ok: bool, no: nat, fd: nat, ghost tree': Tree)
    requires Live(m, tree, depth) && 0 !in path
    modifies m, m.part
    ensures ok ==> Live(m, tree', depth) && NowThere(tree, tree', path, no, FT_REGULAR)
    ensures ok ==> NewFile(m.part.disk, old(m.part.inodes), m.part.inodes, old(m.openInodes), m.openInodes,
                           old(m.table), m.table, no, fd, 4)
  {
    var s;
    s, no, fd, tree' := SysCreate(m, tree, depth, path, 4, true, garbage);
    ok := s.Done?;
  }

  /** Creation of "/d/f". */
  method CreateF(m: Mount, ghost tree: Tree, ghost depth: map<nat, nat>, ghost c: nat, garbage: Byte)
    returns (ok: bool, e: nat, fd: nat, ghost tree': Tree)
    requires Live(m, tree, depth) && HasD(tree, c) && NameMap(tree[c]).Keys == {DOT, DOTDOT}
    modifies m, m.part
    ensures ok ==> Live(m, tree', depth) && HasF(tree', c, e) && tree'[0] == tree[0] && Count(m.openInodes, e) == 1
    ensures ok ==> 3 <= fd && IsOpen(m.table, fd) && m.table[fd].value.no == e
    ensures ok ==> e !in old(m.part.inodes) && m.part.inodes.Keys == old(m.part.inodes.Keys) + {e}
  {
    ThePaths();
    InTree(m.part.disk, m.part.inodes, tree, c);
    ghost var os, inodes := m.openInodes, m.part.inodes;
    ok, e, fd, tree' := CreateOne(m, tree, depth, PATH_F, garbage);
    if ok {
      MadeF(tree, tree', c, e);
      Mounts.NotThere(os, inodes, e);
    }
  }

  /** Creation and close of "/d/f". */
  method PrepareF(m: Mount, ghost tree: Tree, ghost depth: map<nat, nat>, ghost c: nat, garbage: Byte)
    returns (ok: bool, ghost e: nat, ghost tree': Tree)
    requires Live(m, tree, depth) && HasD(tree, c) && NameMap(tree[c]).Keys == {DOT, DOTDOT}
    modifies m, m.part
    ensures ok ==> Prepared(m, tree', depth, c, e) && tree'[0] == tree[0]
    ensures ok ==> e !in old(m.part.inodes) && m.part.inodes.Keys == old(m.part.inodes.Keys) + {e}
  {
    var no, fd;
    ok, no, fd, tree' := CreateF(m, tree, depth, c, garbage);
    e := no;
    if ok {
      CloseNew(m, tree', depth, e, fd);
    }
  }

  /** The file is closed, and no other descriptor has it. */
  method CloseNew(m: Mount, ghost tree: Tree, ghost depth: map<nat, nat>, ghost e: nat, fd: nat)
    requires Live(m, tree, depth) && 3 <= fd && IsOpen(m.table, fd) && m.table[fd].value.no == e
             && Count(m.openInodes, e) == 1
    modifies m
    ensures Live(m, tree, depth) && Count(m.openInodes, e) == 0 && Room(m.table)
    ensures forall i :: i != e ==> Count(m.openInodes, i) == Count(old(m.openInodes), i)
  {
    ghost var table := m.table;
    var s := SysClose(m, tree, depth, fd);
    RoomAfter(table, fd);
  }

  /** sys_open and sys_close of "/d/f" leave directory c open. */
  method OpenAndClose(m: Mount, ghost tree: Tree, ghost depth: map<nat, nat>, ghost c: nat, ghost e: nat, garbage: Byte)
    requires Prepared(m, tree, depth, c, e)
    modifies m
    ensures Live(m, tree, depth) && Count(m.openInodes, c) > 0 && Count(m.openInodes, e) == 0
  {
    ThePaths();
    MeansF(tree, c, e);
    var s, fd := SysOpen(m, tree, depth, PATH_F, 0, true, garbage);
    CloseNew(m, tree, depth, e, fd);
  }

  lemma OnlyDots(row: seq<Entry>)
    requires RowOk(row) && NameMap(row).Keys == {DOT, DOTDOT}
    ensures EmptyRow(row)
  {
    forall y | 2 <= y < |row| ensures row[y].Free? {
      assert !SameName(row, 0, y) && !SameName(row, 1, y);
      if row[y].Entry? {
        NameMapAt(row, y, row[y].name);
      }
    }
  }

  /** A file in directory c is no directory. */
  lemma FileNotDir(tree: Tree, depth: map<nat, nat>, used: set<nat>, c: nat, e: nat)
    requires TreeOk(tree, depth, used) && HasF(tree, c, e)
    ensures e !in tree
  {
    var y := SlotOf(tree, depth, used, c, F, e, FT_REGULAR);
    assert LinkOk(tree, used, c, y);
  }

  lemma UnlinkedF(tree: Tree, tree': Tree, c: nat, e: nat)
    requires HasF(tree, c, e) && Closed(tree') && NowGone(tree, tree', PATH_F, e, FT_REGULAR)
    ensures HasD(tree', c) && EmptyRow(tree'[c]) && tree'[0] == tree[0]
  {
    MeansF(tree, c, e);
    assert Left(tree, tree', c, Entry(F, e, FT_REGULAR));
    assert NameMap(tree'[c]).Keys == {DOT, DOTDOT};
    assert RowOk(tree'[c]);
    OnlyDots(tree'[c]);
  }

  /** unlink("/d/f") */
  method RemoveF(m: Mount, ghost tree: Tree, ghost depth: map<nat, nat>, ghost c: nat, ghost e: nat)
    returns (ghost tree': Tree)
    requires Live(m, tree, depth) && HasF(tree, c, e) && Count(m.openInodes, c) > 0 && Count(m.openInodes, e) == 0
    modifies m, m.part
    ensures Live(m, tree', depth) && HasD(tree', c) && EmptyRow(tree'[c]) && tree'[0] == tree[0]
            && Count(m.openInodes, c) > 0
    ensures m.part.inodes.Keys == old(m.part.inodes.Keys) - {e}
  {
    ThePaths();
    MeansF(tree, c, e);
    FileNotDir(tree, depth, m.part.inodes.Keys, c, e);
    assert Count(m.openInodes, e) == Held(m.table, e);
    var s, no;
    s, no, tree' := SysUnlink(m, tree, depth, PATH_F);
    UnlinkedF(tree, tree', c, e);
  }

  lemma DirSize(d: Disk, inodes: map<nat, Inode>, c: nat, row: seq<Entry>)
    requires ShowsAt(d, inodes, c, row) && EmptyRow(row)
    ensures inodes[c].size == 2 * SLOT && inodes[c].sectors[0] != 0
  {
    TwoListed(row);
  }

  lemma RemovedD(tree: Tree, tree': Tree, c: nat)
    requires HasD(tree, c) && Closed(tree') && NowGone(tree, tree', PATH_D, c, FT_DIRECTORY)
    ensures 0 in tree' && NameMap(tree'[0]) == NameMap(tree[0]) - {D}
  {
    MeansD(tree, c);
  }

  /** rmdir("/d") */
  method RemoveD(m: Mount, ghost tree: Tree, ghost depth: map<nat, nat>, c: nat)
    returns (s: Status, ghost n: Inode, ghost tree': Tree, ghost depth': map<nat, nat>)
    requires Live(m, tree, depth) && HasD(tree, c) && EmptyRow(tree[c]) && Count(m.openInodes, c) > 0
    modifies m, m.part
    ensures s == Lost(Stale) && LossShows(m, s.loss) && StaleIn(m.openInodes, n) && n.no == c && n.size == 2 * SLOT
    ensures |n.sectors| == 13 && n.sectors[0] != 0
    ensures Intact(m.part, tree', depth') && m.part.inodes.Keys == old(m.part.inodes.Keys) - {c}
    ensures 0 in tree' && NameMap(tree'[0]) == NameMap(tree[0]) - {D}
  {
    MeansD(tree, c);
    assert ShowsAt(m.part.disk, m.part.inodes, c, tree[c])
           && RecordedAt(m.part.disk, m.part.tableLba, m.part.inodes, c);
    DirSize(m.part.disk, m.part.inodes, c, tree[c]);
    n := m.part.inodes[c];
    var no;
    s, no, tree', depth' := SysRmdir(m, tree, depth, PATH_D);
    RemovedD(tree, tree', c);
  }

  /** mkdir("/d"), creation and close of "/d/f", open and close of "/d/f", unlink("/d/f"), rmdir("/d"): the object n of
      directory c is still in the list. */
  method LeaveStale(m: Mount, ghost tree: Tree, ghost depth: map<nat, nat>, garbage: Byte)
    returns (ok: bool, s: Status, c: nat, ghost n: Inode, ghost tree': Tree, ghost depth': map<nat, nat>)
    requires Live(m, tree, depth)
    modifies m, m.part
    ensures ok ==> s == Lost(Stale) && StaleIn(m.openInodes, n) && n.no == c
    ensures ok ==> n.size == 2 * SLOT && |n.sectors| == 13 && n.sectors[0] != 0
    ensures ok ==> Intact(m.part, tree', depth') && m.part.inodes.Keys == old(m.part.inodes.Keys)
    ensures ok ==> c !in old(m.part.inodes) && FileSystems.NumbersUsed(old(m.part.inodes), c)
    ensures ok ==> NameMap(tree'[0]).Keys == NameMap(tree[0]).Keys
  {
    s, n := Stopped, Releases.NewInode(0);
    ok, c, tree', depth' := PrepareD(m, tree, depth, garbage);
    if !ok {
      return;
    }
    ghost var tree1, e := tree', 0;
    ok, e, tree' := PrepareF(m, tree1, depth', c, garbage);
    if !ok {
      return;
    }
    OpenAndClose(m, tree', depth', c, e, garbage);
    tree' := RemoveF(m, tree', depth', c, e);
    s, n, tree', depth' := RemoveD(m, tree', depth', c);
    SameNames(NameMap(tree[0]), NameMap(tree1[0]), NameMap(tree'[0]), c);
  }

  lemma SameNames(m: map<Name, Entry>, m1: map<Name, Entry>, m2: map<Name, Entry>, c: nat)
    requires D !in m && m1 == m[D := Entry(D, c, FT_DIRECTORY)] && m2 == m1 - {D}
    ensures m2.Keys == m.Keys
  {
  }

  /** If there was room for the directory and the file, none of these calls fails, and the invariant is lost.
      file_create of "/g" in the root then gets the number of the directory, and if that file is closed and opened
      again, inode_open gives it the old object: not the empty file, but 48 bytes in a block that it does not own. */
  method StaleRun(m: Mount, ghost tree: Tree, ghost depth: map<nat, nat>, garbage: Byte)
    returns (ok: bool, s: Status, made: Status, no: nat)
    requires Live(m, tree, depth) && G !in NameMap(tree[0])
    modifies m, m.part
    ensures ok ==> s == Lost(Stale) && !Fresh(m.openInodes, m.part.inodes)
    ensures ok && made.Done? ==> no in m.part.inodes && FileSystems.EmptyFile(m.part.disk, m.part.inodes[no], no)
    ensures ok && made.Done? ==>
              var n := FoundIn(m.part.disk, m.part.tableLba, m.part.inodes, m.openInodes, no);
              && n.size == 2 * SLOT && |n.sectors| == 13 && n.sectors[0] != 0
              && m.part.inodes[no].size == 0 && m.part.inodes[no].sectors[0] == 0
  {
    made, no := Stopped, 0;
    var c;
    ghost var n, tree', depth';
    ok, s, c, n, tree', depth' := LeaveStale(m, tree, depth, garbage);
    if ok {
      made, no := Reuse(m, tree', depth', c, n, m.part.inodes.Keys);
    }
  }

  /** file_create of "/g" in the root takes the number of the directory. */
  method Reuse(m: Mount, ghost tree: Tree, ghost depth: map<nat, nat>, c: nat, ghost n: Inode, ghost keys: set<nat>)
    returns (made: Status, no: nat)
    requires Intact(m.part, tree, depth) && G !in NameMap(tree[0]) && StaleIn(m.openInodes, n) && n.no == c
    requires m.part.inodes.Keys == keys && c !in keys && forall k: nat :: k < c ==> k in keys
    modifies m.part
    ensures made.Done? ==> no == c && no in m.part.inodes && FileSystems.EmptyFile(m.part.disk, m.part.inodes[no], no)
    ensures made.Done? ==> FoundIn(m.part.disk, m.part.tableLba, m.part.inodes, m.openInodes, no) == n
    ensures !Fresh(m.openInodes, m.part.inodes)
  {
    ghost var tree';
    made, no, tree' := Worlds.Create(m.part, tree, depth, 0, G);
    if made.Done? {
      StaleOpens(m.part.disk, m.part.tableLba, m.part.inodes, m.openInodes, no);
    }
    StaleNotFresh(m.openInodes, m.part.inodes, n);
  }

  lemma StaleNotFresh(os: OpenList, inodes: map<nat, Inode>, n: Inode)
    requires StaleIn(os, n)
    ensures !Fresh(os, inodes)
  {
    assert !Current(os[First(os, n.no)], inodes);
  }
}
