/** fs/inode.c: the list of open inodes. */
module OpenInodes {
  import opened Disks
  import opened InodeTable

  /** An inode object in memory, with its i_open_cnts.  InUse: the object of an inode in use, which has the fields of
      that inode.  Released: inode_release does not take objects out of the list, so this one has kept the fields that
      its inode had then. */
  datatype OpenInode = InUse(no: nat, count: nat) | Released(inode: Inode, count: nat) {
    function Number(): nat {
      if InUse? then no else inode.no
    }

    function With(c: nat): OpenInode {
      match this
      case InUse(no, _) => InUse(no, c)
      case Released(inode, _) => Released(inode, c)
    }
  }

  /** From the head to the tail. */
  type OpenList = seq<OpenInode>

  /** The position of the first object with the number, or the end of the list. */
  function First(os: OpenList, no: nat): (k: nat)
    ensures k <= |os| && (k < |os| ==> os[k].Number() == no) && forall j :: 0 <= j < k ==> os[j].Number() != no
  {
    if os == [] || os[0].Number() == no then 0 else 1 + First(os[1..], no)
  }

  /** The list after inode_open. */
  function AfterOpen(os: OpenList, no: nat): OpenList {
    var k := First(os, no);
    if k < |os| then os[k := os[k].With(os[k].count + 1)] else [InUse(no, 1)] + os
  }

  /** The list after inode_close. */
  function AfterClose(os: OpenList, no: nat): OpenList {
    var k := First(os, no);
    if k == |os| || os[k].count == 0 then os
    else if os[k].count == 1 then os[..k] + os[k + 1..]
    else os[k := os[k].With(os[k].count - 1)]
  }

  /** The fields that inode_open finds. */
  function FoundIn(d: Disk, t: nat, inodes: map<nat, Inode>, os: OpenList, no: nat): Inode
    requires no in inodes
  {
    var k := First(os, no);
    if k == |os| then Parse(Record(d, t, no)) else if os[k].InUse? then inodes[no] else os[k].inode
  }

  method FindOpen(os: OpenList, no: nat) returns (k: nat)
    ensures k == First(os, no)
  {
    k := 0;
    while k < |os| && os[k].Number() != no
      invariant 0 <= k <= |os| && forall j :: 0 <= j < k ==> os[j].Number() != no
    {
      k := k + 1;
    }
  }

  /** inode_open */
  method InodeOpen(d: Disk, t: nat, inodes: map<nat, Inode>, os: OpenList, no: nat)
    returns (inode: Inode, os': OpenList)
    requires Recorded(d, t, inodes) && no in inodes
    ensures inode == FoundIn(d, t, inodes, os, no) && os' == AfterOpen(os, no)
    ensures Fresh(os, inodes) ==> SameFields(inode, inodes[no]) && Fresh(os', inodes) && OnceMore(os, os', no)
  {
    assert RecordedAt(d, t, inodes, no);
    if Fresh(os, inodes) {
      FreshOpens(d, t, inodes, os, no);
      OpenKeeps(os, inodes, no);
    }
    var k := FindOpen(os, no);
    if k < |os| {
      return if os[k].InUse? then inodes[no] else os[k].inode, os[k := os[k].With(os[k].count + 1)];
    }
    inode := InodeLoad(d, t, no);
    os' := [InUse(no, 1)] + os;
  }

  /** inode_close of the object with the number. */
  method InodeClose(os: OpenList, no: nat) returns (os': OpenList)
    requires Count(os, no) > 0
    ensures os' == AfterClose(os, no)
  {
    var k := FindOpen(os, no);
    var left := os[k].count - 1;
    os' := if left == 0 then os[..k] + os[k + 1..] else os[k := os[k].With(left)];
  }

  // ---------------------------------------------------------------- the invariant

  /** Two objects have the same number. */
  ghost predicate TwoOf(os: OpenList, j: nat, k: nat) {
    j < k < |os| && os[j].Number() == os[k].Number()
  }

  ghost predicate Current(o: OpenInode, inodes: map<nat, Inode>) {
    o.InUse? && o.no in inodes && o.count > 0
  }

  /** Every object is that of an inode in use, and no inode has two. */
  ghost predicate Fresh(os: OpenList, inodes: map<nat, Inode>) {
    && (forall k :: 0 <= k < |os| ==> Current(os[k], inodes))
    && (forall j, k :: !TwoOf(os, j, k))
  }

  /** Open count and write_deny apart. */
  predicate SameFields(n: Inode, m: Inode) {
    n.no == m.no && n.size == m.size && n.sectors == m.sectors
  }

  /** Then inode_open gives the inode in use, whether it is in the list or read from the disk. */
  lemma FreshOpens(d: Disk, t: nat, inodes: map<nat, Inode>, os: OpenList, no: nat)
    requires Recorded(d, t, inodes) && Fresh(os, inodes) && no in inodes
    ensures SameFields(FoundIn(d, t, inodes, os, no), inodes[no])
  {
    assert RecordedAt(d, t, inodes, no);
    if First(os, no) == |os| {
      ParsePure(inodes[no]);
    } else {
      assert Current(os[First(os, no)], inodes);
    }
  }

  /** A released object comes between the two: inode_open gives its fields for the inode that has the number now. */
  lemma StaleOpens(d: Disk, t: nat, inodes: map<nat, Inode>, os: OpenList, no: nat)
    requires no in inodes && First(os, no) < |os| && os[First(os, no)].Released?
    ensures FoundIn(d, t, inodes, os, no) == os[First(os, no)].inode
  {
  }

  // ---------------------------------------------------------------- how often an inode is open

  /** The i_open_cnts of the object with the number, or 0. */
  function Count(os: OpenList, no: nat): nat {
    var k := First(os, no);
    if k < |os| then os[k].count else 0
  }

  /** The list os' has no opened once more. */
  ghost predicate OnceMore(os: OpenList, os': OpenList, no: nat) {
    forall k :: Count(os', k) == Count(os, k) + if k == no then 1 else 0
  }

  ghost predicate SameOpen(os: OpenList, os': OpenList) {
    forall k :: Count(os', k) == Count(os, k)
  }

  lemma FirstIs(os: OpenList, no: nat, k: nat)
    requires k < |os| && os[k].Number() == no && forall j :: 0 <= j < k ==> os[j].Number() != no
    ensures First(os, no) == k
  {
  }

  lemma FirstNone(os: OpenList, no: nat)
    requires forall j :: 0 <= j < |os| ==> os[j].Number() != no
    ensures First(os, no) == |os|
  {
  }

  /** In a fresh list an object is found by its number. */
  lemma FreshAt(os: OpenList, inodes: map<nat, Inode>, k: nat)
    requires Fresh(os, inodes) && k < |os|
    ensures First(os, os[k].Number()) == k && Count(os, os[k].Number()) == os[k].count > 0
  {
    assert Current(os[k], inodes);
    var f := First(os, os[k].Number());
    assert !TwoOf(os, f, k);
  }

  lemma OpenKeeps(os: OpenList, inodes: map<nat, Inode>, no: nat)
    requires Fresh(os, inodes) && no in inodes
    ensures Fresh(AfterOpen(os, no), inodes) && OnceMore(os, AfterOpen(os, no), no)
  {
    var k, os' := First(os, no), AfterOpen(os, no);
    if k < |os| {
      assert Current(os[k], inodes);
      UpdatedFresh(os, inodes, k, os[k].count + 1);
    } else {
      PushedFresh(os, inodes, no);
    }
  }

  /** The count of one object was changed. */
  lemma UpdatedFresh(os: OpenList, inodes: map<nat, Inode>, k: nat, c: nat)
    requires Fresh(os, inodes) && k < |os| && c > 0
    ensures var os' := os[k := os[k].With(c)];
            Fresh(os', inodes) && forall j :: Count(os', j) == if j == os[k].Number() then c else Count(os, j)
  {
    var os' := os[k := os[k].With(c)];
    assert Current(os[k], inodes);
    forall i: nat, j: nat ensures !TwoOf(os', i, j) {
      assert !TwoOf(os, i, j);
    }
    forall j ensures Count(os', j) == if j == os[k].Number() then c else Count(os, j) {
      SameFirst(os, os', j);
      FreshAt(os', inodes, k);
      FreshAt(os, inodes, k);
    }
  }

  lemma SameFirst(os: OpenList, os': OpenList, no: nat)
    requires |os'| == |os| && forall k :: 0 <= k < |os| ==> os'[k].Number() == os[k].Number()
    ensures First(os', no) == First(os, no)
  {
    var k := First(os, no);
    if k < |os| {
      FirstIs(os', no, k);
    } else {
      FirstNone(os', no);
    }
  }

  lemma PushedFresh(os: OpenList, inodes: map<nat, Inode>, no: nat)
    requires Fresh(os, inodes) && no in inodes && First(os, no) == |os|
    ensures Fresh([InUse(no, 1)] + os, inodes) && OnceMore(os, [InUse(no, 1)] + os, no)
  {
    var os' := [InUse(no, 1)] + os;
    forall k: nat | k < |os'| ensures Current(os'[k], inodes) {
      if k > 0 {
        assert Current(os[k - 1], inodes);
      }
    }
    forall i: nat, j: nat ensures !TwoOf(os', i, j) {
      if 0 < i < j < |os'| {
        assert !TwoOf(os, i - 1, j - 1);
      } else if 0 == i < j < |os'| {
        assert os'[j] == os[j - 1];
      }
    }
    forall j: nat ensures Count(os', j) == Count(os, j) + if j == no then 1 else 0 {
      PushedCount(os, no, j);
    }
  }

  lemma PushedCount(os: OpenList, no: nat, j: nat)
    requires First(os, no) == |os|
    ensures Count([InUse(no, 1)] + os, j) == Count(os, j) + if j == no then 1 else 0
  {
    var os', f := [InUse(no, 1)] + os, First(os, j);
    if j == no {
      FirstIs(os', j, 0);
    } else if f < |os| {
      assert os'[f + 1] == os[f];
      forall i | 0 <= i < f + 1 ensures os'[i].Number() != j {
        assert i > 0 ==> os'[i] == os[i - 1];
      }
      FirstIs(os', j, f + 1);
    } else {
      forall i | 0 <= i < |os'| ensures os'[i].Number() != j {
        assert i > 0 ==> os'[i] == os[i - 1];
      }
      FirstNone(os', j);
    }
  }

  lemma CloseKeeps(os: OpenList, inodes: map<nat, Inode>, no: nat)
    requires Fresh(os, inodes) && Count(os, no) > 0
    ensures Fresh(AfterClose(os, no), inodes) && OnceMore(AfterClose(os, no), os, no)
  {
    var k := First(os, no);
    assert Current(os[k], inodes);
    if os[k].count == 1 {
      RemovedFresh(os, inodes, k);
    } else {
      UpdatedFresh(os, inodes, k, os[k].count - 1);
    }
  }

  lemma RemovedFresh(os: OpenList, inodes: map<nat, Inode>, k: nat)
    requires Fresh(os, inodes) && k < |os|
    ensures var os' := os[..k] + os[k + 1..];
            Fresh(os', inodes) && forall j :: Count(os', j) == if j == os[k].Number() then 0 else Count(os, j)
  {
    var os' := os[..k] + os[k + 1..];
    forall i: nat | i < |os'| ensures Current(os'[i], inodes) {
      assert Current(os[if i < k then i else i + 1], inodes);
    }
    forall i: nat, j: nat ensures !TwoOf(os', i, j) {
      assert !TwoOf(os, if i < k then i else i + 1, if j < k then j else j + 1);
    }
    forall j ensures Count(os', j) == if j == os[k].Number() then 0 else Count(os, j) {
      RemovedCount(os, inodes, k, j);
    }
  }

  lemma RemovedCount(os: OpenList, inodes: map<nat, Inode>, k: nat, no: nat)
    requires Fresh(os, inodes) && k < |os| && Fresh(os[..k] + os[k + 1..], inodes)
    ensures Count(os[..k] + os[k + 1..], no) == if no == os[k].Number() then 0 else Count(os, no)
  {
    var os' := os[..k] + os[k + 1..];
    var f := First(os, no);
    if no == os[k].Number() || f == |os| {
      forall j | 0 <= j < |os'| ensures os'[j].Number() != no {
        var i := if j < k then j else j + 1;
        assert os'[j] == os[i] && !TwoOf(os, i, k) && !TwoOf(os, k, i);
      }
      FirstNone(os', no);
    } else {
      var g := if f < k then f else f - 1;
      assert os'[g] == os[f];
      FreshAt(os', inodes, g);
    }
  }

  /** inode_close undoes inode_open, to the order of the list. */
  lemma OpenThenClose(os: OpenList, no: nat)
    requires forall k :: 0 <= k < |os| ==> os[k].count > 0
    ensures Count(AfterOpen(os, no), no) > 0 && AfterClose(AfterOpen(os, no), no) == os
  {
    var k, os' := First(os, no), AfterOpen(os, no);
    if k < |os| {
      SameFirst(os, os', no);
      assert os'[k := os'[k].With(os[k].count)] == os;
    } else {
      assert os'[1..] == os && os'[..0] + os'[1..] == os;
    }
  }

  /** inode_open to look at an inode, and inode_close. */
  method InodePeek(d: Disk, t: nat, inodes: map<nat, Inode>, os: OpenList, no: nat)
    returns (inode: Inode, os': OpenList)
    requires Recorded(d, t, inodes) && Fresh(os, inodes) && no in inodes
    ensures SameFields(inode, inodes[no]) && os' == os
  {
    assert forall k :: 0 <= k < |os| ==> Current(os[k], inodes);
    OpenThenClose(os, no);
    inode, os' := InodeOpen(d, t, inodes, os, no);
    os' := InodeClose(os', no);
  }

  // ---------------------------------------------------------------- inode_release

  /** The inode is released: its object, if it is open, is left in the list with the fields it has. */
  function AfterRelease(os: OpenList, no: nat, inode: Inode): (os': OpenList)
    ensures |os'| == |os|
    ensures forall k :: 0 <= k < |os| ==> os'[k] == Relabel(os[k], no, inode)
  {
    seq(|os|, k requires 0 <= k < |os| => Relabel(os[k], no, inode))
  }

  function Relabel(o: OpenInode, no: nat, inode: Inode): OpenInode {
    if o.InUse? && o.no == no then Released(inode, o.count) else o
  }

  /** So the list is fresh after that if and only if the inode was not open. */
  lemma ReleaseKeepsIff(os: OpenList, inodes: map<nat, Inode>, no: nat, inode: Inode)
    requires Fresh(os, inodes) && no in inodes && inode.no == no
    ensures Fresh(AfterRelease(os, no, inode), inodes - {no}) <==> Count(os, no) == 0
    ensures Count(os, no) == 0 ==> AfterRelease(os, no, inode) == os
    ensures Count(os, no) > 0 ==>
              var os' := AfterRelease(os, no, inode);
              First(os', no) < |os'| && os'[First(os', no)] == Released(inode, Count(os, no))
  {
    var os' := AfterRelease(os, no, inode);
    SameFirst(os, os', no);
    var k := First(os, no);
    if k < |os| {
      assert Current(os[k], inodes);
      assert !Current(os'[k], inodes - {no});
    } else {
      assert os' == os;
      forall j | 0 <= j < |os| ensures Current(os[j], inodes - {no}) {
        assert Current(os[j], inodes);
      }
    }
  }

  /** To close an object it does not matter whether its inode was released. */
  lemma ReleaseCommutes(os: OpenList, no: nat, inode: Inode, k: nat)
    requires inode.no == no
    ensures AfterClose(AfterRelease(os, no, inode), k) == AfterRelease(AfterClose(os, k), no, inode)
    ensures Count(AfterRelease(os, no, inode), k) == Count(os, k)
  {
    var os', f := AfterRelease(os, no, inode), First(os, k);
    SameFirst(os, os', k);
    if f < |os| && os[f].count == 1 {
      ReleaseOfCut(os, no, inode, f);
    } else if f < |os| && os[f].count > 1 {
      ReleaseOfUpdate(os, no, inode, f, os[f].count - 1);
    }
  }

  lemma ReleaseOfCut(os: OpenList, no: nat, inode: Inode, f: nat)
    requires f < |os|
    ensures var os' := AfterRelease(os, no, inode);
            AfterRelease(os[..f] + os[f + 1..], no, inode) == os'[..f] + os'[f + 1..]
  {
    var os', cut := AfterRelease(os, no, inode), os[..f] + os[f + 1..];
    forall i | 0 <= i < |cut| ensures AfterRelease(cut, no, inode)[i] == (os'[..f] + os'[f + 1..])[i] {
      assert cut[i] == os[if i < f then i else i + 1];
    }
  }

  lemma ReleaseOfUpdate(os: OpenList, no: nat, inode: Inode, f: nat, c: nat)
    requires f < |os|
    ensures var os' := AfterRelease(os, no, inode);
            AfterRelease(os[f := os[f].With(c)], no, inode) == os'[f := os'[f].With(c)]
  {
    var os', new' := AfterRelease(os, no, inode), os[f := os[f].With(c)];
    forall i | 0 <= i < |os| ensures AfterRelease(new', no, inode)[i] == os'[f := os'[f].With(c)][i] {
      assert new'[i] == if i == f then os[f].With(c) else os[i];
    }
  }

  /** inode_release, seen from the list: the inode is opened, its blocks, its number and its record are given back,
      and it is closed. */
  method ReleaseOpened(d: Disk, t: nat, inodes: map<nat, Inode>, os: OpenList, no: nat) returns (os': OpenList)
    requires Recorded(d, t, inodes) && Fresh(os, inodes) && no in inodes
    ensures os' == AfterRelease(os, no, inodes[no])
  {
    assert RecordedAt(d, t, inodes, no);
    assert forall k :: 0 <= k < |os| ==> Current(os[k], inodes);
    OpenThenClose(os, no);
    var inode;
    inode, os' := InodeOpen(d, t, inodes, os, no);
    ReleaseCommutes(os', no, inodes[no], no);
    os' := AfterRelease(os', no, inodes[no]);
    os' := InodeClose(os', no);
  }

  /** A list stays fresh while the open inodes are in use. */
  lemma FreshStill(os: OpenList, inodes: map<nat, Inode>, inodes': map<nat, Inode>)
    requires Fresh(os, inodes) && forall k :: Count(os, k) > 0 && k in inodes ==> k in inodes'
    ensures Fresh(os, inodes')
  {
    forall k: nat | k < |os| ensures Current(os[k], inodes') {
      assert Current(os[k], inodes);
      FreshAt(os, inodes, k);
    }
  }

  // ---------------------------------------------------------------- fs/dir.c: dir_open and dir_close

  /** struct dir*: the root directory, which is opened once and for all, or one that dir_open made. */
  datatype Dir = RootDir | Heap(no: nat) {
    function Number(): nat {
      if RootDir? then 0 else no
    }
  }

  /** In os the same inodes are open as in os0, and the one of dir once more. */
  ghost predicate Holds(os0: OpenList, os: OpenList, dir: Dir) {
    forall k :: Count(os, k) == Count(os0, k) + if dir == Heap(k) then 1 else 0
  }

  method DirClose(os: OpenList, dir: Dir, ghost inodes: map<nat, Inode>, ghost os0: OpenList) returns (os': OpenList)
    requires Fresh(os, inodes) && Holds(os0, os, dir)
    ensures Fresh(os', inodes) && SameOpen(os0, os')
  {
    if dir.RootDir? {
      return os;
    }
    CloseKeeps(os, inodes, dir.no);
    os' := InodeClose(os, dir.no);
  }

  method DirOpen(d: Disk, t: nat, inodes: map<nat, Inode>, os: OpenList, no: nat)
    returns (dir: Dir, inode: Inode, os': OpenList)
    requires Recorded(d, t, inodes) && Fresh(os, inodes) && no in inodes
    ensures dir == Heap(no) && SameFields(inode, inodes[no]) && Fresh(os', inodes) && Holds(os, os', dir)
  {
    inode, os' := InodeOpen(d, t, inodes, os, no);
    dir := Heap(no);
  }

  /** dir is closed, and directory no is opened in its place. */
  method Exchange(d: Disk, t: nat, inodes: map<nat, Inode>, os: OpenList, dir: Dir, no: nat, ghost os0: OpenList)
    returns (dir': Dir, os': OpenList)
    requires Recorded(d, t, inodes) && Fresh(os, inodes) && Holds(os0, os, dir) && no in inodes
    ensures dir' == Heap(no) && Fresh(os', inodes) && Holds(os0, os', dir')
  {
    var os1 := DirClose(os, dir, inodes, os0);
    var inode;
    dir', inode, os' := DirOpen(d, t, inodes, os1, no);
  }
}
