/** fs/inode.c: the on-disk inode table, whose 76-byte records straddle sectors. */
module InodeTable {
  import opened Disks

  const INODE_SIZE := 76          // sizeof(struct inode)
  const MAX_FILES_PER_PART := 4096
  const TABLE_SECTS := (INODE_SIZE * MAX_FILES_PER_PART + SECTOR_SIZE - 1) / SECTOR_SIZE

  /** struct inode without its list links. */
  datatype Inode = Inode(no: nat, size: nat, opens: nat, writeDeny: bool, sectors: seq<nat>) {
    /** Every persistent field fits its 32 bits. */
    predicate Fits() {
      no < WORDS && size < WORDS && |sectors| == 13 && forall k :: 0 <= k < 13 ==> sectors[k] < WORDS
    }
  }

  datatype Position = Position(twoSec: bool, sec: nat, off: nat)

  /** inode_locate, relative to the first sector of the table. */
  function Locate(no: nat): (p: Position)
    ensures p.off < SECTOR_SIZE && p.sec * SECTOR_SIZE + p.off == no * INODE_SIZE
    ensures p.twoSec <==> p.off + INODE_SIZE > SECTOR_SIZE
  {
    var off := no * INODE_SIZE % SECTOR_SIZE;
    Position(SECTOR_SIZE - off < INODE_SIZE, no * INODE_SIZE / SECTOR_SIZE, off)
  }

  /** Every record lies inside the 608 sectors; it needs a second sector exactly when two_sec says so; and
      two records share no byte. */
  lemma RecordsFit(i: nat, j: nat)
    requires i < MAX_FILES_PER_PART && j < i
    ensures var p := Locate(i);
            && TABLE_SECTS == 608
            && p.sec + (if p.twoSec then 2 else 1) <= TABLE_SECTS
            && (p.twoSec <==> (i * INODE_SIZE + INODE_SIZE - 1) / SECTOR_SIZE != i * INODE_SIZE / SECTOR_SIZE)
    ensures j * INODE_SIZE + INODE_SIZE <= i * INODE_SIZE
  {
  }

  // ---------------------------------------------------------------- the table as bytes

  /** Byte k of the table that starts at sector t. */
  function ByteAt(d: Disk, t: nat, k: nat): Byte {
    ReadSector(d, t + k / SECTOR_SIZE)[k % SECTOR_SIZE]
  }

  function Record(d: Disk, t: nat, no: nat): (r: seq<Byte>)
    ensures |r| == INODE_SIZE
  {
    seq<Byte>(INODE_SIZE, j requires 0 <= j => ByteAt(d, t, no * INODE_SIZE + j))
  }

  /** The copy that inode_sync writes: open count, write lock and list links are zero. */
  function Pure(inode: Inode): (r: seq<Byte>)
    requires |inode.sectors| == 13
    ensures |r| == INODE_SIZE
  {
    Encode([inode.no, inode.size, 0, 0] + inode.sectors + [0, 0])
  }

  /** The inode that inode_open makes of a record. */
  function Parse(r: seq<Byte>): (inode: Inode)
    requires |r| == INODE_SIZE
    ensures inode.Fits() && inode.opens == 1
  {
    WordsFit(r);
    var ws := Words(r);
    Inode(ws[0], ws[1], 1, ws[3] != 0, ws[4..17])
  }

  /** What survives of an inode on the disk. */
  function Reopened(inode: Inode): Inode {
    inode.(opens := 1, writeDeny := false)
  }

  lemma ParsePure(inode: Inode)
    requires inode.Fits()
    ensures Parse(Pure(inode)) == Reopened(inode)
  {
    var ws := [inode.no, inode.size, 0, 0] + inode.sectors + [0, 0];
    WordsOfEncode(ws);
    assert ws[4..17] == inode.sectors;
  }

  /** Record `no` becomes `bytes`; every other record, and every sector outside the table, stays. */
  ghost predicate OnlyRecord(d: Disk, d': Disk, t: nat, no: nat, bytes: seq<Byte>) {
    && (forall j: nat {:trigger Record(d', t, j)} :: Record(d', t, j) == if j == no then bytes else Record(d, t, j))
    && (forall lba: nat :: !(t <= lba < t + TABLE_SECTS) ==> ReadSector(d', lba) == ReadSector(d, lba))
  }

  /** The same, byte by byte. */
  ghost predicate OnlyByte(d: Disk, d': Disk, t: nat, no: nat, bytes: seq<Byte>, k: nat)
    requires |bytes| == INODE_SIZE
  {
    ByteAt(d', t, k) ==
    if no * INODE_SIZE <= k < no * INODE_SIZE + INODE_SIZE then bytes[k - no * INODE_SIZE] else ByteAt(d, t, k)
  }

  lemma BytesGiveRecord(d: Disk, d': Disk, t: nat, no: nat, bytes: seq<Byte>, j: nat)
    requires |bytes| == INODE_SIZE && forall k: nat :: OnlyByte(d, d', t, no, bytes, k)
    ensures Record(d', t, j) == if j == no then bytes else Record(d, t, j)
  {
    forall x | 0 <= x < INODE_SIZE ensures Record(d', t, j)[x] == if j == no then bytes[x] else Record(d, t, j)[x] {
      assert OnlyByte(d, d', t, no, bytes, j * INODE_SIZE + x);
    }
  }

  /** Byte x of sector q is in the record at byte `off` of sector `sec`, if at all, in that sector or the next. */
  lemma InRecord(n: nat, sec: nat, off: nat, q: nat, x: nat)
    requires n == SECTOR_SIZE * sec + off && off < SECTOR_SIZE && x < SECTOR_SIZE
    ensures q == sec ==> (n <= SECTOR_SIZE * q + x < n + INODE_SIZE <==> off <= x < off + INODE_SIZE)
    ensures q == sec + 1 ==> (n <= SECTOR_SIZE * q + x < n + INODE_SIZE <==> SECTOR_SIZE + x < off + INODE_SIZE)
    ensures q != sec && q != sec + 1 ==> !(n <= SECTOR_SIZE * q + x < n + INODE_SIZE)
  {
  }

  /** The record is in one sector, which was read, changed and written. */
  ghost predicate OneWritten(d: Disk, d': Disk, t: nat, no: nat, bytes: seq<Byte>)
    requires |bytes| == INODE_SIZE
  {
    var p := Locate(no);
    && !p.twoSec && ReadSector(d', t + p.sec) == Splice(ReadSector(d, t + p.sec), p.off, bytes)
    && forall l: nat :: l != t + p.sec ==> ReadSector(d', l) == ReadSector(d, l)
  }

  lemma OneSector(d: Disk, d': Disk, t: nat, no: nat, bytes: seq<Byte>, k: nat)
    requires |bytes| == INODE_SIZE && OneWritten(d, d', t, no, bytes)
    ensures OnlyByte(d, d', t, no, bytes, k)
  {
    var p, q, x := Locate(no), k / SECTOR_SIZE, k % SECTOR_SIZE;
    InRecord(no * INODE_SIZE, p.sec, p.off, q, x);
    assert ByteAt(d, t, k) == ReadSector(d, t + q)[x] && ByteAt(d', t, k) == ReadSector(d', t + q)[x];
    if q != p.sec {
      assert ReadSector(d', t + q) == ReadSector(d, t + q);
    }
  }

  /** The record is in two sectors. */
  ghost predicate TwoWritten(d: Disk, d': Disk, t: nat, no: nat, bytes: seq<Byte>)
    requires |bytes| == INODE_SIZE
  {
    var p := Locate(no);
    && p.twoSec && Pair(d', t + p.sec) == Splice(Pair(d, t + p.sec), p.off, bytes)
    && forall l: nat :: l != t + p.sec && l != t + p.sec + 1 ==> ReadSector(d', l) == ReadSector(d, l)
  }

  lemma TwoSectors(d: Disk, d': Disk, t: nat, no: nat, bytes: seq<Byte>, k: nat)
    requires |bytes| == INODE_SIZE && TwoWritten(d, d', t, no, bytes)
    ensures OnlyByte(d, d', t, no, bytes, k)
  {
    var p, q, x := Locate(no), k / SECTOR_SIZE, k % SECTOR_SIZE;
    InRecord(no * INODE_SIZE, p.sec, p.off, q, x);
    assert ByteAt(d, t, k) == ReadSector(d, t + q)[x] && ByteAt(d', t, k) == ReadSector(d', t + q)[x];
    if q == p.sec {
      PairWritten(d, d', t + p.sec, p.off, bytes, x);
    } else if q == p.sec + 1 {
      PairWritten(d, d', t + p.sec, p.off, bytes, SECTOR_SIZE + x);
    } else {
      assert ReadSector(d', t + q) == ReadSector(d, t + q);
    }
  }

  lemma PairWritten(d: Disk, d': Disk, lba: nat, off: nat, bytes: seq<Byte>, x: nat)
    requires |bytes| == INODE_SIZE && off < SECTOR_SIZE && x < 2 * SECTOR_SIZE
             && Pair(d', lba) == Splice(Pair(d, lba), off, bytes)
    ensures PairAt(d', lba, x) == if off <= x < off + INODE_SIZE then bytes[x - off] else PairAt(d, lba, x)
  {
    PairByte(d, lba, x);
    PairByte(d', lba, x);
  }

  function PairAt(d: Disk, lba: nat, x: nat): Byte
    requires x < 2 * SECTOR_SIZE
  {
    if x < SECTOR_SIZE then ReadSector(d, lba)[x] else ReadSector(d, lba + 1)[x - SECTOR_SIZE]
  }

  function Pair(d: Disk, lba: nat): (r: seq<Byte>)
    ensures |r| == 2 * SECTOR_SIZE
  {
    ReadSector(d, lba) + ReadSector(d, lba + 1)
  }

  lemma PairByte(d: Disk, lba: nat, x: nat)
    requires x < 2 * SECTOR_SIZE
    ensures Pair(d, lba)[x] == PairAt(d, lba, x)
  {
  }

  lemma Rewritten(d: Disk, d': Disk, t: nat, no: nat, bytes: seq<Byte>)
    requires no < MAX_FILES_PER_PART && |bytes| == INODE_SIZE
             && (OneWritten(d, d', t, no, bytes) || TwoWritten(d, d', t, no, bytes))
    ensures OnlyRecord(d, d', t, no, bytes)
  {
    forall k: nat ensures OnlyByte(d, d', t, no, bytes, k) {
      if Locate(no).twoSec {
        TwoSectors(d, d', t, no, bytes, k);
      } else {
        OneSector(d, d', t, no, bytes, k);
      }
    }
    forall j: nat ensures Record(d', t, j) == if j == no then bytes else Record(d, t, j) {
      BytesGiveRecord(d, d', t, no, bytes, j);
    }
    InTable(no);
  }

  lemma InTable(no: nat)
    requires no < MAX_FILES_PER_PART
    ensures Locate(no).sec + (if Locate(no).twoSec then 2 else 1) <= TABLE_SECTS
  {
    if no > 0 {
      RecordsFit(no, 0);
    }
  }

  /** ide_write of two sectors */
  method WritePair(d: Disk, lba: nat, buf: seq<Byte>) returns (d': Disk)
    requires |buf| == 2 * SECTOR_SIZE
    ensures Pair(d', lba) == buf && forall l: nat :: l != lba && l != lba + 1 ==> ReadSector(d', l) == ReadSector(d, l)
  {
    var one: Sector, two: Sector := buf[..512], buf[512..];
    d' := d[lba := one][lba + 1 := two];
    assert one + two == buf;
  }

  /** The read-modify-write of one or two sectors that inode_sync and inode_delete share. */
  method Overwrite(d: Disk, t: nat, no: nat, bytes: seq<Byte>) returns (d': Disk)
    requires no < MAX_FILES_PER_PART && |bytes| == INODE_SIZE
    ensures OnlyRecord(d, d', t, no, bytes)
  {
    var p := Locate(no);
    var lba := t + p.sec;
    if p.twoSec {
      d' := WritePair(d, lba, Splice(Pair(d, lba), p.off, bytes));
    } else {
      d' := d[lba := Splice(ReadSector(d, lba), p.off, bytes)];
    }
    Rewritten(d, d', t, no, bytes);
  }

  /** The conversion of a number to uint8_t. */
  function Low8(no: nat): (b: nat)
    ensures b < 256 && (b == no <==> no < 256)
  {
    no % 256
  }

  /** inode_sync: the number is narrowed to eight bits. */
  method InodeSync(d: Disk, t: nat, inode: Inode) returns (d': Disk)
    requires |inode.sectors| == 13
    ensures OnlyRecord(d, d', t, Low8(inode.no), Pure(inode))
  {
    d' := Overwrite(d, t, Low8(inode.no), Pure(inode));
  }

  /** inode_delete */
  method InodeDelete(d: Disk, t: nat, no: nat) returns (d': Disk)
    requires no < MAX_FILES_PER_PART
    ensures OnlyRecord(d, d', t, no, Zeros(INODE_SIZE))
  {
    d' := Overwrite(d, t, no, Zeros(INODE_SIZE));
  }

  lemma LoadedByte(d: Disk, t: nat, no: nat, j: nat)
    requires j < INODE_SIZE
    ensures var p := Locate(no); ByteAt(d, t, no * INODE_SIZE + j) == Pair(d, t + p.sec)[p.off + j]
  {
    var p := Locate(no);
    var k := SECTOR_SIZE * p.sec + (p.off + j);
    PairByte(d, t + p.sec, p.off + j);
    assert p.off + j < SECTOR_SIZE ==> k / SECTOR_SIZE == p.sec && k % SECTOR_SIZE == p.off + j;
    assert p.off + j >= SECTOR_SIZE ==> k / SECTOR_SIZE == p.sec + 1 && k % SECTOR_SIZE == p.off + j - SECTOR_SIZE;
  }

  /** The part of inode_open that reads an inode which is not in the list of open inodes. */
  method InodeLoad(d: Disk, t: nat, no: nat) returns (inode: Inode)
    requires no < MAX_FILES_PER_PART
    ensures inode == Parse(Record(d, t, no))
  {
    var p := Locate(no);
    var buf: seq<Byte> := ReadSector(d, t + p.sec);
    if p.twoSec {
      buf := Pair(d, t + p.sec);
    }
    var r := buf[p.off..p.off + INODE_SIZE];
    forall j | 0 <= j < INODE_SIZE ensures r[j] == Record(d, t, no)[j] {
      LoadedByte(d, t, no, j);
    }
    assert r == Record(d, t, no);
    inode := Parse(r);
  }

  // ---------------------------------------------------------------- what the table keeps

  /** inode_sync and then inode_open give the same inode back if its number is below 256. */
  lemma SyncThenOpen(d: Disk, d': Disk, t: nat, inode: Inode)
    requires inode.Fits() && inode.no < 256 && OnlyRecord(d, d', t, inode.no, Pure(inode))
    ensures Parse(Record(d', t, inode.no)) == Reopened(inode)
  {
    ParsePure(inode);
  }

  /** Open count, write lock and list links, words 2, 3, 17 and 18 of the record, do not go to the disk. */
  lemma SyncClears(d: Disk, d': Disk, t: nat, inode: Inode, slot: nat)
    requires inode.Fits() && slot == Low8(inode.no) && OnlyRecord(d, d', t, slot, Pure(inode))
    ensures var r := Record(d', t, slot); Word(r, 2) == Word(r, 3) == Word(r, 17) == Word(r, 18) == 0
  {
    var ws := [inode.no, inode.size, 0, 0] + inode.sectors + [0, 0];
    assert Record(d', t, slot) == Encode(ws);
    EncodeWord(ws, 2);
    EncodeWord(ws, 3);
    EncodeWord(ws, 17);
    EncodeWord(ws, 18);
  }

  /** From number 256 on, inode_sync writes another record than the one that inode_open reads, so a changed
      inode survives the round trip exactly if its number is below 256. */
  lemma RoundTripIff(d: Disk, d': Disk, t: nat, inode: Inode, slot: nat)
    requires inode.Fits() && slot == Low8(inode.no) && OnlyRecord(d, d', t, slot, Pure(inode))
    requires Parse(Record(d, t, inode.no)) != Reopened(inode)
    ensures Parse(Record(d', t, inode.no)) == Reopened(inode) <==> inode.no < 256
    ensures inode.no >= 256 ==> Parse(Record(d', t, slot)).no == inode.no
  {
    ParsePure(inode);
    assert Record(d', t, slot) == Pure(inode);
  }

  // ---------------------------------------------------------------- the table against the inodes in use

  /** No sector of the table was touched. */
  ghost predicate SameTable(d: Disk, d': Disk, t: nat) {
    forall b: nat :: t <= b < t + TABLE_SECTS ==> ReadSector(d', b) == ReadSector(d, b)
  }

  lemma SameRecord(d: Disk, d': Disk, t: nat, j: nat)
    requires j < MAX_FILES_PER_PART && SameTable(d, d', t)
    ensures Record(d', t, j) == Record(d, t, j)
  {
    forall x | 0 <= x < INODE_SIZE ensures Record(d', t, j)[x] == Record(d, t, j)[x] {
      assert (j * INODE_SIZE + x) / SECTOR_SIZE < TABLE_SECTS;
      assert ByteAt(d', t, j * INODE_SIZE + x) == ByteAt(d, t, j * INODE_SIZE + x);
    }
  }

  /** The table after inode_sync of n: one record is new. */
  ghost predicate Synced(d: Disk, d': Disk, t: nat, n: Inode)
    requires |n.sectors| == 13
  {
    forall j: nat {:trigger Record(d', t, j)} :: j < MAX_FILES_PER_PART ==>
      Record(d', t, j) == if j == Low8(n.no) then Pure(n) else Record(d, t, j)
  }

  lemma SyncedAfter(d: Disk, d1: Disk, d2: Disk, t: nat, n: Inode)
    requires |n.sectors| == 13 && OnlyRecord(d1, d2, t, Low8(n.no), Pure(n)) && SameTable(d, d1, t)
    ensures Synced(d, d2, t, n)
  {
    forall j: nat | j < MAX_FILES_PER_PART
      ensures Record(d2, t, j) == if j == Low8(n.no) then Pure(n) else Record(d, t, j) {
      SameRecord(d, d1, t, j);
    }
  }

  /** The table after inode_sync of n and then of m. */
  ghost predicate SyncedTwo(d: Disk, d': Disk, t: nat, n: Inode, m: Inode)
    requires |n.sectors| == 13 == |m.sectors|
  {
    forall j: nat {:trigger Record(d', t, j)} :: j < MAX_FILES_PER_PART ==>
      Record(d', t, j) == if j == Low8(m.no) then Pure(m) else if j == Low8(n.no) then Pure(n) else Record(d, t, j)
  }

  /** The table after inode_sync of n and inode_delete of record `no`. */
  ghost predicate SyncedGone(d: Disk, d': Disk, t: nat, n: Inode, no: nat)
    requires |n.sectors| == 13
  {
    forall j: nat {:trigger Record(d', t, j)} :: j < MAX_FILES_PER_PART ==>
      Record(d', t, j) == if j == no then Zeros(INODE_SIZE) else if j == Low8(n.no) then Pure(n) else Record(d, t, j)
  }

  ghost predicate RecordedAt(d: Disk, t: nat, inodes: map<nat, Inode>, i: nat) {
    i in inodes && i < 256 && inodes[i].Fits() && inodes[i].no == i && Record(d, t, i) == Pure(inodes[i])
  }

  /** The record of every inode in use is that inode, and all numbers fit the eight bits of inode_sync. */
  ghost predicate Recorded(d: Disk, t: nat, inodes: map<nat, Inode>) {
    forall i {:trigger RecordedAt(d, t, inodes, i)} :: i in inodes ==> RecordedAt(d, t, inodes, i)
  }

  /** One inode in use was replaced and synced. */
  lemma RecordedSynced(d: Disk, d': Disk, t: nat, inodes: map<nat, Inode>, inodes': map<nat, Inode>, i: nat)
    requires Recorded(d, t, inodes) && i in inodes && inodes'.Keys == inodes.Keys && forall k <- inodes :: k != i ==>
               inodes'[k] == inodes[k]
    requires inodes'[i].Fits() && inodes'[i].no == i && Synced(d, d', t, inodes'[i])
    ensures Recorded(d', t, inodes')
  {
    forall k {:trigger RecordedAt(d', t, inodes', k)} | k in inodes' ensures RecordedAt(d', t, inodes', k) {
      assert RecordedAt(d, t, inodes, k) && RecordedAt(d, t, inodes, i);
    }
  }

  /** One inode was replaced, another is new, and both were synced: the table is right if and only if the new
      number is below 256.  From then on it is the record of another inode that was written. */
  lemma RecordedTwo(d: Disk, d': Disk, t: nat, inodes: map<nat, Inode>, inodes': map<nat, Inode>, i: nat, j: nat)
    requires Recorded(d, t, inodes) && i in inodes && j !in inodes && j < MAX_FILES_PER_PART
             && inodes'.Keys == inodes.Keys + {j}
    requires (forall k <- inodes :: k != i ==> inodes'[k] == inodes[k]) && inodes'[i].Fits() && inodes'[i].no == i
    requires inodes'[j].Fits() && inodes'[j].no == j && SyncedTwo(d, d', t, inodes'[i], inodes'[j])
    ensures Recorded(d', t, inodes') <==> j < 256
    ensures j >= 256 ==> Parse(Record(d', t, Low8(j))).no == j
  {
    assert RecordedAt(d, t, inodes, i);
    if j < 256 {
      forall k {:trigger RecordedAt(d', t, inodes', k)} | k in inodes' ensures RecordedAt(d', t, inodes', k) {
        assert k != j ==> RecordedAt(d, t, inodes, k);
      }
    } else {
      assert !RecordedAt(d', t, inodes', j);
      ParsePure(inodes'[j]);
      assert Record(d', t, Low8(j)) == Pure(inodes'[j]);
    }
  }

  /** One inode was replaced and synced, and another one released. */
  lemma RecordedGone(d: Disk, d': Disk, t: nat, inodes: map<nat, Inode>, inodes': map<nat, Inode>, i: nat, j: nat)
    requires Recorded(d, t, inodes) && i in inodes && i != j && inodes'.Keys == inodes.Keys - {j}
    requires (forall k <- inodes' :: k != i ==> inodes'[k] == inodes[k]) && inodes'[i].Fits() && inodes'[i].no == i
    requires SyncedGone(d, d', t, inodes'[i], j)
    ensures Recorded(d', t, inodes')
  {
    forall k {:trigger RecordedAt(d', t, inodes', k)} | k in inodes' ensures RecordedAt(d', t, inodes', k) {
      assert RecordedAt(d, t, inodes, k) && RecordedAt(d, t, inodes, i);
    }
  }
}
