/** struct dir_entry: 24-byte slots, 21 of them in a sector, and a directory as 252 slots in a row. */
module DirSlots {
  import opened Disks
  import opened InodeTable
  import opened Volumes
  import opened Entries

  type Slot = s: seq<Byte> | |s| == 24 witness Zeros(24)

  const EMPTY: Slot := ZEROS[..24]

  // ---------------------------------------------------------------- one entry

  /** The C string that starts at s[k]. */
  function CString(s: seq<Byte>, k: nat): seq<Byte>
    decreases |s| - k
  {
    if k >= |s| || s[k] == 0 then [] else [s[k]] + CString(s, k + 1)
  }

  /** filename as strcmp reads it: without a terminator it runs on into i_no. */
  function NameOf(s: Slot): seq<Byte> {
    CString(s, 0)
  }

  function InoOf(s: Slot): nat {
    Word(s, 4)
  }

  function TypeOf(s: Slot): nat {
    Word(s, 5)
  }

  /** A slot is in use if f_type is not FT_UNKNOWN. */
  predicate InUse(s: Slot) {
    TypeOf(s) != 0
  }

  /** A name as C passes it: no byte of it is 0. */
  predicate IsName(name: seq<Byte>) {
    name != [] && forall k :: 0 <= k < |name| ==> name[k] != 0
  }

  /** create_dir_entry on a zeroed struct; a longer name fails its assertion. */
  function MakeEntry(name: seq<Byte>, ino: nat, ftype: nat): (r: Slot)
    requires |name| <= MAX_NAME
  {
    name + Zeros(MAX_NAME - |name|) + Encode([ino, ftype])
  }

  lemma MakeEntryFields(name: seq<Byte>, ino: nat, ftype: nat)
    requires |name| <= MAX_NAME && ino < WORDS && ftype < WORDS
    ensures InoOf(MakeEntry(name, ino, ftype)) == ino && TypeOf(MakeEntry(name, ino, ftype)) == ftype
  {
    var e, ws := MakeEntry(name, ino, ftype), [ino, ftype];
    EncodeWord(ws, 0);
    EncodeWord(ws, 1);
    assert e[16..20] == Encode(ws)[0..4];
    assert e[20..24] == Encode(ws)[4..8];
  }

  /** Without a zero byte in between, the string goes on. */
  lemma {:induction false} CStringOf(s: seq<Byte>, k: nat, m: nat)
    requires k <= m <= |s| && forall j :: k <= j < m ==> s[j] != 0
    ensures CString(s, k) == s[k..m] + CString(s, m)
    decreases m - k
  {
    if k < m {
      CStringOf(s, k + 1, m);
      assert s[k..m] == [s[k]] + s[k + 1..m];
    }
  }

  /** A name of at most 15 bytes reads back as it was written.  A name of 16 bytes is not terminated: it
      reads back exactly if the low byte of the inode number is 0. */
  lemma MakeEntryName(name: seq<Byte>, ino: nat, ftype: nat)
    requires IsName(name) && |name| <= MAX_NAME
    ensures NameOf(MakeEntry(name, ino, ftype)) == name <==> |name| < MAX_NAME || ino % 256 == 0
  {
    var e, m := MakeEntry(name, ino, ftype), |name|;
    assert e[..m] == name;
    forall j | 0 <= j < m ensures e[j] != 0 {
      assert e[j] == name[j];
    }
    CStringOf(e, 0, m);
    if m < MAX_NAME {
      assert e[m] == 0;
    } else {
      assert e[m] == Encode([ino, ftype])[0] == ByteOf(ino, 0);
      assert ino % 256 != 0 ==> |CString(e, m)| > 0;
    }
  }

  lemma ZeroSlot(e: Slot)
    requires forall k :: 0 <= k < 24 ==> e[k] == 0
    ensures !InUse(e) && InoOf(e) == 0
  {
    FourBytes(e[16..20]);
    FourBytes(e[20..24]);
  }

  lemma EmptySlot(e: Slot)
    requires e == EMPTY
    ensures !InUse(e) && InoOf(e) == 0
  {
    assert forall k :: 0 <= k < 24 ==> e[k] == 0;
    ZeroSlot(e);
  }

  lemma NoName(e: Slot)
    requires e[0] == 0
    ensures NameOf(e) == []
  {
  }

  // ---------------------------------------------------------------- slots of a sector

  function SlotAt(s: Sector, k: nat): Slot
    requires k < PER_SECTOR
  {
    s[SLOT * k..SLOT * k + SLOT]
  }

  lemma SpliceSlot(s: Sector, k: nat, e: Slot, j: nat)
    requires k < PER_SECTOR && j < PER_SECTOR
    ensures SlotAt(Splice(s, SLOT * k, e), j) == if j == k then e else SlotAt(s, j)
  {
    var t: Sector := Splice(s, SLOT * k, e);
    forall x | 0 <= x < SLOT ensures SlotAt(t, j)[x] == if j == k then e[x] else SlotAt(s, j)[x] {
      assert SlotAt(t, j)[x] == t[SLOT * j + x];
      assert j < k ==> SLOT * j + x < SLOT * k;
      assert j > k ==> SLOT * j >= SLOT * k + SLOT;
    }
  }

  lemma ZeroSector(j: nat)
    requires j < PER_SECTOR
    ensures SlotAt(ZEROS, j) == EMPTY
  {
  }

  // ---------------------------------------------------------------- a directory as a row of slots

  /** Slot k of block b; a block that does not exist counts as empty slots. */
  function SlotIn(d: Disk, sectors: seq<nat>, b: nat, k: nat): Slot
    requires |sectors| == 13 && b < DIRECT && k < PER_SECTOR
  {
    if sectors[b] == 0 then EMPTY else SlotAt(ReadSector(d, sectors[b]), k)
  }

  function Row(d: Disk, sectors: seq<nat>): (r: seq<Slot>)
    requires |sectors| == 13
    ensures |r| == CAPACITY
  {
    seq<Slot>(CAPACITY, x requires 0 <= x < CAPACITY => SlotIn(d, sectors, x / PER_SECTOR, x % PER_SECTOR))
  }

  lemma Index(b: nat, k: nat)
    requires k < PER_SECTOR
    ensures (PER_SECTOR * b + k) / PER_SECTOR == b && (PER_SECTOR * b + k) % PER_SECTOR == k
  {
  }

  lemma RowAt(d: Disk, sectors: seq<nat>, b: nat, k: nat)
    requires |sectors| == 13 && b < DIRECT && k < PER_SECTOR
    ensures Row(d, sectors)[PER_SECTOR * b + k] == SlotIn(d, sectors, b, k)
  {
    Index(b, k);
  }

  /** Two rows are equal if they agree slot by slot, block by block. */
  lemma RowsEqual(d: Disk, sectors: seq<nat>, row: seq<Slot>)
    requires |sectors| == 13 && |row| == CAPACITY
    requires forall b: nat, k: nat {:trigger SlotIn(d, sectors, b, k)} :: b < DIRECT && k < PER_SECTOR ==>
               SlotIn(d, sectors, b, k) == row[PER_SECTOR * b + k]
    ensures Row(d, sectors) == row
  {
    forall x | 0 <= x < CAPACITY ensures Row(d, sectors)[x] == row[x] {
      assert x == PER_SECTOR * (x / PER_SECTOR) + x % PER_SECTOR;
      assert SlotIn(d, sectors, x / PER_SECTOR, x % PER_SECTOR) == row[x];
    }
  }

  lemma OtherIndex(b: nat, k: nat, b': nat, k': nat)
    requires k < PER_SECTOR && k' < PER_SECTOR
    ensures PER_SECTOR * b + k == PER_SECTOR * b' + k' <==> b == b' && k == k'
  {
    Index(b, k);
    Index(b', k');
  }

  /** An entry is written into a block that exists. */
  lemma RowWrite(d: Disk, sectors: seq<nat>, b: nat, k: nat, e: Slot)
    requires |sectors| == 13 && b < DIRECT && k < PER_SECTOR && sectors[b] != 0 && Distinct(sectors[..12])
    ensures Row(d[sectors[b] := Splice(ReadSector(d, sectors[b]), SLOT * k, e)], sectors) ==
              Row(d, sectors)[PER_SECTOR * b + k := e]
  {
    var d' := d[sectors[b] := Splice(ReadSector(d, sectors[b]), SLOT * k, e)];
    var row := Row(d, sectors)[PER_SECTOR * b + k := e];
    forall b': nat, k': nat | b' < DIRECT && k' < PER_SECTOR
      ensures SlotIn(d', sectors, b', k') == row[PER_SECTOR * b' + k']
    {
      OtherIndex(b, k, b', k');
      RowAt(d, sectors, b', k');
      if b' == b {
        SpliceSlot(ReadSector(d, sectors[b]), k, e, k');
      } else {
        OtherBlock(sectors, b, b');
      }
    }
    RowsEqual(d', sectors, row);
  }

  lemma OtherBlock(sectors: seq<nat>, b: nat, b': nat)
    requires |sectors| == 13 && b < DIRECT && b' < DIRECT && b != b' && sectors[b] != 0 && Distinct(sectors[..12])
    ensures sectors[b'] != sectors[b]
  {
    assert !Clash(sectors[..12], b, b') && !Clash(sectors[..12], b', b);
  }

  /** An entry is the first of a new block. */
  lemma RowNew(d: Disk, sectors: seq<nat>, b: nat, lba: nat, e: Slot)
    requires |sectors| == 13 && b < DIRECT && sectors[b] == 0 && lba != 0 && lba !in sectors
    ensures Row(d[lba := Splice(ZEROS, 0, e)], sectors[b := lba]) == Row(d, sectors)[PER_SECTOR * b := e]
  {
    var d', sectors' := d[lba := Splice(ZEROS, 0, e)], sectors[b := lba];
    var row := Row(d, sectors)[PER_SECTOR * b := e];
    forall b': nat, k': nat | b' < DIRECT && k' < PER_SECTOR
      ensures SlotIn(d', sectors', b', k') == row[PER_SECTOR * b' + k']
    {
      OtherIndex(b, 0, b', k');
      RowAt(d, sectors, b', k');
      if b' == b {
        SpliceSlot(ZEROS, 0, e, k');
        ZeroSector(k');
      } else {
        assert sectors'[b'] == sectors[b'] != lba;
      }
    }
    RowsEqual(d', sectors', row);
  }

  /** A block whose only entry goes is dropped altogether. */
  lemma RowDrop(d: Disk, sectors: seq<nat>, b: nat, k: nat)
    requires |sectors| == 13 && b < DIRECT && k < PER_SECTOR
    requires forall k': nat :: k' < PER_SECTOR && k' != k ==> SlotIn(d, sectors, b, k') == EMPTY
    ensures Row(d, sectors[b := 0]) == Row(d, sectors)[PER_SECTOR * b + k := EMPTY]
  {
    var sectors' := sectors[b := 0];
    var row := Row(d, sectors)[PER_SECTOR * b + k := EMPTY];
    forall b': nat, k': nat | b' < DIRECT && k' < PER_SECTOR
      ensures SlotIn(d, sectors', b', k') == row[PER_SECTOR * b' + k']
    {
      OtherIndex(b, k, b', k');
      RowAt(d, sectors, b', k');
    }
    RowsEqual(d, sectors', row);
  }

  lemma RowKept(d: Disk, d': Disk, sectors: seq<nat>)
    requires |sectors| == 13
    requires forall b: nat :: b < DIRECT && sectors[b] != 0 ==> ReadSector(d', sectors[b]) == ReadSector(d, sectors[b])
    ensures Row(d', sectors) == Row(d, sectors)
  {
    forall x | 0 <= x < CAPACITY ensures Row(d', sectors)[x] == Row(d, sectors)[x] {
      assert SlotIn(d', sectors, x / PER_SECTOR, x % PER_SECTOR) == SlotIn(d, sectors, x / PER_SECTOR, x % PER_SECTOR);
    }
  }

  // ---------------------------------------------------------------- what the slots mean

  function Decode(s: Slot): (e: Entry)
    ensures e.Free? <==> !InUse(s)
    ensures e.Entry? ==> e.name == NameOf(s) && e.ino == InoOf(s) && e.ftype == TypeOf(s)
  {
    if InUse(s) then Entry(NameOf(s), InoOf(s), TypeOf(s)) else Free
  }

  function DecodeAll(row: seq<Slot>): (es: seq<Entry>)
    ensures |es| == |row| && forall x :: 0 <= x < |row| ==> es[x] == Decode(row[x])
  {
    seq(|row|, x requires 0 <= x < |row| => Decode(row[x]))
  }

  lemma DecodeSet(row: seq<Slot>, x: nat, s: Slot)
    requires x < |row|
    ensures DecodeAll(row[x := s]) == DecodeAll(row)[x := Decode(s)]
  {
  }

  /** The entries of a directory. */
  function View(d: Disk, sectors: seq<nat>): (es: seq<Entry>)
    requires |sectors| == 13
    ensures |es| == CAPACITY
  {
    DecodeAll(Row(d, sectors))
  }

  /** Unused slots are all zeros. */
  ghost predicate Clean(row: seq<Slot>) {
    forall x :: 0 <= x < |row| && Decode(row[x]).Free? ==> row[x] == EMPTY
  }

  lemma CleanSet(row: seq<Slot>, x: nat, s: Slot)
    requires Clean(row) && x < |row| && (s == EMPTY || Decode(s).Entry?)
    ensures Clean(row[x := s])
  {
  }
}
