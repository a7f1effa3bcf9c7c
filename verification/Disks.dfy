/** Sectors of bytes, 32-bit words stored in them, and the disk as ide_read and ide_write see it. */
module Disks {

  type Byte = x: nat | x < 256

  const SECTOR_SIZE := 512

  function Zeros(n: nat): (r: seq<Byte>)
    ensures |r| == n && forall k :: 0 <= k < n ==> r[k] == 0
  {
    seq<Byte>(n, _ => 0)
  }

  type Sector = s: seq<Byte> | |s| == 512 witness Zeros(512)

  const ZEROS: Sector := Zeros(512)

  /** Sectors that were never written read as zeros. */
  type Disk = map<nat, Sector>

  function ReadSector(d: Disk, lba: nat): Sector {
    if lba in d then d[lba] else ZEROS
  }

  // ---------------------------------------------------------------- bytes into bytes

  /** memcpy(s + off, b, |b|) */
  function Splice(s: seq<Byte>, off: nat, b: seq<Byte>): (r: seq<Byte>)
    requires off + |b| <= |s|
    ensures |r| == |s|
    ensures forall k :: 0 <= k < |s| ==> r[k] == if off <= k < off + |b| then b[k - off] else s[k]
  {
    s[..off] + b + s[off + |b|..]
  }

  // ---------------------------------------------------------------- words into bytes

  const WORDS := 0x1_0000_0000

  /** The number whose bytes are b, the lowest first. */
  function LittleEndian(b: seq<Byte>): nat {
    if b == [] then 0 else b[0] + 0x100 * LittleEndian(b[1..])
  }

  /** Little-endian word i of s. */
  function Word(s: seq<Byte>, i: nat): nat
    requires 4 * i + 4 <= |s|
  {
    LittleEndian(s[4 * i..4 * i + 4])
  }

  lemma FourBytes(b: seq<Byte>)
    requires |b| == 4
    ensures LittleEndian(b) == b[0] + 0x100 * (b[1] + 0x100 * (b[2] + 0x100 * b[3])) < WORDS
  {
    var b1, b2, b3 := b[1..], b[2..], b[3..];
    var y1: nat, y2: nat, y3: nat := b[1], b[2], b[3];
    assert b1[1..] == b2 && b2[1..] == b3 && b3[1..] == [];
    assert LittleEndian(b3) == y3;
    assert LittleEndian(b2) == y2 + 0x100 * y3;
    assert LittleEndian(b1) == y1 + 0x100 * (y2 + 0x100 * y3);
  }

  function ByteOf(x: nat, j: nat): Byte
    requires j < 4
  {
    if j == 0 then x % 0x100 else if j == 1 then x / 0x100 % 0x100
    else if j == 2 then x / 0x100 / 0x100 % 0x100 else x / 0x100 / 0x100 / 0x100 % 0x100
  }

  lemma Rejoin(x: nat)
    requires x < WORDS
    ensures ByteOf(x, 0) + 0x100 * (ByteOf(x, 1) + 0x100 * (ByteOf(x, 2) + 0x100 * ByteOf(x, 3))) == x
  {
    var x1 := x / 0x100;
    var x2 := x1 / 0x100;
    var x3 := x2 / 0x100;
    assert x3 < 0x100;
  }

  function Encode(ws: seq<nat>): (r: seq<Byte>)
    ensures |r| == 4 * |ws|
  {
    seq<Byte>(4 * |ws|, k requires 0 <= k < 4 * |ws| => ByteOf(ws[k / 4], k % 4))
  }

  /** What was stored as words reads back as the same words. */
  lemma EncodeWord(ws: seq<nat>, i: nat)
    requires i < |ws| && ws[i] < WORDS
    ensures Word(Encode(ws), i) == ws[i]
  {
    var b, x := Encode(ws)[4 * i..4 * i + 4], ws[i];
    forall j | 0 <= j < 4 ensures b[j] == ByteOf(x, j) {
      EncodedByte(ws, i, j);
    }
    FourBytes(b);
    Rejoin(x);
  }

  lemma EncodedByte(ws: seq<nat>, i: nat, j: nat)
    requires i < |ws| && j < 4
    ensures Encode(ws)[4 * i + j] == ByteOf(ws[i], j)
  {
    assert (4 * i + j) / 4 == i && (4 * i + j) % 4 == j;
  }

  function Words(s: seq<Byte>): (ws: seq<nat>)
    requires |s| % 4 == 0
    ensures |ws| == |s| / 4
  {
    seq(|s| / 4, i requires 0 <= i < |s| / 4 => Word(s, i))
  }

  lemma WordsFit(s: seq<Byte>)
    requires |s| % 4 == 0
    ensures forall i :: 0 <= i < |s| / 4 ==> Words(s)[i] < WORDS
  {
    forall i | 0 <= i < |s| / 4 ensures Words(s)[i] < WORDS {
      FourBytes(s[4 * i..4 * i + 4]);
    }
  }

  lemma WordsOfEncode(ws: seq<nat>)
    requires forall i :: 0 <= i < |ws| ==> ws[i] < WORDS
    ensures Words(Encode(ws)) == ws
  {
    forall i | 0 <= i < |ws| ensures Words(Encode(ws))[i] == ws[i] {
      EncodeWord(ws, i);
    }
  }

  /** A sector as 128 words. */
  function SectorWords(s: Sector): (ws: seq<nat>)
    ensures |ws| == 128 && forall i :: 0 <= i < 128 ==> ws[i] < WORDS
  {
    WordsFit(s);
    Words(s)
  }
}
