/** 32-bit paging as the MMU walks it (section 4.3 of the Intel SDM, volume 3A), and the pointers into
    the self-mapped page directory that kernel/memory.c computes.  Addresses are numbers below 2^32;
    a mask of high bits is written as a division. */
module Paging {
  import opened Options

  const PAGE := 4096
  const ADDRESSES := 0x1_0000_0000

  // ---------------------------------------------------------------- physical memory and the walk

  /** A 32-bit word of physical memory: frame number and index in the frame. */
  datatype Loc = Loc(frame: nat, word: nat)

  type Memory = map<Loc, nat>

  function Read(m: Memory, loc: Loc): nat {
    if loc in m then m[loc] else 0
  }

  predicate Present(entry: nat) {
    entry % 2 == 1
  }

  function FrameOf(entry: nat): nat {
    entry / PAGE
  }

  /** Bit 2 of an entry: user mode may use it. */
  predicate UserBit(entry: nat) {
    entry / 4 % 2 == 1
  }

  /** Bit 1: it may be written through. */
  predicate WriteBit(entry: nat) {
    entry / 2 % 2 == 1
  }

  /** frame | PG_US_U | PG_RW_W | PG_P_1 */
  function Entry(frame: nat): (e: nat)
    ensures Present(e) && FrameOf(e) == frame && UserBit(e) && WriteBit(e)
  {
    frame * PAGE + 4 + 2 + 1
  }

  function PdeLoc(dir: nat, page: nat): Loc {
    Loc(dir, page / 1024)
  }

  function Pde(m: Memory, dir: nat, page: nat): nat {
    Read(m, PdeLoc(dir, page))
  }

  function PteLoc(m: Memory, dir: nat, page: nat): Loc {
    Loc(FrameOf(Pde(m, dir, page)), page % 1024)
  }

  function Pte(m: Memory, dir: nat, page: nat): nat {
    Read(m, PteLoc(m, dir, page))
  }

  /** What the walk makes of a page: its frame, and what user mode may do.  Both levels must allow it. */
  datatype Translation = Translation(frame: nat, user: bool, write: bool)

  function Compose(pde: nat, pte: nat): Translation {
    Translation(FrameOf(pte), UserBit(pde) && UserBit(pte), WriteBit(pde) && WriteBit(pte))
  }

  /** A page that user mode may read and write. */
  function Open(frame: nat): Translation {
    Translation(frame, true, true)
  }

  /** How a page is mapped, with the page directory in frame `dir`. */
  function Lookup(m: Memory, dir: nat, page: nat): Option<Translation> {
    if Present(Pde(m, dir, page)) && Present(Pte(m, dir, page)) then
      Some(Compose(Pde(m, dir, page), Pte(m, dir, page)))
    else None
  }

  /** The word that an aligned access of the kernel to address v reaches, or a page fault. */
  function WordAt(m: Memory, dir: nat, v: nat): Option<Loc> {
    match Lookup(m, dir, v / PAGE)
    case Some(t) => Some(Loc(t.frame, v % PAGE / 4))
    case None => None
  }

  /** The frame that a write in user mode reaches, or a page fault. */
  function UserWrite(m: Memory, dir: nat, page: nat): Option<nat> {
    match Lookup(m, dir, page)
    case Some(t) => if t.user && t.write then Some(t.frame) else None
    case None => None
  }

  // ---------------------------------------------------------------- the self-map

  function PdeIdx(v: nat): nat {
    v / 0x40_0000
  }

  function PteIdx(v: nat): nat {
    v / PAGE % 1024
  }

  function PtePtr(v: nat): (p: nat)
    ensures v < ADDRESSES ==> p < ADDRESSES
  {
    0xffc0_0000 + PdeIdx(v) * PAGE + PteIdx(v) * 4
  }

  function PdePtr(v: nat): (p: nat)
    ensures v < ADDRESSES ==> p < ADDRESSES
  {
    0xffff_f000 + PdeIdx(v) * 4
  }

  ghost predicate SelfMapped(m: Memory, dir: nat) {
    Present(Read(m, Loc(dir, 1023))) && FrameOf(Read(m, Loc(dir, 1023))) == dir
  }

  /** Through the self-map, pde_ptr(v) reaches the directory entry of v. */
  lemma PdePtrHits(m: Memory, dir: nat, v: nat)
    requires SelfMapped(m, dir) && v < ADDRESSES
    ensures WordAt(m, dir, PdePtr(v)) == Some(PdeLoc(dir, v / PAGE))
  {
    var p := PdePtr(v);
    assert p / PAGE == 0xfffff && p % PAGE / 4 == PdeIdx(v);
  }

  /** And pte_ptr(v) reaches the table entry of v if there is a table, and faults otherwise. */
  lemma PtePtrHits(m: Memory, dir: nat, v: nat)
    requires SelfMapped(m, dir) && v < ADDRESSES
    ensures WordAt(m, dir, PtePtr(v)) ==
            if Present(Pde(m, dir, v / PAGE)) then Some(PteLoc(m, dir, v / PAGE)) else None
  {
    var p := PtePtr(v);
    assert p / PAGE == 1023 * 1024 + PdeIdx(v) && p % PAGE / 4 == PteIdx(v);
  }

  // ---------------------------------------------------------------- writing one entry

  /** The directory maps itself, and no other entry of it does. */
  ghost predicate Tables(m: Memory, dir: nat) {
    && SelfMapped(m, dir)
    && forall i :: 0 <= i < 1023 && Present(Read(m, Loc(dir, i))) ==> FrameOf(Read(m, Loc(dir, i))) != dir
  }

  /** Pages below the self-map. */
  predicate Ordinary(page: nat) {
    page / 1024 < 1023
  }

  /** Two pages are translated by the same word. */
  predicate SameSlot(m: Memory, dir: nat, p: nat, q: nat) {
    Present(Pde(m, dir, p)) && Present(Pde(m, dir, q)) && PteLoc(m, dir, p) == PteLoc(m, dir, q)
  }

  /** Writing the table entry of a page retranslates the pages that share that word, and no other. */
  lemma WritePte(m: Memory, dir: nat, page: nat, e: nat)
    requires Tables(m, dir) && Ordinary(page) && Present(Pde(m, dir, page))
    ensures var m' := m[PteLoc(m, dir, page) := e];
            && Tables(m', dir)
            && (forall i :: Read(m', Loc(dir, i)) == Read(m, Loc(dir, i)))
            && (forall q :: Ordinary(q) ==>
                  Lookup(m', dir, q) ==
                  if SameSlot(m, dir, page, q) then (if Present(e) then Some(Compose(Pde(m, dir, q), e)) else None)
                  else Lookup(m, dir, q))
  {
    var m' := m[PteLoc(m, dir, page) := e];
    assert PdeLoc(dir, page).word < 1023;
    assert PteLoc(m, dir, page).frame != dir;
    forall q | Ordinary(q)
      ensures Lookup(m', dir, q) ==
              if SameSlot(m, dir, page, q) then (if Present(e) then Some(Compose(Pde(m, dir, q), e)) else None)
              else Lookup(m, dir, q)
    {
      assert Pde(m', dir, q) == Pde(m, dir, q);
    }
  }

  /** "Every other translation is unchanged" holds for all new entries exactly when no other directory
      entry shares the table. */
  lemma WritePteExact(m: Memory, dir: nat, page: nat, frame: nat)
    requires Tables(m, dir) && Ordinary(page) && Present(Pde(m, dir, page)) && Lookup(m, dir, page).None?
    ensures var m' := m[PteLoc(m, dir, page) := Entry(frame)];
            (forall q :: Ordinary(q) && q != page ==> Lookup(m', dir, q) == Lookup(m, dir, q))
            <==> (forall i :: 0 <= i < 1023 && i != page / 1024 && Present(Read(m, Loc(dir, i))) ==>
                    FrameOf(Read(m, Loc(dir, i))) != FrameOf(Pde(m, dir, page)))
  {
    var m' := m[PteLoc(m, dir, page) := Entry(frame)];
    WritePte(m, dir, page, Entry(frame));
    forall i | 0 <= i < 1023 && i != page / 1024 && Present(Read(m, Loc(dir, i))) &&
               FrameOf(Read(m, Loc(dir, i))) == FrameOf(Pde(m, dir, page))
      ensures exists q :: Ordinary(q) && q != page && Lookup(m', dir, q) != Lookup(m, dir, q)
    {
      var q := i * 1024 + page % 1024;
      assert q / 1024 == i && q % 1024 == page % 1024;
      assert SameSlot(m, dir, page, q);
    }
  }

  /** The loader gives directory entries 0 and 768 one table, so mapping the first page of the kernel
      heap also maps the same page of the low four megabytes. */
  lemma BootAlias(m: Memory, dir: nat, frame: nat)
    requires Tables(m, dir) && Read(m, Loc(dir, 768)) == Entry(0x101) && Read(m, Loc(dir, 0)) == Entry(0x101)
    ensures Lookup(m[PteLoc(m, dir, 0xc0100) := Entry(frame)], dir, 0x100) == Some(Open(frame))
  {
    WritePte(m, dir, 0xc0100, Entry(frame));
    assert SameSlot(m, dir, 0xc0100, 0x100);
  }
}
