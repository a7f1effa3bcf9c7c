/** The book-keeping of the arena heap of kernel/memory.c: seven block sizes, one free list each, and
    arenas of one page (small blocks) or of several pages (one large block). */
module Arenas {

  const PG_SIZE := 4096
  const HEADER := 12   // sizeof(struct arena)
  const DESC_CNT := 7

  /** block_size and blocks_per_arena of descriptor d, as block_desc_init computes them. */
  function Size(d: nat): (s: nat)
    requires d < DESC_CNT
    ensures 16 <= s <= 1024
  {
    if d == 0 then 16 else if d == 1 then 32 else if d == 2 then 64 else if d == 3 then 128
    else if d == 4 then 256 else if d == 5 then 512 else 1024
  }

  function Blocks(d: nat): (n: nat)
    requires d < DESC_CNT
    ensures 3 <= n <= 255
  {
    (PG_SIZE - HEADER) / Size(d)
  }

  /** arena2block */
  function BlockAddr(page: nat, d: nat, i: nat): nat
    requires d < DESC_CNT
  {
    page * PG_SIZE + HEADER + i * Size(d)
  }

  /** block2arena */
  function PageOf(b: nat): nat {
    b / PG_SIZE
  }

  function Index(d: nat, b: nat): int
    requires d < DESC_CNT
  {
    (b % PG_SIZE - HEADER) / Size(d)
  }

  /** block2arena undoes arena2block, blocks lie inside their page, and do not overlap. */
  lemma BlockInArena(page: nat, d: nat, i: nat)
    requires d < DESC_CNT && i < Blocks(d)
    ensures PageOf(BlockAddr(page, d, i)) == page && Index(d, BlockAddr(page, d, i)) == i
    ensures BlockAddr(page, d, i) + Size(d) <= (page + 1) * PG_SIZE
  {
    if { case d == 0 => case d == 1 => case d == 2 => case d == 3 => case d == 4 => case d == 5 => case d == 6 => }
  }

  datatype Arena = Small(desc: nat, cnt: nat) | Large(cnt: nat) {
    function PageCount(): nat {
      if Large? then cnt else 1
    }
  }

  /** The heap: the free lists, the arena headers, and the pointers handed out and not yet freed. */
  datatype Heap = Heap(lists: seq<seq<nat>>, arenas: map<nat, Arena>, live: set<nat>)

  ghost predicate Distinct(s: seq<nat>) {
    forall i, j :: 0 <= i < j < |s| ==> s[i] != s[j]
  }

  predicate IsBlock(d: nat, b: nat)
    requires d < DESC_CNT
  {
    0 <= Index(d, b) < Blocks(d) && b == BlockAddr(PageOf(b), d, Index(d, b))
  }

  ghost function FreeIdx(live: set<nat>, page: nat, d: nat): set<nat>
    requires d < DESC_CNT
  {
    set i: nat | i < Blocks(d) && BlockAddr(page, d, i) !in live
  }

  /** cnt is the number of free blocks of a small arena; the one block of a large arena is live. */
  ghost predicate ArenaOk(h: Heap, page: nat)
    requires page in h.arenas
  {
    match h.arenas[page]
    case Small(d, cnt) => d < DESC_CNT && cnt == |FreeIdx(h.live, page, d)|
    case Large(cnt) => cnt >= 1 && page * PG_SIZE + HEADER in h.live
  }

  /** b is a block of a mapped arena of class d. */
  predicate InArena(h: Heap, d: nat, b: nat)
    requires d < DESC_CNT
  {
    PageOf(b) in h.arenas && h.arenas[PageOf(b)].Small? && h.arenas[PageOf(b)].desc == d && IsBlock(d, b)
  }

  /** List d holds exactly the free blocks of its arenas, once each. */
  ghost predicate ListOk(h: Heap, d: nat)
    requires d < DESC_CNT == |h.lists|
  {
    Distinct(h.lists[d]) && forall b: nat :: b in h.lists[d] <==> InArena(h, d, b) && b !in h.live
  }

  ghost predicate LiveOk(h: Heap, b: nat) {
    PageOf(b) in h.arenas &&
    match h.arenas[PageOf(b)]
    case Small(d, _) => d < DESC_CNT && IsBlock(d, b)
    case Large(_) => b == PageOf(b) * PG_SIZE + HEADER
  }

  ghost predicate Overlap(h: Heap, p: nat, q: nat) {
    p in h.arenas && q in h.arenas && p < q < p + h.arenas[p].PageCount()
  }

  ghost predicate Apart(h: Heap) {
    forall p, q :: !Overlap(h, p, q)
  }

  /** No small arena is wholly free, except perhaps the one at `page`. */
  ghost predicate InUse(h: Heap, page: nat) {
    forall p :: p != page ==> !Idle(h, p)
  }

  ghost predicate Idle(h: Heap, p: nat) {
    && p in h.arenas && h.arenas[p].Small?
    && h.arenas[p].desc < DESC_CNT && h.arenas[p].cnt >= Blocks(h.arenas[p].desc)
  }

  ghost predicate Sound(h: Heap) {
    && |h.lists| == DESC_CNT
    && (forall page {:trigger ArenaOk(h, page)} :: page in h.arenas ==> ArenaOk(h, page))
    && (forall d {:trigger ListOk(h, d)} :: 0 <= d < DESC_CNT ==> ListOk(h, d))
    && (forall b {:trigger LiveOk(h, b)} :: b in h.live ==> LiveOk(h, b))
    && Apart(h)
  }

  /** Between calls.  Page 0 holds no arena. */
  ghost predicate Inv(h: Heap) {
    Sound(h) && InUse(h, 0) && 0 !in h.arenas
  }

  // ---------------------------------------------------------------- what the invariant means

  /** The bytes a live pointer may use. */
  ghost function Extent(h: Heap, b: nat): int
    requires LiveOk(h, b)
  {
    match h.arenas[PageOf(b)]
    case Small(d, _) => Size(d)
    case Large(cnt) => cnt * PG_SIZE - HEADER
  }

  /** Live regions are disjoint. */
  lemma LiveDisjoint(h: Heap, b: nat, c: nat)
    requires Inv(h) && b in h.live && c in h.live && b < c
    ensures LiveOk(h, b) && LiveOk(h, c) && b + Extent(h, b) <= c
  {
    assert LiveOk(h, b) && LiveOk(h, c);
    var p, q := PageOf(b), PageOf(c);
    assert ArenaOk(h, p);
    if p == q {
      if h.arenas[p].Small? {
        var d := h.arenas[p].desc;
        SameArena(p, d, Index(d, b), Index(d, c));
      }
    } else {
      assert p < q && !Overlap(h, p, q);
      if h.arenas[p].Small? {
        BlockInArena(p, h.arenas[p].desc, Index(h.arenas[p].desc, b));
      }
    }
  }

  lemma SameArena(page: nat, d: nat, i: nat, j: nat)
    requires d < DESC_CNT && BlockAddr(page, d, i) < BlockAddr(page, d, j)
    ensures BlockAddr(page, d, i) + Size(d) <= BlockAddr(page, d, j)
  {
    Multiples(Size(d), i, j);
  }

  lemma {:induction false} MoreTimes(i: nat, j: nat, s: nat)
    requires i <= j
    ensures i * s <= j * s
    decreases j
  {
    if i < j {
      MoreTimes(i, j - 1, s);
      assert j * s == (j - 1) * s + s;
    }
  }

  lemma Multiples(s: nat, i: nat, j: nat)
    requires i * s < j * s
    ensures i * s + s <= j * s
  {
    if j <= i {
      MoreTimes(j, i, s);
    } else {
      MoreTimes(i + 1, j, s);
      assert (i + 1) * s == i * s + s;
    }
  }

  /** Every arena serves somebody. */
  lemma ArenaHasLive(h: Heap, page: nat)
    requires Inv(h) && page in h.arenas
    ensures exists b :: b in h.live && PageOf(b) == page
  {
    assert ArenaOk(h, page) && !Idle(h, page);
    match h.arenas[page]
    case Large(_) => assert PageOf(page * PG_SIZE + HEADER) == page;
    case Small(d, _) =>
      AllIndices(h.live, page, d);
      var i: nat :| i < Blocks(d) && BlockAddr(page, d, i) in h.live;
      BlockInArena(page, d, i);
  }

  lemma ArenasHaveLive(h: Heap)
    requires Inv(h)
    ensures forall page <- h.arenas :: h.live != {}
  {
    forall page <- h.arenas ensures h.live != {} {
      ArenaHasLive(h, page);
    }
  }

  lemma AllFree(h: Heap)
    requires Inv(h) && h.live == {}
    ensures h.arenas == map[] && forall d :: 0 <= d < DESC_CNT ==> h.lists[d] == []
  {
    ArenasHaveLive(h);
    forall d | 0 <= d < DESC_CNT ensures h.lists[d] == [] {
      assert ListOk(h, d);
      EmptyOrNot(h.lists[d]);
    }
  }

  lemma EmptyOrNot(s: seq<nat>)
    ensures s == [] || exists b :: b in s
  {
    if s != [] {
      assert s[0] in s;
    }
  }

  ghost function Upto(n: nat): (s: set<nat>)
    ensures |s| == n && forall i :: i in s <==> 0 <= i < n
  {
    if n == 0 then {} else Upto(n - 1) + {n - 1}
  }

  lemma SubsetSize(a: set<nat>, b: set<nat>)
    requires a <= b
    ensures |a| <= |b| && (|a| == |b| ==> a == b)
  {
    assert b == a + (b - a);
  }

  lemma AllIndices(live: set<nat>, page: nat, d: nat)
    requires d < DESC_CNT
    ensures FreeIdx(live, page, d) <= Upto(Blocks(d))
    ensures |FreeIdx(live, page, d)| == Blocks(d) <==> forall i :: 0 <= i < Blocks(d) ==> BlockAddr(page, d, i) !in live
  {
    SubsetSize(FreeIdx(live, page, d), Upto(Blocks(d)));
    if |FreeIdx(live, page, d)| == Blocks(d) {
      forall i | 0 <= i < Blocks(d) ensures BlockAddr(page, d, i) !in live {
        assert i in FreeIdx(live, page, d);
      }
    }
    if forall i :: 0 <= i < Blocks(d) ==> BlockAddr(page, d, i) !in live {
      assert FreeIdx(live, page, d) == Upto(Blocks(d));
    }
  }

  // ---------------------------------------------------------------- the steps of sys_malloc and sys_free

  function BlockSeq(page: nat, d: nat): (s: seq<nat>)
    requires d < DESC_CNT
    ensures |s| == Blocks(d) && forall i :: 0 <= i < |s| ==> s[i] == BlockAddr(page, d, i)
  {
    seq(Blocks(d), i requires 0 <= i => BlockAddr(page, d, i))
  }

  lemma BlockSeqOk(page: nat, d: nat)
    requires d < DESC_CNT
    ensures Distinct(BlockSeq(page, d))
    ensures forall b: nat :: b in BlockSeq(page, d) <==> PageOf(b) == page && IsBlock(d, b)
  {
    forall i | 0 <= i < Blocks(d)
      ensures PageOf(BlockAddr(page, d, i)) == page && Index(d, BlockAddr(page, d, i)) == i
    {
      BlockInArena(page, d, i);
    }
    forall b: nat | PageOf(b) == page && IsBlock(d, b) ensures b in BlockSeq(page, d) {
      assert b == BlockSeq(page, d)[Index(d, b)];
    }
  }

  ghost predicate Outside(h: Heap, page: nat, cnt: nat) {
    forall p <- h.arenas :: page + cnt <= p || p + h.arenas[p].PageCount() <= page
  }

  /** A new arena of class d, with all its blocks in the list, which was empty. */
  function Grown(h: Heap, d: nat, page: nat): Heap
    requires d < DESC_CNT == |h.lists|
  {
    h.(lists := h.lists[d := BlockSeq(page, d)], arenas := h.arenas[page := Small(d, Blocks(d))])
  }

  /** The first block of list d becomes live. */
  function Taken(h: Heap, d: nat): Heap
    requires d < DESC_CNT == |h.lists| && h.lists[d] != []
    requires PageOf(h.lists[d][0]) in h.arenas && h.arenas[PageOf(h.lists[d][0])].cnt > 0
  {
    var b := h.lists[d][0];
    var a := h.arenas[PageOf(b)];
    Heap(h.lists[d := h.lists[d][1..]], h.arenas[PageOf(b) := a.(cnt := a.cnt - 1)], h.live + {b})
  }

  /** A live small block goes back to the end of its list. */
  function Given(h: Heap, b: nat): Heap
    requires PageOf(b) in h.arenas && h.arenas[PageOf(b)].Small? && h.arenas[PageOf(b)].desc < DESC_CNT == |h.lists|
  {
    var a := h.arenas[PageOf(b)];
    Heap(h.lists[a.desc := h.lists[a.desc] + [b]], h.arenas[PageOf(b) := a.(cnt := a.cnt + 1)], h.live - {b})
  }

  lemma NoLiveIn(h: Heap, page: nat)
    requires forall b {:trigger LiveOk(h, b)} :: b in h.live ==> LiveOk(h, b)
    requires page !in h.arenas
    ensures forall b <- h.live :: PageOf(b) != page
  {
    forall b <- h.live ensures PageOf(b) != page {
      assert LiveOk(h, b);
    }
  }

  lemma ApartSame(h: Heap, h': Heap)
    requires Apart(h) && h'.arenas.Keys <= h.arenas.Keys
    requires forall p <- h'.arenas :: h'.arenas[p].PageCount() == h.arenas[p].PageCount()
    ensures Apart(h')
  {
    forall p, q ensures !Overlap(h', p, q) {
      assert !Overlap(h, p, q);
    }
  }

  lemma ApartMore(h: Heap, page: nat, a: Arena)
    requires Apart(h) && page !in h.arenas && Outside(h, page, a.PageCount())
    ensures Apart(h.(arenas := h.arenas[page := a]))
  {
    var h' := h.(arenas := h.arenas[page := a]);
    forall p, q ensures !Overlap(h', p, q) {
      assert !Overlap(h, p, q);
    }
  }

  lemma GrownSound(h: Heap, d: nat, page: nat)
    requires Sound(h) && d < DESC_CNT && h.lists[d] == [] && page !in h.arenas && Outside(h, page, 1)
    ensures Sound(Grown(h, d, page))
  {
    var h' := Grown(h, d, page);
    ApartMore(h, page, Small(d, Blocks(d)));
    ApartSame(h.(arenas := h'.arenas), h');
    BlockSeqOk(page, d);
    NoLiveIn(h, page);
    forall i | 0 <= i < Blocks(d) ensures BlockAddr(page, d, i) !in h.live {
      BlockInArena(page, d, i);
    }
    AllIndices(h.live, page, d);
    forall p <- h'.arenas ensures ArenaOk(h', p) {
      assert p != page ==> ArenaOk(h, p);
    }
    forall e | 0 <= e < DESC_CNT ensures ListOk(h', e) {
      assert ListOk(h, e);
      assert forall b: nat :: b in h.lists[e] ==> PageOf(b) != page;
    }
    forall b <- h'.live ensures LiveOk(h', b) {
      assert LiveOk(h, b);
    }
  }

  /** Which indices are free after block b of arena `page` changed sides. */
  lemma FreeIdxMoves(live: set<nat>, live': set<nat>, b: nat, page: nat, d: nat)
    requires d < DESC_CNT
    requires forall c :: c != b ==> (c in live <==> c in live')
    ensures PageOf(b) != page ==> FreeIdx(live', page, d) == FreeIdx(live, page, d)
    ensures PageOf(b) == page && IsBlock(d, b) && b !in live && b in live' ==>
              FreeIdx(live', page, d) == FreeIdx(live, page, d) - {Index(d, b)} && Index(d, b) in FreeIdx(live, page, d)
    ensures PageOf(b) == page && IsBlock(d, b) && b in live && b !in live' ==>
              FreeIdx(live', page, d) == FreeIdx(live, page, d) + {Index(d, b)}
              && Index(d, b) !in FreeIdx(live, page, d)
  {
    forall i: nat | i < Blocks(d)
      ensures PageOf(BlockAddr(page, d, i)) == page && Index(d, BlockAddr(page, d, i)) == i
    {
      BlockInArena(page, d, i);
    }
  }

  lemma FirstFree(h: Heap, d: nat)
    requires Sound(h) && d < DESC_CNT && h.lists[d] != []
    ensures var b := h.lists[d][0];
            b !in h.live && InArena(h, d, b) && h.arenas[PageOf(b)].cnt > 0
  {
    var b := h.lists[d][0];
    assert ListOk(h, d) && b in h.lists[d];
    assert ArenaOk(h, PageOf(b));
    FreeIdxMoves(h.live, h.live + {b}, b, PageOf(b), d);
  }

  /** Block b of the arena at PageOf(b), class d, changed sides, and cnt with it. */
  ghost predicate Moved(h: Heap, h': Heap, d: nat, b: nat) {
    && d < DESC_CNT && InArena(h, d, b) && InArena(h', d, b)
    && h'.arenas.Keys == h.arenas.Keys
    && (forall p <- h.arenas :: p != PageOf(b) ==> h'.arenas[p] == h.arenas[p])
    && (forall c :: c != b ==> (c in h.live <==> c in h'.live))
    && (b in h.live <==> b !in h'.live)
    && h'.arenas[PageOf(b)].cnt == h.arenas[PageOf(b)].cnt + if b in h.live then 1 else -1
  }

  lemma MovedArena(h: Heap, h': Heap, d: nat, b: nat, p: nat)
    requires Moved(h, h', d, b) && p in h.arenas && ArenaOk(h, p)
    ensures ArenaOk(h', p)
  {
    match h.arenas[p]
    case Small(e, _) => FreeIdxMoves(h.live, h'.live, b, p, e);
    case Large(_) => assert PageOf(p * PG_SIZE + HEADER) == p;
  }

  lemma MovedLive(h: Heap, h': Heap, d: nat, b: nat, c: nat)
    requires Moved(h, h', d, b) && (c == b || LiveOk(h, c))
    ensures LiveOk(h', c)
  {
  }

  lemma MovedList(h: Heap, h': Heap, d: nat, b: nat, e: nat)
    requires Moved(h, h', d, b) && e < DESC_CNT == |h.lists| == |h'.lists| && ListOk(h, e) && Distinct(h'.lists[e])
    requires e != d ==> h'.lists[e] == h.lists[e]
    requires e == d ==> forall c :: c in h'.lists[d] <==> if c == b then b in h.live else c in h.lists[d]
    ensures ListOk(h', e)
  {
    forall c: nat ensures c in h'.lists[e] <==> InArena(h', e, c) && c !in h'.live {
      assert InArena(h', e, c) <==> InArena(h, e, c);
      assert c == b && e != d ==> !InArena(h, e, c);
    }
  }

  lemma MovedSound(h: Heap, h': Heap, d: nat, b: nat)
    requires Sound(h) && Moved(h, h', d, b) && |h'.lists| == DESC_CNT
    requires forall e :: 0 <= e < DESC_CNT && e != d ==> h'.lists[e] == h.lists[e]
    requires Distinct(h'.lists[d]) && forall c :: c in h'.lists[d] <==> if c == b then b in h.live else c in h.lists[d]
    ensures Sound(h')
  {
    ApartSame(h, h');
    forall p <- h'.arenas ensures ArenaOk(h', p) {
      assert ArenaOk(h, p);
      MovedArena(h, h', d, b, p);
    }
    forall e | 0 <= e < DESC_CNT ensures ListOk(h', e) {
      assert ListOk(h, e);
      MovedList(h, h', d, b, e);
    }
    forall c <- h'.live ensures LiveOk(h', c) {
      assert c == b || LiveOk(h, c);
      MovedLive(h, h', d, b, c);
    }
  }

  lemma TakenSound(h: Heap, d: nat)
    requires Sound(h) && d < DESC_CNT && h.lists[d] != []
    ensures var b := h.lists[d][0];
            && PageOf(b) in h.arenas && h.arenas[PageOf(b)].cnt > 0
            && Sound(Taken(h, d)) && b !in h.live && InArena(Taken(h, d), d, b)
            && Taken(h, d).arenas[PageOf(b)].cnt < Blocks(d)
  {
    FirstFree(h, d);
    var b, h' := h.lists[d][0], Taken(h, d);
    assert ListOk(h, d);
    TailOf(h.lists[d]);
    MovedSound(h, h', d, b);
    assert ArenaOk(h', PageOf(b));
    AllIndices(h'.live, PageOf(b), d);
    SubsetSize(FreeIdx(h'.live, PageOf(b), d), Upto(Blocks(d)));
  }

  lemma TailOf(s: seq<nat>)
    requires Distinct(s) && s != []
    ensures Distinct(s[1..]) && forall x :: x in s[1..] <==> x in s && x != s[0]
  {
  }

  lemma GivenSound(h: Heap, b: nat)
    requires Sound(h) && b in h.live && PageOf(b) in h.arenas && h.arenas[PageOf(b)].Small?
    ensures h.arenas[PageOf(b)].desc < DESC_CNT && Sound(Given(h, b))
  {
    var d := h.arenas[PageOf(b)].desc;
    assert LiveOk(h, b);
    assert ListOk(h, d);
    MovedSound(h, Given(h, b), d, b);
  }

  /** sys_free takes every block of a wholly free arena out of its list: `list` is what is left. */
  ghost predicate Swept(s: seq<nat>, t: seq<nat>, page: nat) {
    Distinct(t) && forall b: nat :: b in t <==> b in s && PageOf(b) != page
  }

  lemma DroppedSound(h: Heap, page: nat, list: seq<nat>)
    requires Sound(h) && page in h.arenas && h.arenas[page].Small? && h.arenas[page].desc < DESC_CNT
    requires h.arenas[page].cnt == Blocks(h.arenas[page].desc)
    requires Swept(h.lists[h.arenas[page].desc], list, page)
    ensures Sound(Heap(h.lists[h.arenas[page].desc := list], h.arenas - {page}, h.live))
  {
    var d := h.arenas[page].desc;
    var h' := Heap(h.lists[d := list], h.arenas - {page}, h.live);
    ApartSame(h, h');
    assert ArenaOk(h, page);
    AllIndices(h.live, page, d);
    forall p <- h'.arenas ensures ArenaOk(h', p) {
      assert ArenaOk(h, p);
    }
    forall b <- h'.live ensures LiveOk(h', b) {
      assert LiveOk(h, b);
    }
    forall e | 0 <= e < DESC_CNT ensures ListOk(h', e) {
      assert ListOk(h, e);
      assert forall b: nat :: InArena(h', e, b) <==> InArena(h, e, b) && PageOf(b) != page;
      assert e != d ==> forall b: nat :: b in h.lists[e] ==> PageOf(b) != page;
    }
  }

  /** The two heaps differ in a large arena at `page`, present in one or both of them. */
  ghost predicate LargeAt(h: Heap, h': Heap, page: nat) {
    && h'.lists == h.lists
    && (forall p :: p != page ==> (p in h.arenas <==> p in h'.arenas))
    && (forall p <- h.arenas :: p != page ==> h'.arenas[p] == h.arenas[p])
    && (forall c :: c != page * PG_SIZE + HEADER ==> (c in h.live <==> c in h'.live))
    && (page in h.arenas ==> h.arenas[page].Large?) && (page in h'.arenas ==> h'.arenas[page].Large?)
  }

  lemma LargeArena(h: Heap, h': Heap, page: nat, p: nat)
    requires LargeAt(h, h', page) && p != page && p in h.arenas && ArenaOk(h, p)
    ensures ArenaOk(h', p)
  {
    assert PageOf(page * PG_SIZE + HEADER) == page;
    if h.arenas[p].Small? {
      FreeIdxMoves(h.live, h'.live, page * PG_SIZE + HEADER, p, h.arenas[p].desc);
    }
  }

  lemma LargeList(h: Heap, h': Heap, page: nat, e: nat)
    requires LargeAt(h, h', page) && e < DESC_CNT == |h.lists| && ListOk(h, e)
    ensures ListOk(h', e)
  {
    assert PageOf(page * PG_SIZE + HEADER) == page;
    forall c: nat ensures c in h'.lists[e] <==> InArena(h', e, c) && c !in h'.live {
      assert InArena(h', e, c) <==> InArena(h, e, c);
      assert InArena(h, e, c) ==> PageOf(c) != page;
    }
  }

  lemma LargeLive(h: Heap, h': Heap, page: nat, c: nat)
    requires LargeAt(h, h', page) && LiveOk(h, c) && c != page * PG_SIZE + HEADER
    ensures LiveOk(h', c)
  {
    assert PageOf(c) != page;
    assert h'.arenas[PageOf(c)] == h.arenas[PageOf(c)];
  }

  lemma LargeSound(h: Heap, page: nat, cnt: nat)
    requires Sound(h) && page !in h.arenas && cnt >= 1 && Outside(h, page, cnt)
    ensures var h' := Heap(h.lists, h.arenas[page := Large(cnt)], h.live + {page * PG_SIZE + HEADER});
            Sound(h') && page * PG_SIZE + HEADER !in h.live
  {
    var b := page * PG_SIZE + HEADER;
    var h' := Heap(h.lists, h.arenas[page := Large(cnt)], h.live + {b});
    ApartMore(h, page, Large(cnt));
    ApartSame(h.(arenas := h'.arenas), h');
    assert PageOf(b) == page;
    NoLiveIn(h, page);
    assert LargeAt(h, h', page);
    forall p <- h'.arenas ensures ArenaOk(h', p) {
      if p != page {
        assert ArenaOk(h, p);
        LargeArena(h, h', page, p);
      }
    }
    forall e | 0 <= e < DESC_CNT ensures ListOk(h', e) {
      assert ListOk(h, e);
      LargeList(h, h', page, e);
    }
    forall c <- h'.live ensures LiveOk(h', c) {
      assert c != b ==> LiveOk(h, c);
    }
  }

  lemma UnlargeSound(h: Heap, page: nat)
    requires Sound(h) && page in h.arenas && h.arenas[page].Large?
    ensures Sound(Heap(h.lists, h.arenas - {page}, h.live - {page * PG_SIZE + HEADER}))
  {
    var b := page * PG_SIZE + HEADER;
    var h' := Heap(h.lists, h.arenas - {page}, h.live - {b});
    assert LargeAt(h, h', page);
    ApartSame(h, h');
    forall p <- h'.arenas ensures ArenaOk(h', p) {
      assert ArenaOk(h, p);
      LargeArena(h, h', page, p);
    }
    forall e | 0 <= e < DESC_CNT ensures ListOk(h', e) {
      assert ListOk(h, e);
      LargeList(h, h', page, e);
    }
    forall c <- h'.live ensures LiveOk(h', c) {
      assert LiveOk(h, c);
      LargeLive(h, h', page, c);
    }
  }
}
