/** sys_malloc and sys_free of kernel/memory.c, on top of the page allocator. */
module Heaps {
  import opened Options
  import opened Arenas
  import P = Pages
  import Bitmaps

  datatype Result = Panic | Null | Ptr(addr: nat)

  /** page belongs to an arena. */
  ghost predicate Covered(h: Heap, page: nat) {
    exists p :: p in h.arenas && p <= page < p + h.arenas[p].PageCount()
  }

  /** The pages mapped in the address space are those mapped before the heap was used, and the arenas. */
  ghost predicate Linked(h: Heap, mapping: map<nat, nat>, base: map<nat, nat>, space: P.Space) {
    && (forall page :: page in mapping <==> page in base || Covered(h, page))
    && (forall page <- base :: page in mapping && mapping[page] == base[page] && !Covered(h, page))
    && (forall p <- h.arenas :: P.InSpace(space, p, h.arenas[p].PageCount()))
  }

  /** Pages just mapped for a new arena are outside every other arena. */
  lemma FreshOutside(h: Heap, m: map<nat, nat>, m': map<nat, nat>, base: map<nat, nat>, space: P.Space,
                     page: nat, cnt: nat)
    requires Linked(h, m, base, space) && P.Extends(m, m', page, cnt) && cnt >= 1
    requires forall p <- h.arenas :: h.arenas[p].PageCount() >= 1
    ensures page !in h.arenas && Outside(h, page, cnt)
  {
    assert page !in m && !Covered(h, page);
    forall p <- h.arenas ensures page + cnt <= p || p + h.arenas[p].PageCount() <= page {
      assert Covered(h, p);
      assert p in m && !(page <= p < page + cnt);
    }
    assert page in h.arenas ==> Covered(h, page);
  }

  lemma LinkedMore(h: Heap, h': Heap, m: map<nat, nat>, m': map<nat, nat>, base: map<nat, nat>, space: P.Space,
                   page: nat, cnt: nat)
    requires Linked(h, m, base, space) && P.Extends(m, m', page, cnt) && P.InSpace(space, page, cnt)
    requires page !in h.arenas && page in h'.arenas && h'.arenas[page].PageCount() == cnt
    requires h'.arenas.Keys == h.arenas.Keys + {page}
    requires forall p <- h.arenas :: h'.arenas[p].PageCount() == h.arenas[p].PageCount()
    ensures Linked(h', m', base, space)
  {
    forall q: nat ensures Covered(h', q) <==> Covered(h, q) || page <= q < page + cnt {
      if Covered(h, q) {
        var p :| p in h.arenas && p <= q < p + h.arenas[p].PageCount();
        assert p in h'.arenas && p <= q < p + h'.arenas[p].PageCount();
      }
    }
  }

  lemma CoveredLess(h: Heap, h': Heap, page: nat, q: nat)
    requires page in h.arenas && Apart(h) && h'.arenas == h.arenas - {page}
    ensures Covered(h', q) <==> Covered(h, q) && !(page <= q < page + h.arenas[page].PageCount())
  {
    if Covered(h', q) {
      var p :| p in h'.arenas && p <= q < p + h'.arenas[p].PageCount();
      assert p in h.arenas && p <= q < p + h.arenas[p].PageCount();
      assert !Overlap(h, p, page) && !Overlap(h, page, p);
    }
    if Covered(h, q) && !(page <= q < page + h.arenas[page].PageCount()) {
      var p :| p in h.arenas && p <= q < p + h.arenas[p].PageCount();
      assert p in h'.arenas && p <= q < p + h'.arenas[p].PageCount();
    }
  }

  lemma LinkedLess(h: Heap, h': Heap, m: map<nat, nat>, m': map<nat, nat>, base: map<nat, nat>, space: P.Space,
                   page: nat, cnt: nat)
    requires Linked(h, m, base, space) && P.Extends(m', m, page, cnt)
    requires page in h.arenas && h.arenas[page].PageCount() == cnt && Apart(h)
    requires h'.arenas == h.arenas - {page}
    ensures Linked(h', m', base, space)
  {
    forall q: nat ensures Covered(h', q) <==> Covered(h, q) && !(page <= q < page + cnt) {
      CoveredLess(h, h', page, q);
    }
    forall q: nat | page <= q < page + cnt ensures Covered(h, q) {
      assert page in h.arenas && page <= q < page + h.arenas[page].PageCount();
    }
  }

  lemma LinkedSame(h: Heap, h': Heap, m: map<nat, nat>, base: map<nat, nat>, space: P.Space)
    requires Linked(h, m, base, space) && h'.arenas.Keys == h.arenas.Keys
    requires forall p <- h.arenas :: h'.arenas[p].PageCount() == h.arenas[p].PageCount()
    ensures Linked(h', m, base, space)
  {
    forall q: nat ensures Covered(h', q) <==> Covered(h, q) {
      if Covered(h, q) {
        var p :| p in h.arenas && p <= q < p + h.arenas[p].PageCount();
        assert p in h'.arenas && p <= q < p + h'.arenas[p].PageCount();
      }
    }
  }

  // ---------------------------------------------------------------- list_remove on a list of blocks

  function Without(s: seq<nat>, x: nat): (r: seq<nat>)
    ensures forall y :: y in r ==> y in s
    ensures forall y :: y in s && y != x ==> y in r
  {
    if s == [] then []
    else if s[0] == x then s[1..]
    else [s[0]] + Without(s[1..], x)
  }

  /** The for loop of sys_malloc that cuts a new arena into blocks, each appended to the empty list. */
  method Split(page: nat, d: nat) returns (list: seq<nat>)
    requires d < DESC_CNT
    ensures list == BlockSeq(page, d)
  {
    list := [];
    for i := 0 to Blocks(d)
      invariant |list| == i && forall j :: 0 <= j < i ==> list[j] == BlockAddr(page, d, j)
    {
      BlockSeqOk(page, d);
      assert BlockSeq(page, d)[i] !in list;
      list := list + [BlockAddr(page, d, i)];
    }
  }

  /** The for loop of sys_free that takes the blocks of a wholly free arena out of the list.  Each is found. */
  method Sweep(s: seq<nat>, page: nat, d: nat) returns (list: seq<nat>)
    requires d < DESC_CNT && Distinct(s)
    requires forall i :: 0 <= i < Blocks(d) ==> BlockAddr(page, d, i) in s
    requires forall b <- s :: PageOf(b) == page ==> IsBlock(d, b)
    ensures Swept(s, list, page) && list == Elsewhere(s, page)
  {
    list := s;
    ghost var blocks := BlockSeq(page, d);
    BlockSeqOk(page, d);
    SweepStart(s, blocks);
    for i := 0 to Blocks(d)
      invariant list == Keep(s, blocks[..i])
    {
      SweepStep(s, blocks, i);
      var b := BlockAddr(page, d, i);
      assert b in list;
      list := Without(list, b);
    }
    SweepEnd(s, blocks, page);
  }

  lemma SweepStart(s: seq<nat>, blocks: seq<nat>)
    ensures Keep(s, blocks[..0]) == s
  {
    KeepAll(s);
    assert blocks[..0] == [];
  }

  lemma SweepStep(s: seq<nat>, blocks: seq<nat>, i: nat)
    requires Distinct(s) && Distinct(blocks) && i < |blocks| && blocks[i] in s
    ensures blocks[i] in Keep(s, blocks[..i]) && Without(Keep(s, blocks[..i]), blocks[i]) == Keep(s, blocks[..i + 1])
  {
    assert blocks[i] !in blocks[..i] && blocks[..i] + [blocks[i]] == blocks[..i + 1];
    KeepHas(s, blocks[..i], blocks[i]);
    KeepLess(s, blocks[..i], blocks[i]);
  }

  lemma SweepEnd(s: seq<nat>, blocks: seq<nat>, page: nat)
    requires Distinct(s) && forall b <- s :: b in blocks <==> PageOf(b) == page
    ensures Keep(s, blocks[..|blocks|]) == Elsewhere(s, page) && Swept(s, Elsewhere(s, page), page)
  {
    assert blocks[..|blocks|] == blocks;
    KeepElsewhere(s, blocks, page);
    IsSwept(s, page);
  }

  lemma {:induction false} KeepHas(s: seq<nat>, gone: seq<nat>, b: nat)
    ensures b in Keep(s, gone) <==> b in s && b !in gone
  {
    if s != [] {
      KeepHas(s[1..], gone, b);
      assert s == [s[0]] + s[1..];
    }
  }

  lemma {:induction false} ElsewhereHas(s: seq<nat>, page: nat, b: nat)
    ensures b in Elsewhere(s, page) <==> b in s && PageOf(b) != page
  {
    if s != [] {
      ElsewhereHas(s[1..], page, b);
      assert s == [s[0]] + s[1..];
    }
  }

  lemma {:induction false} IsSwept(s: seq<nat>, page: nat)
    requires Distinct(s)
    ensures Swept(s, Elsewhere(s, page), page)
  {
    forall b: nat ensures b in Elsewhere(s, page) <==> b in s && PageOf(b) != page {
      ElsewhereHas(s, page, b);
    }
    if s != [] {
      var t := s[1..];
      IsSwept(t, page);
      ElsewhereHas(t, page, s[0]);
      assert s[0] !in t;
    }
  }

  /** The blocks of s that are not on the page, in their order. */
  function Elsewhere(s: seq<nat>, page: nat): seq<nat> {
    if s == [] then [] else (if PageOf(s[0]) != page then [s[0]] else []) + Elsewhere(s[1..], page)
  }

  /** The blocks of s that are not in `gone`, in their order. */
  function Keep(s: seq<nat>, gone: seq<nat>): seq<nat> {
    if s == [] then [] else (if s[0] !in gone then [s[0]] else []) + Keep(s[1..], gone)
  }

  lemma {:induction false} KeepAll(s: seq<nat>)
    ensures Keep(s, []) == s
  {
    if s != [] {
      KeepAll(s[1..]);
    }
  }

  lemma {:induction false} KeepSame(s: seq<nat>, gone: seq<nat>, b: nat)
    requires b !in s
    ensures Keep(s, gone + [b]) == Keep(s, gone)
  {
    if s != [] {
      KeepSame(s[1..], gone, b);
    }
  }

  lemma WithoutLater(a: nat, s: seq<nat>, b: nat)
    requires a != b
    ensures Without([a] + s, b) == [a] + Without(s, b)
  {
    assert ([a] + s)[1..] == s;
  }

  lemma {:induction false} KeepLess(s: seq<nat>, gone: seq<nat>, b: nat)
    requires Distinct(s) && b in s && b !in gone
    ensures Without(Keep(s, gone), b) == Keep(s, gone + [b])
  {
    var a, t := s[0], s[1..];
    if a == b {
      assert b !in t;
      KeepSame(t, gone, b);
      assert ([b] + Keep(t, gone))[1..] == Keep(t, gone);
    } else {
      assert b in t;
      KeepLess(t, gone, b);
      assert a in gone + [b] <==> a in gone;
      if a !in gone {
        WithoutLater(a, Keep(t, gone), b);
      } else {
        assert Keep(s, gone) == Keep(t, gone) && Keep(s, gone + [b]) == Keep(t, gone + [b]);
      }
    }
  }

  lemma {:induction false} KeepElsewhere(s: seq<nat>, gone: seq<nat>, page: nat)
    requires forall b <- s :: b in gone <==> PageOf(b) == page
    ensures Keep(s, gone) == Elsewhere(s, page)
  {
    if s != [] {
      KeepElsewhere(s[1..], gone, page);
    }
  }

  /** The for loop of sys_malloc that picks the smallest block size that fits. */
  method Fit(size: nat) returns (d: nat)
    requires 0 < size <= 1024
    ensures d < DESC_CNT && size <= Size(d) && forall e :: 0 <= e < d ==> Size(e) < size
  {
    d := 0;
    while d < DESC_CNT && size > Size(d)
      invariant d < DESC_CNT && forall e :: 0 <= e < d ==> Size(e) < size
    {
      assert d < 6;
      d := d + 1;
    }
  }

  /** malloc_page of cnt pages stops the kernel only if the count is out of range, or the space before the call, or
      a pool after it, has nothing left. */
  ghost predicate Exhausted(b: P.Books, b': P.Books, pf: P.PoolFlag, cnt: nat) {
    || !(0 < cnt < 3840) || b.SpaceOf(pf).Full() || (pf.User? && P.StackPage(b.SpaceOf(pf), cnt))
    || b'.PoolOf(pf).Full() || b'.kernelPool.Full()
  }

  /** The space has no run of cnt pages. */
  ghost predicate NoRun(b: P.Books, pf: P.PoolFlag, cnt: nat) {
    Bitmaps.FirstFit(b.SpaceOf(pf).bits, |b.SpaceOf(pf).bits|, cnt).None?
  }

  /** The pages that sys_malloc asks for, if it needs any. */
  function PagesFor(size: nat): nat {
    if size > 1024 then (size + HEADER + PG_SIZE - 1) / PG_SIZE else 1
  }

  /** The extent is the least that sys_malloc has: one of the seven sizes, or whole pages less the header. */
  predicate RightSize(size: nat, extent: int) {
    if size <= 1024 then
      && extent in {16, 32, 64, 128, 256, 512, 1024} && size <= extent && (extent == 16 || extent / 2 < size)
    else (extent + 12) % 4096 == 0 && extent - 4096 < size <= extent
  }

  /** The block is the first of the free list of its size; or, if that is empty, of a new arena. */
  ghost predicate FromHead(h: Heap, h': Heap, b: nat, d: nat)
    requires d < DESC_CNT == |h.lists|
  {
    if h.lists[d] != [] then
      b == h.lists[d][0] && h'.lists == h.lists[d := h.lists[d][1..]] && h'.arenas.Keys == h.arenas.Keys
    else
      && b == PageOf(b) * 4096 + 12 && PageOf(b) !in h.arenas && h'.arenas.Keys == h.arenas.Keys + {PageOf(b)}
      && h'.lists == h.lists[d := BlockSeq(PageOf(b), d)[1..]]
  }

  lemma HeadIs(h: Heap, h1: Heap, h': Heap, b: nat, d: nat, page: nat)
    requires d < DESC_CNT == |h.lists| == |h1.lists| && h1.lists[d] != []
    requires b == h1.lists[d][0] && h'.lists == h1.lists[d := h1.lists[d][1..]] && h'.arenas.Keys == h1.arenas.Keys
    requires if h.lists[d] != [] then h1 == h
             else && page !in h.arenas && h1.arenas.Keys == h.arenas.Keys + {page}
                  && h1.lists == h.lists[d := BlockSeq(page, d)]
    ensures FromHead(h, h', b, d)
  {
    if h.lists[d] == [] {
      BlockInArena(page, d, 0);
    }
  }

  /** For the list that has blocks of that size. */
  ghost predicate ByClass(h: Heap, h': Heap, b: nat) {
    && |h.lists| == DESC_CNT && LiveOk(h', b)
    && forall d: nat :: d < DESC_CNT && Size(d) == Extent(h', b) ==> FromHead(h, h', b, d)
  }

  lemma OneClass(h: Heap, h': Heap, b: nat, d: nat)
    requires |h.lists| == DESC_CNT && LiveOk(h', b) && d < DESC_CNT && Extent(h', b) == Size(d) && FromHead(h, h', b, d)
    ensures ByClass(h, h', b)
  {
    forall e: nat | e < DESC_CNT && Size(e) == Extent(h', b) ensures FromHead(h, h', b, e) {
      assert e == d;
    }
  }

  lemma ClassIsOne(size: nat, d: nat)
    requires 0 < size <= 1024 && d < DESC_CNT && RightSize(size, Size(d))
    ensures forall e: nat :: e < DESC_CNT && RightSize(size, Size(e)) ==> e == d
  {
  }

  lemma FitIsRight(size: nat, d: nat)
    requires 0 < size <= 1024 && d < DESC_CNT && size <= Size(d) && forall e :: 0 <= e < d ==> Size(e) < size
    ensures RightSize(size, Size(d))
  {
    if d > 0 {
      assert Size(d - 1) < size && Size(d) == 2 * Size(d - 1);
    }
  }

  lemma WholePages(size: nat, cnt: nat)
    requires size > 1024 && cnt == (size + HEADER + PG_SIZE - 1) / PG_SIZE
    ensures cnt >= 1 && RightSize(size, cnt * PG_SIZE - HEADER) && size <= cnt * PG_SIZE - HEADER
  {
    assert cnt * PG_SIZE - HEADER + 12 == cnt * 4096;
  }

  /** A block goes to the end of the free list of its size; or, if it was the last one of its arena, the arena goes,
      and with it its blocks, while the others keep their order. */
  ghost predicate ToTail(h: Heap, h': Heap, b: nat, d: nat)
    requires d < DESC_CNT == |h.lists|
  {
    if PageOf(b) in h'.arenas then h'.lists == h.lists[d := h.lists[d] + [b]] && h'.arenas.Keys == h.arenas.Keys
    else h'.lists == h.lists[d := Elsewhere(h.lists[d], PageOf(b))] && h'.arenas.Keys == h.arenas.Keys - {PageOf(b)}
  }

  lemma {:induction false} NotElsewhere(s: seq<nat>, b: nat)
    ensures Elsewhere(s + [b], PageOf(b)) == Elsewhere(s, PageOf(b))
  {
    if s != [] {
      assert (s + [b])[1..] == s[1..] + [b];
      NotElsewhere(s[1..], b);
    } else {
      assert s + [b] == [b] && [b][1..] == [];
    }
  }

  /** The heap of the kernel, or of one process. */
  class Manager {
    const vm: P.Vm
    const pf: P.PoolFlag
    const poolSize: nat
    var lists: seq<seq<nat>>
    var arenas: map<nat, Arena>
    ghost var live: set<nat>
    /** The bitmaps and the page table before the first call. */
    ghost const before: P.Books

    ghost function H(): Heap
      reads this
    {
      Heap(lists, arenas, live)
    }

    /** The page allocator, as this heap has left it. */
    ghost predicate VmOk()
      reads this, vm
    {
      && vm.Valid() && before.Balanced(0, 0)
      && P.SameShape(before, vm.B()) && P.TablesAdded(before, vm.B(), pf)
    }

    ghost predicate Valid()
      reads this, vm
    {
      VmOk() && Good(H(), vm.mapping, before, pf)
    }

    /** block_desc_init */
    constructor (vm: P.Vm, pf: P.PoolFlag, poolSize: nat)
      requires vm.Valid()
      ensures Valid() && live == {} && this.vm == vm && this.pf == pf && before == vm.B()
    {
      this.vm, this.pf, this.poolSize := vm, pf, poolSize;
      lists, arenas, live := [[], [], [], [], [], [], []], map[], {};
      before := vm.B();
    }

    /** malloc_page for this heap. */
    method GetPages(cnt: nat) returns (r: P.Alloc)
      requires VmOk()
      modifies vm
      ensures r.Panic? ==> Exhausted(old(vm.B()), vm.B(), pf, cnt)
      ensures r.Null? ==> VmOk() && vm.B() == old(vm.B()) && NoRun(vm.B(), pf, cnt)
      ensures r.Pages? ==> VmOk() && P.Extends(old(vm.mapping), vm.mapping, r.page, cnt) && cnt >= 1
      ensures r.Pages? ==> P.InSpace(before.SpaceOf(pf), r.page, cnt)
    {
      r := vm.MallocPage(pf, cnt);
    }

    /** mfree_page for this heap. */
    method PutPages(page: nat, cnt: nat)
      requires VmOk() && cnt >= 1 && P.InSpace(before.SpaceOf(pf), page, cnt)
      requires forall p :: page <= p < page + cnt ==> p in vm.mapping
      modifies vm
      ensures VmOk() && P.Extends(vm.mapping, old(vm.mapping), page, cnt)
    {
      vm.MfreePage(pf, page, cnt);
    }

    /** The branch of sys_malloc above 1024 bytes. */
    method MallocLarge(size: nat) returns (r: Result)
      requires Valid() && size > 1024
      modifies this, vm
      ensures r.Panic? ==> Exhausted(old(vm.B()), vm.B(), pf, PagesFor(size))
      ensures r.Null? ==> Valid() && H() == old(H()) && vm.B() == old(vm.B()) && NoRun(vm.B(), pf, PagesFor(size))
      ensures r.Ptr? ==> Valid() && Allocated(old(H()), H(), r.addr, size) && RightSize(size, Extent(H(), r.addr))
      ensures r.Ptr? ==> r.addr == PageOf(r.addr) * 4096 + 12 && lists == old(lists)
    {
      var page_cnt := (size + HEADER + PG_SIZE - 1) / PG_SIZE;
      var a := GetPages(page_cnt);
      match a
      case Panic => return Panic;
      case Null => return Null;
      case Pages(page) =>
        WholePages(size, page_cnt);
        EnterLarge(page, page_cnt, old(vm.mapping));
        return Ptr(page * PG_SIZE + HEADER);
    }

    /** The header of a large arena. */
    method EnterLarge(page: nat, cnt: nat, ghost m: map<nat, nat>)
      requires VmOk() && Good(H(), m, before, pf) && P.Extends(m, vm.mapping, page, cnt) && cnt >= 1
      requires P.InSpace(before.SpaceOf(pf), page, cnt)
      modifies this
      ensures Valid() && lists == old(lists)
      ensures var b := page * PG_SIZE + HEADER;
              PageOf(b) == page && Allocated(old(H()), H(), b, cnt * PG_SIZE - HEADER)
              && Extent(H(), b) == cnt * PG_SIZE - HEADER
    {
      AddLarge(H(), m, vm.mapping, before, pf, page, cnt);
      arenas := arenas[page := Large(cnt)];
      live := live + {page * PG_SIZE + HEADER};
      assert PageOf(page * PG_SIZE + HEADER) == page;
    }

    /** A new arena for the empty list d. */
    method NewArena(d: nat) returns (r: P.Alloc)
      requires Valid() && d < DESC_CNT && lists[d] == []
      modifies this, vm
      ensures r.Panic? ==> Exhausted(old(vm.B()), vm.B(), pf, 1)
      ensures r.Null? ==> Valid() && H() == old(H()) && vm.B() == old(vm.B()) && NoRun(vm.B(), pf, 1)
      ensures r.Pages? ==> VmOk() && Good0(H(), vm.mapping, before, pf) && InUse(H(), r.page) && LiveKept(old(H()), H())
      ensures r.Pages? ==> lists[d] != [] && PageOf(lists[d][0]) == r.page && r.page != 0
      ensures r.Pages? ==> r.page !in old(arenas) && arenas == old(arenas)[r.page := Small(d, Blocks(d))]
      ensures r.Pages? ==> lists == old(lists)[d := BlockSeq(r.page, d)]
    {
      r := GetPages(1);
      if r.Pages? {
        AddSmall(H(), old(vm.mapping), vm.mapping, before, pf, d, r.page);
        arenas := arenas[r.page := Small(d, Blocks(d))];
        var blocks := Split(r.page, d);
        lists := lists[d := blocks];
      }
    }

    /** list_pop, and the free count of the block's arena. */
    method TakeBlock(d: nat, ghost h0: Heap, ghost newest: nat) returns (b: nat)
      requires VmOk() && Good0(H(), vm.mapping, before, pf) && InUse(H(), newest) && LiveKept(h0, H())
      requires d < DESC_CNT && lists[d] != [] && (newest == 0 || PageOf(lists[d][0]) == newest)
      modifies this
      ensures Valid() && Allocated(h0, H(), b, Size(d)) && Extent(H(), b) == Size(d)
      ensures b == old(lists[d])[0] && lists == old(lists)[d := old(lists[d])[1..]] && arenas.Keys == old(arenas).Keys
    {
      TakeFirst(h0, H(), vm.mapping, before, pf, d, newest);
      b := lists[d][0];
      lists := lists[d := lists[d][1..]];
      arenas := arenas[PageOf(b) := arenas[PageOf(b)].(cnt := arenas[PageOf(b)].cnt - 1)];
      live := live + {b};
    }

    /** A block of class d. */
    method MallocClass(d: nat) returns (r: Result)
      requires Valid() && d < DESC_CNT
      modifies this, vm
      ensures r.Panic? ==> Exhausted(old(vm.B()), vm.B(), pf, 1)
      ensures r.Null? ==> Valid() && H() == old(H()) && vm.B() == old(vm.B()) && NoRun(vm.B(), pf, 1)
      ensures r.Ptr? ==> Valid() && Allocated(old(H()), H(), r.addr, Size(d)) && Extent(H(), r.addr) == Size(d)
      ensures |old(lists)| == DESC_CNT && (old(lists)[d] != [] ==> r.Ptr?)
      ensures r.Ptr? ==> FromHead(old(H()), H(), r.addr, d)
    {
      ghost var newest := 0;
      ExtentsKept(H(), H());
      if lists[d] == [] {
        var a := NewArena(d);
        match a
        case Panic => return Panic;
        case Null => return Null;
        case Pages(page) => newest := page;
      }
      ghost var h := H();
      var b := TakeBlock(d, old(H()), newest);
      HeadIs(old(H()), h, H(), b, d, newest);
      return Ptr(b);
    }

    /** The branch of sys_malloc up to 1024 bytes. */
    method MallocSmall(size: nat) returns (r: Result)
      requires Valid() && 0 < size <= 1024
      modifies this, vm
      ensures r.Panic? ==> Exhausted(old(vm.B()), vm.B(), pf, 1)
      ensures r.Null? ==> Valid() && H() == old(H()) && vm.B() == old(vm.B()) && NoRun(vm.B(), pf, 1)
      ensures r.Ptr? ==> Valid() && Allocated(old(H()), H(), r.addr, size) && RightSize(size, Extent(H(), r.addr))
      ensures r.Ptr? ==> ByClass(old(H()), H(), r.addr)
      ensures |old(lists)| == DESC_CNT
      ensures forall d: nat :: d < DESC_CNT && RightSize(size, Size(d)) && old(lists)[d] != [] ==> r.Ptr?
    {
      var d := Fit(size);
      FitIsRight(size, d);
      ClassIsOne(size, d);
      r := MallocClass(d);
      if r.Ptr? {
        OneClass(old(H()), H(), r.addr, d);
      }
    }

    /** sys_malloc */
    method Malloc(size: nat) returns (r: Result)
      requires Valid()
      modifies this, vm
      ensures r.Panic? ==> Exhausted(old(vm.B()), vm.B(), pf, PagesFor(size))
      ensures r.Null? ==> Valid() && H() == old(H()) && vm.B() == old(vm.B())
      ensures r.Null? ==> !(0 < size < poolSize) || NoRun(vm.B(), pf, PagesFor(size))
      ensures r.Ptr? ==> Valid() && Allocated(old(H()), H(), r.addr, size) && RightSize(size, Extent(H(), r.addr))
      ensures r.Ptr? && size <= 1024 ==> ByClass(old(H()), H(), r.addr)
      ensures |old(lists)| == DESC_CNT
      ensures 0 < size <= 1024 && size < poolSize ==>
                forall d: nat :: d < DESC_CNT && RightSize(size, Size(d)) && old(lists)[d] != [] ==> r.Ptr?
      ensures r.Ptr? && size > 1024 ==> r.addr == PageOf(r.addr) * 4096 + 12 && lists == old(lists)
      ensures !(0 < size < poolSize) ==> r.Null?
    {
      if !(0 < size < poolSize) {
        return Null;
      }
      if size > 1024 {
        r := MallocLarge(size);
      } else {
        r := MallocSmall(size);
      }
    }

    /** The branch of sys_free for a pointer to whole pages. */
    method FreeLarge(b: nat)
      requires Valid() && b in live && PageOf(b) in arenas && arenas[PageOf(b)].Large? && LiveOk(H(), b)
      modifies this, vm
      ensures Valid() && live == old(live) - {b} && arenas == old(arenas) - {PageOf(b)} && lists == old(lists)
    {
      var page := PageOf(b);
      DropLarge(H(), vm.mapping, before, pf, page);
      PutPages(page, arenas[page].cnt);
      ghost var h := H();
      live := live - {b};
      arenas := arenas - {page};
      Dropped(h, H(), old(vm.mapping), vm.mapping, before, pf, page);
    }

    /** list_append of the block, and the free count of its arena. */
    method GiveBlock(b: nat)
      requires Valid() && b in live && PageOf(b) in arenas && arenas[PageOf(b)].Small?
      modifies this
      ensures VmOk() && Good0(H(), vm.mapping, before, pf) && InUse(H(), PageOf(b)) && live == old(live) - {b}
      ensures var a := old(arenas[PageOf(b)]);
              && arenas == old(arenas)[PageOf(b) := a.(cnt := a.cnt + 1)] && a.desc < DESC_CNT
                 && a.cnt + 1 <= Blocks(a.desc)
              && lists == old(lists)[a.desc := old(lists[a.desc]) + [b]]
    {
      GiveBack(H(), vm.mapping, before, pf, b);
      var page := PageOf(b);
      var d := arenas[page].desc;
      lists := lists[d := lists[d] + [b]];
      arenas := arenas[page := arenas[page].(cnt := arenas[page].cnt + 1)];
      live := live - {b};
    }

    /** The page of a wholly free arena goes back, and its blocks leave the list. */
    method ReturnArena(page: nat)
      requires VmOk() && Good0(H(), vm.mapping, before, pf) && InUse(H(), page) && page in arenas && arenas[page].Small?
      requires arenas[page].desc < DESC_CNT && arenas[page].cnt == Blocks(arenas[page].desc)
      modifies this, vm
      ensures Valid() && live == old(live) && arenas == old(arenas) - {page}
      ensures var d := old(arenas[page].desc); lists == old(lists)[d := Elsewhere(old(lists[d]), page)]
    {
      var d := arenas[page].desc;
      WhollyFree(H(), vm.mapping, before, pf, page);
      var list := Sweep(lists[d], page, d);
      DroppedSound(H(), page, list);
      ghost var h := H();
      lists := lists[d := list];
      PutPages(page, 1);
      arenas := arenas - {page};
      Dropped(h, H(), old(vm.mapping), vm.mapping, before, pf, page);
    }

    /** The branch of sys_free for a block of an arena. */
    method FreeSmall(b: nat)
      requires Valid() && b in live && PageOf(b) in arenas && arenas[PageOf(b)].Small?
      modifies this, vm
      ensures Valid() && live == old(live) - {b}
      ensures forall p <- arenas :: p in old(arenas) && SameKind(old(arenas)[p], arenas[p])
      ensures var d := old(arenas[PageOf(b)].desc);
              d < DESC_CNT == |old(lists)| && ToTail(old(H()), H(), b, d)
    {
      var page := PageOf(b);
      GiveBlock(b);
      NotElsewhere(old(lists)[arenas[page].desc], b);
      if arenas[page].cnt == Blocks(arenas[page].desc) {
        ReturnArena(page);
      } else {
        NotIdle(H(), page);
      }
    }

    /** sys_free of a live pointer.  An arena whose blocks are all free gives its page back. */
    method Free(b: nat)
      requires Valid() && b in live
      modifies this, vm
      ensures Valid() && live == old(live) - {b} && ExtentsStay(old(H()), H()) && LiveOk(old(H()), b)
      ensures var a := old(arenas[PageOf(b)]);
              if a.Large? then lists == old(lists) && arenas == old(arenas) - {PageOf(b)}
              else a.desc < DESC_CNT == |old(lists)| && ToTail(old(H()), H(), b, a.desc)
    {
      assert LiveOk(H(), b);
      if arenas[PageOf(b)].Large? {
        FreeLarge(b);
      } else {
        FreeSmall(b);
      }
      ExtentsLeft(old(H()), H());
    }
  }

  lemma NotIdle(h: Heap, page: nat)
    requires InUse(h, page) && page in h.arenas && h.arenas[page].Small? && h.arenas[page].desc < DESC_CNT
    requires h.arenas[page].cnt < Blocks(h.arenas[page].desc)
    ensures InUse(h, 0)
  {
    forall p | p != 0 ensures !Idle(h, p) {
      assert p == page || !Idle(h, p);
    }
  }

  /** The heap and the page table fit together. */
  ghost predicate Good0(h: Heap, mapping: map<nat, nat>, before: P.Books, pf: P.PoolFlag) {
    && Sound(h) && 0 !in h.arenas && before.Layout()
    && Linked(h, mapping, before.mapping, before.SpaceOf(pf))
  }

  ghost predicate Good(h: Heap, mapping: map<nat, nat>, before: P.Books, pf: P.PoolFlag) {
    Good0(h, mapping, before, pf) && InUse(h, 0)
  }

  /** b is a new live pointer to at least `size` bytes; the other live pointers keep theirs. */
  ghost predicate Allocated(h: Heap, h': Heap, b: nat, size: nat) {
    && b !in h.live && h'.live == h.live + {b}
    && LiveOk(h', b) && Extent(h', b) >= size
    && forall c {:trigger SameExtent(h, h', c)} :: c in h.live ==> SameExtent(h, h', c)
  }

  ghost predicate SameExtent(h: Heap, h': Heap, c: nat) {
    LiveOk(h, c) && LiveOk(h', c) && Extent(h', c) == Extent(h, c)
  }

  lemma StillInUse(h: Heap, h': Heap, page: nat, page': nat)
    requires InUse(h, page) && forall p <- h'.arenas :: p != page' ==>
               p in h.arenas && p != page && h'.arenas[p] == h.arenas[p]
    ensures InUse(h', page')
  {
    forall p | p != page' ensures !Idle(h', p) {
      assert p == page || !Idle(h, p);
    }
  }

  lemma ExtentsKept(h: Heap, h': Heap)
    requires Sound(h) && forall p <- h.arenas :: p in h'.arenas && SameKind(h.arenas[p], h'.arenas[p])
    ensures forall c {:trigger SameExtent(h, h', c)} :: c in h.live ==> SameExtent(h, h', c)
  {
    forall c <- h.live ensures SameExtent(h, h', c) {
      assert LiveOk(h, c);
    }
  }

  /** The pointers still live keep their extent. */
  ghost predicate ExtentsStay(h: Heap, h': Heap) {
    forall c {:trigger SameExtent(h, h', c)} :: c in h'.live ==> SameExtent(h, h', c)
  }

  lemma ExtentsLeft(h: Heap, h': Heap)
    requires Sound(h) && Sound(h') && h'.live <= h.live
    requires forall p <- h'.arenas :: p in h.arenas && SameKind(h.arenas[p], h'.arenas[p])
    ensures ExtentsStay(h, h')
  {
    forall c <- h'.live ensures SameExtent(h, h', c) {
      assert LiveOk(h, c) && LiveOk(h', c);
    }
  }

  ghost predicate SameKind(a: Arena, a': Arena) {
    a' == a || (a.Small? && a'.Small? && a'.desc == a.desc)
  }

  lemma ArenaPages(h: Heap)
    requires Sound(h)
    ensures forall p <- h.arenas :: h.arenas[p].PageCount() >= 1
  {
    forall p <- h.arenas ensures h.arenas[p].PageCount() >= 1 {
      assert ArenaOk(h, p);
    }
  }

  lemma AddLarge(h: Heap, m: map<nat, nat>, m': map<nat, nat>, before: P.Books, pf: P.PoolFlag, page: nat, cnt: nat)
    requires Good(h, m, before, pf) && P.Extends(m, m', page, cnt) && cnt >= 1
    requires P.InSpace(before.SpaceOf(pf), page, cnt)
    ensures var b := page * PG_SIZE + HEADER;
            var h' := Heap(h.lists, h.arenas[page := Large(cnt)], h.live + {b});
            Good(h', m', before, pf) && Allocated(h, h', b, cnt * PG_SIZE - HEADER)
  {
    var b := page * PG_SIZE + HEADER;
    var h' := Heap(h.lists, h.arenas[page := Large(cnt)], h.live + {b});
    ArenaPages(h);
    FreshOutside(h, m, m', before.mapping, before.SpaceOf(pf), page, cnt);
    LargeSound(h, page, cnt);
    LinkedMore(h, h', m, m', before.mapping, before.SpaceOf(pf), page, cnt);
    assert PageOf(b) == page;
    ExtentsKept(h, h');
    forall p | p != 0 ensures !Idle(h', p) {
      assert !Idle(h, p);
    }
  }

  /** Every live pointer keeps its extent. */
  ghost predicate LiveKept(h: Heap, h': Heap) {
    h'.live == h.live && forall c {:trigger SameExtent(h, h', c)} :: c in h.live ==> SameExtent(h, h', c)
  }

  lemma AddSmall(h: Heap, m: map<nat, nat>, m': map<nat, nat>, before: P.Books, pf: P.PoolFlag, d: nat, page: nat)
    requires Good(h, m, before, pf) && P.Extends(m, m', page, 1) && P.InSpace(before.SpaceOf(pf), page, 1)
    requires d < DESC_CNT && h.lists[d] == []
    ensures var h' := Grown(h, d, page);
            && Good0(h', m', before, pf) && InUse(h', page) && LiveKept(h, h')
            && PageOf(h'.lists[d][0]) == page && page != 0 && page !in h.arenas
  {
    var h' := Grown(h, d, page);
    ArenaPages(h);
    FreshOutside(h, m, m', before.mapping, before.SpaceOf(pf), page, 1);
    GrownSound(h, d, page);
    LinkedMore(h, h', m, m', before.mapping, before.SpaceOf(pf), page, 1);
    BlockInArena(page, d, 0);
    ExtentsKept(h, h');
    StillInUse(h, h', 0, page);
  }

  lemma TakeFirst(h0: Heap, h: Heap, m: map<nat, nat>, before: P.Books, pf: P.PoolFlag, d: nat, newest: nat)
    requires Good0(h, m, before, pf) && InUse(h, newest) && LiveKept(h0, h)
    requires d < DESC_CNT && h.lists[d] != [] && (newest == 0 || PageOf(h.lists[d][0]) == newest)
    ensures PageOf(h.lists[d][0]) in h.arenas && h.arenas[PageOf(h.lists[d][0])].cnt > 0
    ensures Good(Taken(h, d), m, before, pf) && Allocated(h0, Taken(h, d), h.lists[d][0], Size(d))
    ensures Extent(Taken(h, d), h.lists[d][0]) == Size(d) && Taken(h, d).arenas.Keys == h.arenas.Keys
  {
    TakenSound(h, d);
    var h' := Taken(h, d);
    LinkedSame(h, h', m, before.mapping, before.SpaceOf(pf));
    forall p | p != 0 ensures !Idle(h', p) {
      assert !Idle(h, p) || p == newest;
    }
    ExtentsKept(h, h');
    forall c <- h0.live ensures SameExtent(h0, h', c) {
      assert SameExtent(h0, h, c) && SameExtent(h, h', c);
    }
  }

  lemma GiveBack(h: Heap, m: map<nat, nat>, before: P.Books, pf: P.PoolFlag, b: nat)
    requires Good(h, m, before, pf) && b in h.live && PageOf(b) in h.arenas && h.arenas[PageOf(b)].Small?
    ensures h.arenas[PageOf(b)].desc < DESC_CNT && |h.lists| == DESC_CNT
    ensures Good0(Given(h, b), m, before, pf) && InUse(Given(h, b), PageOf(b))
    ensures Given(h, b).arenas[PageOf(b)].cnt <= Blocks(h.arenas[PageOf(b)].desc)
  {
    GivenSound(h, b);
    var h' := Given(h, b);
    LinkedSame(h, h', m, before.mapping, before.SpaceOf(pf));
    var d := h.arenas[PageOf(b)].desc;
    assert ArenaOk(h', PageOf(b));
    AllIndices(h'.live, PageOf(b), d);
    SubsetSize(FreeIdx(h'.live, PageOf(b), d), Upto(Blocks(d)));
    forall p | p != PageOf(b) ensures !Idle(h', p) {
      assert !Idle(h, p);
    }
  }

  /** Every block of a wholly free arena is in its list, and the arena's page can be given back. */
  lemma WhollyFree(h: Heap, m: map<nat, nat>, before: P.Books, pf: P.PoolFlag, page: nat)
    requires Good0(h, m, before, pf) && page in h.arenas && h.arenas[page].Small?
    requires h.arenas[page].desc < DESC_CNT && h.arenas[page].cnt == Blocks(h.arenas[page].desc)
    ensures var d := h.arenas[page].desc;
            && Distinct(h.lists[d])
            && (forall i :: 0 <= i < Blocks(d) ==> BlockAddr(page, d, i) in h.lists[d])
            && (forall b <- h.lists[d] :: PageOf(b) == page ==> IsBlock(d, b))
            && page in m && P.InSpace(before.SpaceOf(pf), page, 1)
  {
    var d := h.arenas[page].desc;
    assert ArenaOk(h, page) && ListOk(h, d);
    AllIndices(h.live, page, d);
    forall i | 0 <= i < Blocks(d) ensures BlockAddr(page, d, i) in h.lists[d] {
      BlockInArena(page, d, i);
    }
    assert Covered(h, page);
  }

  lemma DropLarge(h: Heap, m: map<nat, nat>, before: P.Books, pf: P.PoolFlag, page: nat)
    requires Good(h, m, before, pf) && page in h.arenas && h.arenas[page].Large?
    ensures var cnt := h.arenas[page].cnt;
            && cnt >= 1 && P.InSpace(before.SpaceOf(pf), page, cnt)
            && (forall p :: page <= p < page + cnt ==> p in m)
            && Sound(Heap(h.lists, h.arenas - {page}, h.live - {page * PG_SIZE + HEADER}))
  {
    assert ArenaOk(h, page);
    UnlargeSound(h, page);
    forall p: nat | page <= p < page + h.arenas[page].cnt ensures p in m {
      assert page in h.arenas && page <= p < page + h.arenas[page].PageCount();
      assert Covered(h, p);
    }
  }

  /** The arena at `page` is gone, and its pages with it. */
  lemma Dropped(h: Heap, h': Heap, m: map<nat, nat>, m': map<nat, nat>, before: P.Books, pf: P.PoolFlag, page: nat)
    requires Good0(h, m, before, pf) && page in h.arenas && InUse(h, page) && Sound(h')
    requires P.Extends(m', m, page, h.arenas[page].PageCount()) && h'.arenas == h.arenas - {page}
    ensures Good(h', m', before, pf)
  {
    LinkedLess(h, h', m, m', before.mapping, before.SpaceOf(pf), page, h.arenas[page].PageCount());
    StillInUse(h, h', page, 0);
  }

  /** When everything has been freed, no arena is left, every free list is empty, and both spaces, both pools and
      the page table are those from before the first call, but for the page tables that user pages needed. */
  lemma FreeingAllRestores(g: Manager)
    requires g.Valid() && g.live == {}
    ensures g.arenas == map[] && forall d :: 0 <= d < DESC_CNT ==> g.lists[d] == []
    ensures P.SameButTables(g.before, g.vm.B())
    ensures g.pf.Kernel? ==> g.vm.B() == g.before
  {
    AllFree(g.H());
    assert forall p: nat :: !Covered(g.H(), p);
    P.BooksDetermined(g.before, g.vm.B(), g.pf);
  }
}
