/** The page allocator of kernel/memory.c: virtual pages, frames and the page table between them. */
module Pages {
  import opened Options
  import opened Paging
  import Bitmaps

  datatype PoolFlag = Kernel | User

  /** struct pool: frames from number `start` on, one bit each. */
  datatype Pool = Pool(start: nat, bits: seq<bool>) {
    predicate Has(frame: nat) {
      start <= frame < start + |bits|
    }

    predicate Marks(frame: nat)
      requires Has(frame)
    {
      bits[frame - start]
    }

    predicate Full() {
      forall i :: 0 <= i < |bits| ==> bits[i]
    }

    function With(frame: nat, value: bool): Pool
      requires Has(frame)
    {
      Pool(start, bits[frame - start := value])
    }
  }

  /** struct virtual_addr: pages from number `start` on, one bit each. */
  datatype Space = Space(start: nat, bits: seq<bool>) {
    predicate Has(page: nat) {
      start <= page < start + |bits|
    }

    predicate Marks(page: nat)
      requires Has(page)
    {
      bits[page - start]
    }

    predicate Full() {
      forall i :: 0 <= i < |bits| ==> bits[i]
    }

    function With(page: nat, value: bool): Space
      requires Has(page)
    {
      Space(start, bits[page - start := value])
    }
  }

  /** Panic: an ASSERT stopped the kernel.  Null: malloc_page returned NULL. */
  datatype Alloc = Panic | Null | Pages(page: nat)

  ghost predicate SpaceExact(space: Space, mapped: set<nat>, lo: nat, hi: nat) {
    forall page: nat {:trigger space.Marks(page)} :: space.Has(page) ==>
             (space.Marks(page) <==> page in mapped || lo <= page < hi)
  }

  ghost predicate PoolExact(pool: Pool, reserved: set<nat>, used: set<nat>) {
    forall frame: nat {:trigger pool.Marks(frame)} :: pool.Has(frame) ==>
             (pool.Marks(frame) <==> frame in reserved || frame in used)
  }

  // ---------------------------------------------------------------- accounting

  ghost predicate Clash(m: map<nat, nat>, p: nat, q: nat) {
    p in m && q in m && p != q && m[p] == m[q]
  }

  ghost predicate Injective(m: map<nat, nat>) {
    forall p, q :: !Clash(m, p, q)
  }

  /** The bitmaps against what they account for.  `mapping` is what the page table says about the two
      heaps; `reserved` are the frames that hold page tables or belong to somebody else. */
  datatype Books = Books(
    kernelPool: Pool, userPool: Pool, kernelSpace: Space, userSpace: Space,
    mapping: map<nat, nat>, reserved: set<nat>)
  {
    /** Frames: kernel pool below user pool.  Pages: user heap below 3 GB and above the low 4 MB that
        the loader aliases, kernel heap from K_HEAP_START to the self-map. */
    ghost predicate Layout() {
      && 0x102 <= kernelPool.start && kernelPool.start + |kernelPool.bits| <= userPool.start
      && 1024 <= userSpace.start && userSpace.start + |userSpace.bits| <= 0xc0000
      && 0xc0100 <= kernelSpace.start && kernelSpace.start + |kernelSpace.bits| <= 1023 * 1024
    }

    ghost predicate Heap(page: nat) {
      kernelSpace.Has(page) || userSpace.Has(page)
    }

    function PoolOf(pf: PoolFlag): Pool {
      if pf.Kernel? then kernelPool else userPool
    }

    function SpaceOf(pf: PoolFlag): Space {
      if pf.Kernel? then kernelSpace else userSpace
    }

    function WithPool(pf: PoolFlag, pool: Pool): Books {
      if pf.Kernel? then this.(kernelPool := pool) else this.(userPool := pool)
    }

    function WithSpace(pf: PoolFlag, space: Space): Books {
      if pf.Kernel? then this.(kernelSpace := space) else this.(userSpace := space)
    }

    /** A mapped page has a frame of its own pool that is not reserved. */
    ghost predicate OwnFrame(p: nat)
      requires p in mapping
    {
      && mapping[p] !in reserved
      && ((kernelSpace.Has(p) && kernelPool.Has(mapping[p])) || (userSpace.Has(p) && userPool.Has(mapping[p])))
    }

    /** Both kinds of bitmap say what `mapping` says; pages lo to hi are marked but not mapped. */
    ghost predicate Balanced(lo: nat, hi: nat) {
      && Layout() && Injective(mapping)
      && (forall p {:trigger OwnFrame(p)} :: p in mapping ==> OwnFrame(p))
      && (forall page {:trigger Heap(page)} :: lo <= page < hi ==> Heap(page) && page !in mapping)
      && SpaceExact(kernelSpace, mapping.Keys, lo, hi) && SpaceExact(userSpace, mapping.Keys, lo, hi)
      && PoolExact(kernelPool, reserved, mapping.Values) && PoolExact(userPool, reserved, mapping.Values)
    }
  }

  lemma ValuesAdd(m: map<nat, nat>, k: nat, x: nat)
    requires k !in m && x !in m.Values && Injective(m)
    ensures m[k := x].Values == m.Values + {x} && Injective(m[k := x])
  {
    var m' := m[k := x];
    assert m'[k] == x;
    forall p, q ensures !Clash(m', p, q) {
      assert !Clash(m, p, q);
      assert p in m ==> m[p] in m.Values;
      assert q in m ==> m[q] in m.Values;
    }
    forall y | y in m.Values ensures y in m'.Values {
      var j :| j in m && m[j] == y;
      assert m'[j] == y;
    }
  }

  lemma ValuesRemove(m: map<nat, nat>, k: nat)
    requires k in m && Injective(m)
    ensures (m - {k}).Values == m.Values - {m[k]} && Injective(m - {k})
  {
    var m' := m - {k};
    forall p, q ensures !Clash(m', p, q) {
      assert !Clash(m, p, q);
    }
    forall j | j in m' ensures m'[j] != m[k] {
      assert !Clash(m, j, k);
    }
    forall y | y in m.Values - {m[k]} ensures y in m'.Values {
      var j :| j in m && m[j] == y;
      assert m'[j] == y;
    }
  }

  lemma MarkFrame(pool: Pool, reserved: set<nat>, used: set<nat>, frame: nat)
    requires PoolExact(pool, reserved, used) && (pool.Has(frame) ==> !pool.Marks(frame))
    ensures pool.Has(frame) ==>
              && frame !in reserved && frame !in used
              && PoolExact(pool.With(frame, true), reserved + {frame}, used)
              && PoolExact(pool.With(frame, true), reserved, used + {frame})
    ensures !pool.Has(frame) ==> PoolExact(pool, reserved + {frame}, used) && PoolExact(pool, reserved, used + {frame})
  {
    if pool.Has(frame) {
      forall f: nat | pool.Has(f) ensures pool.With(frame, true).Marks(f) == (f == frame || pool.Marks(f)) {
      }
    }
  }

  lemma MapPending(space: Space, mapped: set<nat>, page: nat, hi: nat)
    requires SpaceExact(space, mapped, page, hi) && page < hi
    ensures SpaceExact(space, mapped + {page}, page + 1, hi)
  {
  }

  lemma OwnFrameKept(b: Books, b': Books, p: nat)
    requires p in b.mapping && p in b'.mapping && b'.mapping[p] == b.mapping[p] && b.OwnFrame(p)
    requires b'.mapping[p] !in b'.reserved && b'.kernelSpace.Has(p) == b.kernelSpace.Has(p)
    requires b'.userSpace.Has(p) == b.userSpace.Has(p)
    requires b'.kernelPool.start == b.kernelPool.start && |b'.kernelPool.bits| == |b.kernelPool.bits|
    requires b'.userPool.start == b.userPool.start && |b'.userPool.bits| == |b.userPool.bits|
    ensures b'.OwnFrame(p)
  {
  }

  /** A page that was marked gets a free frame of its pool. */
  lemma BookFrame(b: Books, pf: PoolFlag, page: nat, hi: nat, frame: nat)
    requires b.Balanced(page, hi) && page < hi && b.SpaceOf(pf).Has(page)
    requires b.PoolOf(pf).Has(frame) && !b.PoolOf(pf).Marks(frame)
    ensures b.WithPool(pf, b.PoolOf(pf).With(frame, true)).(mapping := b.mapping[page := frame]).Balanced(page + 1, hi)
  {
    var b' := b.WithPool(pf, b.PoolOf(pf).With(frame, true)).(mapping := b.mapping[page := frame]);
    assert b.Heap(page) && page !in b.mapping;
    MarkFrame(b.kernelPool, b.reserved, b.mapping.Values, frame);
    MarkFrame(b.userPool, b.reserved, b.mapping.Values, frame);
    ValuesAdd(b.mapping, page, frame);
    assert b'.mapping.Keys == b.mapping.Keys + {page};
    MapPending(b.kernelSpace, b.mapping.Keys, page, hi);
    MapPending(b.userSpace, b.mapping.Keys, page, hi);
    forall p <- b'.mapping ensures b'.OwnFrame(p) {
      if p != page {
        OwnFrameKept(b, b', p);
      }
    }
    BookFrameRest(b, b', page, hi, frame);
  }

  lemma BookFrameRest(b: Books, b': Books, page: nat, hi: nat, frame: nat)
    requires b'.mapping == b.mapping[page := frame]
    requires b'.kernelSpace == b.kernelSpace && b'.userSpace == b.userSpace
    requires b.Balanced(page, hi)
    ensures forall p :: page + 1 <= p < hi ==> b'.Heap(p) && p !in b'.mapping
  {
    forall p | page + 1 <= p < hi ensures b'.Heap(p) && p !in b'.mapping {
      assert b.Heap(p);
    }
  }

  /** A page table takes a free frame of the kernel pool. */
  lemma BookTable(b: Books, lo: nat, hi: nat, table: nat)
    requires b.Balanced(lo, hi) && b.kernelPool.Has(table) && !b.kernelPool.Marks(table)
    ensures b.(kernelPool := b.kernelPool.With(table, true), reserved := b.reserved + {table}).Balanced(lo, hi)
  {
    MarkFrame(b.kernelPool, b.reserved, b.mapping.Values, table);
    MarkFrame(b.userPool, b.reserved, b.mapping.Values, table);
    var b' := b.(kernelPool := b.kernelPool.With(table, true), reserved := b.reserved + {table});
    assert forall p <- b.mapping :: b.mapping[p] in b.mapping.Values;
    forall p <- b'.mapping ensures b'.OwnFrame(p) {
      OwnFrameKept(b, b', p);
    }
    forall p | lo <= p < hi ensures b'.Heap(p) && p !in b'.mapping {
      assert b.Heap(p);
    }
  }

  /** The directory is well formed, no two heap tables are one frame, the tables of the kernel heap exist
      since boot, and no table is free. */
  ghost predicate TablesFine(m: Memory, dir: nat, kernelSpace: Space, reserved: set<nat>) {
    && Tables(m, dir)
    && Unshared(m, dir)
    && (forall page: nat :: kernelSpace.Has(page) ==> Present(Pde(m, dir, page)))
    && dir in reserved
    && (forall i :: 0 <= i < 1023 && Present(Read(m, Loc(dir, i))) ==>
          FrameOf(Read(m, Loc(dir, i))) in reserved && UserBit(Read(m, Loc(dir, i))) && WriteBit(Read(m, Loc(dir, i))))
  }

  ghost predicate Shared(m: Memory, dir: nat, i: nat, j: nat) {
    && Present(Read(m, Loc(dir, i))) && Present(Read(m, Loc(dir, j)))
    && FrameOf(Read(m, Loc(dir, i))) == FrameOf(Read(m, Loc(dir, j)))
  }

  ghost predicate Unshared(m: Memory, dir: nat) {
    forall i, j :: 1 <= i < j < 1023 ==> !Shared(m, dir, i, j)
  }

  /** On the heap pages, the page table is `mapping`. */
  ghost predicate Translates(m: Memory, dir: nat, b: Books) {
    forall page: nat {:trigger b.Heap(page)} :: b.Heap(page) ==>
      Lookup(m, dir, page) == if page in b.mapping then Some(Open(b.mapping[page])) else None
  }

  lemma TranslatesNothing(m: Memory, dir: nat, b: Books)
    requires b.mapping == map[] && forall page: nat :: b.Heap(page) ==> Lookup(m, dir, page).None?
    ensures Translates(m, dir, b)
  {
  }

  /** A write in user mode reaches the frame of every page of the run. */
  lemma HeapReached(m: Memory, dir: nat, b: Books, was: map<nat, nat>, pf: PoolFlag, page: nat, cnt: nat)
    requires Translates(m, dir, b) && Extends(was, b.mapping, page, cnt) && InSpace(b.SpaceOf(pf), page, cnt)
    ensures forall p: nat :: page <= p < page + cnt ==> p in b.mapping && UserWrite(m, dir, p) == Some(b.mapping[p])
  {
    forall p: nat | page <= p < page + cnt ensures p in b.mapping && UserWrite(m, dir, p) == Some(b.mapping[p]) {
      assert b.Heap(p);
    }
  }

  lemma TranslatesStill(m: Memory, dir: nat, b: Books, b': Books)
    requires Translates(m, dir, b) && SameShape(b, b') && b'.mapping == b.mapping
    ensures Translates(m, dir, b')
  {
    forall q: nat | b'.Heap(q)
      ensures Lookup(m, dir, q) == if q in b'.mapping then Some(Open(b'.mapping[q])) else None
    {
      assert b.Heap(q);
    }
  }

  lemma Retranslates(m: Memory, m': Memory, dir: nat, b: Books, b': Books, page: nat)
    requires b.Layout() && Translates(m, dir, b) && SameShape(b, b')
    requires Lookup(m', dir, page) == if page in b'.mapping then Some(Open(b'.mapping[page])) else None
    requires forall q :: 1024 <= q && Ordinary(q) && q != page ==> Lookup(m', dir, q) == Lookup(m, dir, q)
    requires b'.mapping - {page} == b.mapping - {page}
    ensures Translates(m', dir, b')
  {
    forall q: nat | b'.Heap(q)
      ensures Lookup(m', dir, q) == if q in b'.mapping then Some(Open(b'.mapping[q])) else None
    {
      if q != page {
        assert b.Heap(q) && Ordinary(q);
        assert q in b.mapping <==> q in b.mapping - {page};
        assert q in b'.mapping <==> q in b'.mapping - {page};
      }
    }
  }

  ghost function Frames(lo: nat, hi: nat): (r: set<nat>)
    ensures forall f :: f in r <==> lo <= f < hi
    decreases hi - lo
  {
    if lo >= hi then {} else {lo} + Frames(lo + 1, hi)
  }

  const BOOT_DIR := 0x100

  /** What setup_page of the loader leaves: entries 0 and 768 share the first table, 769 to 1022 have the
      next ones, 1023 is the self-map, and nothing above the first megabyte is mapped. */
  ghost predicate BootTables(m: Memory) {
    && (forall i :: 0 <= i < 1024 ==>
          Read(m, Loc(BOOT_DIR, i)) ==
          if i == 0 then Entry(0x101) else if 768 <= i < 1023 then Entry(0x101 + i - 768)
          else if i == 1023 then Entry(BOOT_DIR) else 0)
    && (forall table, i :: 0x101 <= table < 0x200 && 0 <= i < 1024 && (table == 0x101 ==> i >= 256) ==>
          !Present(Read(m, Loc(table, i))))
  }

  /** The upper quarter of a directory, as the loader leaves it: the tables of the kernel. */
  ghost predicate KernelTables(m: Memory, dir: nat) {
    forall i :: 768 <= i < 1023 ==> Read(m, Loc(dir, i)) == Entry(0x101 + i - 768)
  }

  ghost function Marked(pool: Pool): (r: set<nat>)
    ensures forall f :: f in r <==> pool.Has(f) && pool.Marks(f)
  {
    set f | pool.start <= f < pool.start + |pool.bits| && pool.Has(f) && pool.Marks(f)
  }

  /** A directory with the kernel's tables and the self-map only. */
  ghost predicate ProcessTables(m: Memory, dir: nat) {
    forall k: nat :: k < 1024 ==>
      Read(m, Loc(dir, k)) == if k == 1023 then Entry(dir) else if 768 <= k then Entry(0x101 + k - 768) else 0
  }

  /** create_page_dir in frame f: the memset of get_kernel_pages, the memcpy of the upper quarter, and the last entry.
      */
  method CreatePageDir(m: Memory, kernelDir: nat, f: nat) returns (m': Memory)
    requires KernelTables(m, kernelDir) && kernelDir != f
    ensures ProcessTables(m', f) && forall loc: Loc :: loc.frame != f ==> Read(m', loc) == Read(m, loc)
  {
    m' := m;
    var i := 0;
    while i < 1024
      invariant 0 <= i <= 1024 && (forall k: nat :: k < i ==> Read(m', Loc(f, k)) == 0)
      invariant forall loc: Loc :: loc.frame != f ==> Read(m', loc) == Read(m, loc)
    {
      m' := m'[Loc(f, i) := 0];
      i := i + 1;
    }
    i := 768;
    while i < 1024
      invariant 768 <= i <= 1024
      invariant forall k: nat :: k < 1024 ==>
                  Read(m', Loc(f, k)) == if 768 <= k < i then Read(m, Loc(kernelDir, k)) else 0
      invariant forall loc: Loc :: loc.frame != f ==> Read(m', loc) == Read(m, loc)
    {
      m' := m'[Loc(f, i) := Read(m', Loc(kernelDir, i))];
      i := i + 1;
    }
    m' := m'[Loc(f, 1023) := Entry(f)];
  }

  /** bitmap_init */
  function ClearBits(n: nat): (bits: seq<bool>)
    ensures |bits| == n && forall k :: 0 <= k < n ==> !bits[k]
  {
    seq(n, _ => false)
  }

  /** One address space. */
  class Vm {
    const dir: nat
    var mem: Memory
    var kernelPool: Pool
    var userPool: Pool
    var kernelSpace: Space
    var userSpace: Space
    ghost var mapping: map<nat, nat>
    ghost var reserved: set<nat>

    ghost function B(): Books
      reads this
    {
      Books(kernelPool, userPool, kernelSpace, userSpace, mapping, reserved)
    }

    function PoolOf(pf: PoolFlag): Pool
      reads this
    {
      if pf.Kernel? then kernelPool else userPool
    }

    function SpaceOf(pf: PoolFlag): Space
      reads this
    {
      if pf.Kernel? then kernelSpace else userSpace
    }

    // -------------------------------------------------------------- invariants

    ghost predicate TablesOk()
      reads this
    {
      TablesFine(mem, dir, kernelSpace, reserved)
    }

    ghost predicate ValidBut(lo: nat, hi: nat)
      reads this
    {
      TablesOk() && Translates(mem, dir, B()) && B().Balanced(lo, hi)
    }

    ghost predicate Valid()
      reads this
    {
      ValidBut(0, 0)
    }

    /** mem_pool_init on a machine with all_mem bytes, after the loader has set up paging. */
    constructor (boot: Memory, all_mem: nat)
      requires BootTables(boot) && 0x20_0000 <= all_mem < ADDRESSES
      ensures Valid() && mapping == map[] && mem == boot && userSpace.bits == [] && dir == BOOT_DIR
      ensures kernelPool.start == 0x200 && AllClear(kernelPool.bits)
      ensures |kernelSpace.bits| == |kernelPool.bits| == (all_mem - 0x20_0000) / PAGE % 0x1_0000 / 16 * 8
    {
      var all_free_pages := (all_mem - (256 * PAGE + 0x10_0000)) / PAGE % 0x1_0000;
      var kernel_free_pages := all_free_pages / 2;
      var user_free_pages := all_free_pages - kernel_free_pages;
      var kbm_length := kernel_free_pages / 8;
      var ubm_length := user_free_pages / 8;
      dir := BOOT_DIR;
      mem := boot;
      kernelPool := Pool(0x200, ClearBits(kbm_length * 8));
      userPool := Pool(0x200 + kernel_free_pages, ClearBits(ubm_length * 8));
      kernelSpace := Space(0xc0100, ClearBits(kbm_length * 8));
      userSpace := Space(0x8048, []);
      mapping := map[];
      reserved := Frames(0x100, 0x200);
      HalvedEighth(all_free_pages);
      new;
      BootIsValid(boot, B());
    }

    /** An address space with that directory and those books. */
    constructor Of(mem: Memory, dir: nat, kernelPool: Pool, userPool: Pool, kernelSpace: Space, userSpace: Space,
                   ghost mapping: map<nat, nat>, ghost reserved: set<nat>)
      ensures this.mem == mem && this.dir == dir
      ensures B() == Books(kernelPool, userPool, kernelSpace, userSpace, mapping, reserved)
    {
      this.mem, this.dir, this.kernelPool, this.userPool := mem, dir, kernelPool, userPool;
      this.kernelSpace, this.userSpace, this.mapping, this.reserved := kernelSpace, userSpace, mapping, reserved;
    }

    // -------------------------------------------------------------- access through the MMU

    method Load(v: nat) returns (x: nat)
      requires WordAt(mem, dir, v).Some?
      ensures x == Read(mem, WordAt(mem, dir, v).value)
    {
      x := Read(mem, WordAt(mem, dir, v).value);
    }

    method Store(v: nat, x: nat)
      requires WordAt(mem, dir, v).Some?
      modifies this`mem
      ensures mem == old(mem)[old(WordAt(mem, dir, v)).value := x]
    {
      mem := mem[WordAt(mem, dir, v).value := x];
    }

    /** palloc; the scan panics when the pool is full. */
    method Palloc(pf: PoolFlag) returns (r: Option<nat>)
      modifies this`kernelPool, this`userPool
      ensures r.None? <==> old(PoolOf(pf)).Full()
      ensures r.None? ==> unchanged(this)
      ensures r.Some? ==>
                var pool := old(PoolOf(pf));
                && pool.Has(r.value) && !pool.Marks(r.value) && PoolOf(pf) == pool.With(r.value, true)
                && Bitmaps.FirstFit(pool.bits, |pool.bits|, 1) == Some(r.value - pool.start)
                && (pf.Kernel? ==> userPool == old(userPool)) && (pf.User? ==> kernelPool == old(kernelPool))
    {
      var pool := PoolOf(pf);
      var bit := Bitmaps.Answer(pool.bits, 1);
      if !bit.At? {
        return None;
      }
      assert !pool.bits[bit.start];
      var marked := Pool(pool.start, pool.bits[bit.start := true]);
      if pf.Kernel? {
        kernelPool := marked;
      } else {
        userPool := marked;
      }
      return Some(pool.start + bit.start);
    }

    // -------------------------------------------------------------- page_table_add

    /** memset of the page that the self-map shows the new table of v in. */
    method ClearTable(v: nat)
      requires Tables(mem, dir) && v < ADDRESSES && Ordinary(v / PAGE) && Present(Pde(mem, dir, v / PAGE))
      modifies this`mem
      ensures var table := FrameOf(old(Pde(mem, dir, v / PAGE)));
              && (forall loc: Loc :: loc.frame != table ==> Read(mem, loc) == old(Read(mem, loc)))
              && (forall i :: 0 <= i < 1024 ==> Read(mem, Loc(table, i)) == 0)
    {
      ghost var table := FrameOf(Pde(mem, dir, v / PAGE));
      var base := PtePtr(v) / PAGE * PAGE;
      var i := 0;
      while i < 1024
        invariant 0 <= i <= 1024 && Tables(mem, dir) && Pde(mem, dir, v / PAGE) == old(Pde(mem, dir, v / PAGE))
        invariant forall loc: Loc :: loc.frame != table ==> Read(mem, loc) == old(Read(mem, loc))
        invariant forall j :: 0 <= j < i ==> Read(mem, Loc(table, j)) == 0
      {
        TableWindow(mem, dir, v, i);
        Store(base + 4 * i, 0);
        i := i + 1;
      }
    }

    /** The directory entry of v, just written, and the cleared table behind it. */
    method AddTable(v: nat, table: nat)
      requires TablesOk() && v < ADDRESSES && Ordinary(v / PAGE) && !Present(Pde(mem, dir, v / PAGE))
      requires table !in reserved
      modifies this`mem, this`reserved
      ensures TablesOk() && reserved == old(reserved) + {table} && Pde(mem, dir, v / PAGE) == Entry(table)
      ensures forall q :: Ordinary(q) ==> Lookup(mem, dir, q) == old(Lookup(mem, dir, q))
    {
      PdePtrHits(mem, dir, v);
      Store(PdePtr(v), Entry(table));
      reserved := reserved + {table};
      ClearTable(v);
      NewTable(old(mem), mem, dir, v / PAGE, table, kernelSpace, old(reserved));
    }

    /** *pte_ptr(v) = entry, where v has a table. */
    method SetPte(v: nat, entry: nat)
      requires TablesOk() && v < ADDRESSES && Ordinary(v / PAGE) && Present(Pde(mem, dir, v / PAGE))
      modifies this`mem
      ensures TablesOk() && Pde(mem, dir, v / PAGE) == old(Pde(mem, dir, v / PAGE))
      ensures Pte(mem, dir, v / PAGE) == entry
      ensures Lookup(mem, dir, v / PAGE) ==
                if Present(entry) then Some(Compose(Pde(mem, dir, v / PAGE), entry)) else None
      ensures forall q :: Ordinary(q) && q != v / PAGE && !SameSlot(mem, dir, v / PAGE, q) ==>
                            Lookup(mem, dir, q) == old(Lookup(mem, dir, q))
    {
      PtePtrHits(mem, dir, v);
      WritePte(mem, dir, v / PAGE, entry);
      Store(PtePtr(v), entry);
      StillFine(old(mem), mem, dir, kernelSpace, reserved);
    }

    /** What page_table_add may do to the kernel pool: take one frame for the table of v, if it had none. */
    twostate predicate TableTaken(page: nat)
      reads this
    {
      var was := old(kernelPool);
      if old(Present(Pde(mem, dir, page))) then kernelPool == was && reserved == old(reserved)
      else
        var table := FrameOf(Pde(mem, dir, page));
        && reserved == old(reserved) + {table} && was.Has(table) && !was.Marks(table)
        && kernelPool == was.With(table, true)
    }

    /** The else branch of page_table_add. */
    method EnsureTable(v: nat) returns (ok: bool)
      requires TablesOk() && v < ADDRESSES && Ordinary(v / PAGE)
      requires forall f: nat :: kernelPool.Has(f) && f in reserved ==> kernelPool.Marks(f)
      modifies this`mem, this`kernelPool, this`userPool, this`reserved
      ensures ok <==> (old(Present(Pde(mem, dir, v / PAGE))) ||
                       !old(kernelPool).Full())
      ensures userPool == old(userPool)
      ensures !ok ==> kernelPool.Full()
      ensures ok ==> TablesOk() && Present(Pde(mem, dir, v / PAGE)) && TableTaken(v / PAGE)
      ensures ok ==> Pde(mem, dir, v / PAGE) ==
                     if old(Present(Pde(mem, dir, v / PAGE))) then old(Pde(mem, dir, v / PAGE))
                     else 4096 * FrameOf(Pde(mem, dir, v / PAGE)) + 7
      ensures ok ==> forall q :: Ordinary(q) ==> Lookup(mem, dir, q) == old(Lookup(mem, dir, q))
    {
      PdePtrHits(mem, dir, v);
      var pde := Load(PdePtr(v));
      if !Present(pde) {
        var table := Palloc(Kernel);
        if table.None? {
          return false;
        }
        AddTable(v, table.value);
      }
      return true;
    }

    /** page_table_add.  It stops on an ASSERT if the page is already mapped, or if a table is missing and
        the kernel pool has no frame for it.  Pages that share the word with v change with it; above 4 MB
        there are none. */
    method PageTableAdd(v: nat, frame: nat) returns (ok: bool)
      requires TablesOk() && v < ADDRESSES && Ordinary(v / PAGE)
      requires forall f: nat :: kernelPool.Has(f) && f in reserved ==> kernelPool.Marks(f)
      modifies this`mem, this`kernelPool, this`userPool, this`reserved
      ensures ok <==>
              && old(Lookup(mem, dir, v / PAGE)).None?
              && (old(Present(Pde(mem, dir, v / PAGE))) ||
                  !old(kernelPool).Full())
      ensures userPool == old(userPool)
      ensures !ok && old(Lookup(mem, dir, v / PAGE)).None? ==> kernelPool.Full()
      ensures ok ==> TablesOk() && TableTaken(v / PAGE) && Lookup(mem, dir, v / PAGE) == Some(Open(frame))
      ensures ok ==> Pte(mem, dir, v / PAGE) == 4096 * frame + 7
      ensures ok ==> Pde(mem, dir, v / PAGE) ==
                     if old(Present(Pde(mem, dir, v / PAGE))) then old(Pde(mem, dir, v / PAGE))
                     else 4096 * FrameOf(Pde(mem, dir, v / PAGE)) + 7
      ensures ok ==> forall q :: Ordinary(q) && q != v / PAGE && !SameSlot(mem, dir, v / PAGE, q) ==>
                                   Lookup(mem, dir, q) == old(Lookup(mem, dir, q))
      ensures ok && 1024 <= v / PAGE ==> forall q :: 1024 <= q && Ordinary(q) && q != v / PAGE ==>
                                   Lookup(mem, dir, q) == old(Lookup(mem, dir, q))
    {
      ok := EnsureTable(v);
      if !ok {
        return;
      }
      PtePtrHits(mem, dir, v);
      var pte := Load(PtePtr(v));
      if Present(pte) {
        return false;
      }
      SetPte(v, Entry(frame));
      if 1024 <= v / PAGE {
        OnlyOnePage(mem, dir, v / PAGE);
      }
    }

    // -------------------------------------------------------------- malloc_page

    /** The pool bits after a frame was taken for a page, and possibly one for its table. */
    ghost predicate Took(was: Books, pf: PoolFlag, page: nat, frame: nat)
      requires was.PoolOf(pf).Has(frame)
      reads this
    {
      var b := was.WithPool(pf, was.PoolOf(pf).With(frame, true));
      var table := FrameOf(Pde(mem, dir, page));
      || B() == b
      || (pf.User? && b.kernelPool.Has(table) && !b.kernelPool.Marks(table) &&
          B() == b.(kernelPool := b.kernelPool.With(table, true), reserved := b.reserved + {table}))
    }

    /** The body of the loop of malloc_page: a frame for the next page, and the translation. */
    method Attach(pf: PoolFlag, page: nat) returns (frame: Option<nat>)
      requires TablesOk() && B().Layout() && SpaceOf(pf).Has(page)
      requires forall f: nat :: kernelPool.Has(f) && f in reserved ==> kernelPool.Marks(f)
      modifies this`mem, this`kernelPool, this`userPool, this`reserved
      ensures frame.None? ==> old(Lookup(mem, dir, page)).Some? || PoolOf(pf).Full() || kernelPool.Full()
      ensures frame.Some? ==> TablesOk() && Lookup(mem, dir, page) == Some(Open(frame.value))
      ensures frame.Some? ==> forall q :: 1024 <= q && Ordinary(q) && q != page ==>
                                Lookup(mem, dir, q) == old(Lookup(mem, dir, q))
      ensures frame.Some? ==>
                && old(PoolOf(pf)).Has(frame.value) && !old(PoolOf(pf)).Marks(frame.value)
                && Took(old(B()), pf, page, frame.value)
    {
      frame := Palloc(pf);
      if frame.None? {
        return;
      }
      var v := page * PAGE;
      assert v / PAGE == page;
      var ok := PageTableAdd(v, frame.value);
      if !ok {
        frame := None;
      }
    }

    method MapOne(pf: PoolFlag, page: nat, ghost hi: nat) returns (ok: bool)
      requires ValidBut(page, hi) && page < hi && SpaceOf(pf).Has(page)
      modifies this`mem, this`kernelPool, this`userPool, this`reserved, this`mapping
      ensures !ok ==> PoolOf(pf).Full() || kernelPool.Full()
      ensures ok ==> SameShape(old(B()), B())
      ensures ok ==> ValidBut(page + 1, hi) && page in mapping && mapping == old(mapping)[page := mapping[page]]
      ensures ok ==> TablesAdded(old(B()), B(), pf)
    {
      assert B().Heap(page);
      var frame := Attach(pf, page);
      if frame.None? {
        return false;
      }
      mapping := mapping[page := frame.value];
      BookTaken(old(B()), B(), pf, page, hi, frame.value, FrameOf(Pde(mem, dir, page)));
      Retranslates(old(mem), mem, dir, old(B()), B(), page);
      return true;
    }

    /** The loops of vaddr_get and vaddr_remove that set cnt bits one after the other. */
    method SetBits(pf: PoolFlag, page: nat, cnt: nat, value: bool)
      requires SpaceOf(pf).start <= page && page + cnt <= SpaceOf(pf).start + |SpaceOf(pf).bits|
      modifies this`kernelSpace, this`userSpace
      ensures RunSet(old(SpaceOf(pf)), SpaceOf(pf), page, cnt, value)
      ensures B() == old(B()).WithSpace(pf, SpaceOf(pf))
    {
      var n := 0;
      while n < cnt
        invariant 0 <= n <= cnt
        invariant RunSet(old(SpaceOf(pf)), SpaceOf(pf), page, n, value)
        invariant B() == old(B()).WithSpace(pf, SpaceOf(pf))
      {
        var space := SpaceOf(pf).With(page + n, value);
        if pf.Kernel? {
          kernelSpace := space;
        } else {
          userSpace := space;
        }
        n := n + 1;
      }
    }

    /** vaddr_get.  The run it marks was clear, and is the first such run; the ASSERT keeps a process
        from getting its stack page. */
    method VaddrGet(pf: PoolFlag, cnt: nat) returns (r: Alloc)
      requires cnt > 0
      modifies this`kernelSpace, this`userSpace
      ensures r.Panic? ==> old(SpaceOf(pf)).Full() || (pf.User? && StackPage(old(SpaceOf(pf)), cnt))
      ensures r.Null? ==> unchanged(this) && Bitmaps.FirstFit(SpaceOf(pf).bits, |SpaceOf(pf).bits|, cnt).None?
      ensures r.Pages? ==>
                var space := old(SpaceOf(pf));
                && FoundAt(space, r.page, cnt)
                && RunSet(space, SpaceOf(pf), r.page, cnt, true) && B() == old(B()).WithSpace(pf, SpaceOf(pf))
    {
      var space := SpaceOf(pf);
      var bit := Bitmaps.Answer(space.bits, cnt);
      if bit.Panic? {
        return Panic;
      }
      if bit.NoRun? {
        return Null;
      }
      var page := space.start + bit.start;
      SetBits(pf, page, cnt, true);
      if pf.User? && page >= 0xc0000 - 1 {
        assert FoundAt(space, page, cnt);
        return Panic;
      }
      return Pages(page);
    }

    /** The body of the loop of malloc_page; m0 is the mapping from before the loop. */
    method MapNext(pf: PoolFlag, page: nat, n: nat, cnt: nat, ghost m0: map<nat, nat>) returns (ok: bool)
      requires ValidBut(page + n, page + cnt) && n < cnt && InSpace(SpaceOf(pf), page, cnt)
               && Extends(m0, mapping, page, n)
      modifies this`mem, this`kernelPool, this`userPool, this`reserved, this`mapping
      ensures !ok ==> PoolOf(pf).Full() || kernelPool.Full()
      ensures ok ==> ValidBut(page + n + 1, page + cnt) && Extends(m0, mapping, page, n + 1) && SameShape(old(B()), B())
      ensures ok ==> TablesAdded(old(B()), B(), pf)
    {
      assert B().Heap(page + n);
      ok := MapOne(pf, page + n, page + cnt);
      if ok {
        ExtendsOne(m0, old(mapping), mapping, page, n);
      }
    }

    /** The loop of malloc_page. */
    method MapAll(pf: PoolFlag, page: nat, cnt: nat) returns (ok: bool)
      requires ValidBut(page, page + cnt) && InSpace(SpaceOf(pf), page, cnt)
      modifies this`mem, this`kernelPool, this`userPool, this`reserved, this`mapping
      ensures !ok ==> PoolOf(pf).Full() || kernelPool.Full()
      ensures ok ==> ValidBut(page + cnt, page + cnt)
      ensures ok ==> Extends(old(mapping), mapping, page, cnt) && SameShape(old(B()), B())
      ensures ok ==> TablesAdded(old(B()), B(), pf)
    {
      var n := 0;
      while n < cnt
        invariant 0 <= n <= cnt && ValidBut(page + n, page + cnt)
        invariant Extends(old(mapping), mapping, page, n) && SameShape(old(B()), B())
        invariant TablesAdded(old(B()), B(), pf)
      {
        ok := MapNext(pf, page, n, cnt, old(mapping));
        if !ok {
          return;
        }
        n := n + 1;
      }
      return true;
    }

    /** malloc_page.  On success cnt fresh pages, found first fit, are mapped to free frames of the pool,
        and no other heap page changes.  NULL changes nothing. */
    method MallocPage(pf: PoolFlag, cnt: nat) returns (r: Alloc)
      requires Valid()
      modifies this
      ensures r.Panic? ==>
                || !(0 < cnt < 3840) || old(SpaceOf(pf)).Full() || (pf.User? && StackPage(old(SpaceOf(pf)), cnt))
                || PoolOf(pf).Full() || kernelPool.Full()
      ensures r.Null? ==> unchanged(this) && Bitmaps.FirstFit(SpaceOf(pf).bits, |SpaceOf(pf).bits|, cnt).None?
      ensures r.Pages? ==> Valid() && 0 < cnt < 3840 && FoundAt(old(SpaceOf(pf)), r.page, cnt)
      ensures r.Pages? ==> Extends(old(mapping), mapping, r.page, cnt) && SameShape(old(B()), B())
      ensures r.Pages? ==> forall p: nat :: r.page <= p < r.page + cnt ==>
                             p in mapping && UserWrite(mem, dir, p) == Some(mapping[p])
      ensures r.Pages? ==> TablesAdded(old(B()), B(), pf)
    {
      if !(0 < cnt < 3840) {
        return Panic;
      }
      r := VaddrGet(pf, cnt);
      if !r.Pages? {
        return;
      }
      BookRun(old(B()), pf, r.page, cnt, SpaceOf(pf));
      TranslatesStill(mem, dir, old(B()), B());
      var ok := MapAll(pf, r.page, cnt);
      if !ok {
        return Panic;
      }
      BookDone(B(), r.page + cnt);
      HeapReached(mem, dir, B(), old(mapping), pf, r.page, cnt);
    }

    // -------------------------------------------------------------- mfree_page

    /** addr_v2p */
    method AddrV2P(v: nat) returns (phys: nat)
      requires SelfMapped(mem, dir) && v < ADDRESSES && Lookup(mem, dir, v / PAGE).Some?
      ensures phys == Lookup(mem, dir, v / PAGE).value.frame * PAGE + v % PAGE
    {
      PtePtrHits(mem, dir, v);
      var pte := Load(PtePtr(v));
      phys := pte / PAGE * PAGE + v % PAGE;
    }

    /** pfree: the pool is chosen by the address alone. */
    method Pfree(phys: nat)
      requires phys / PAGE >= userPool.start ==> userPool.Has(phys / PAGE)
      requires phys / PAGE < userPool.start ==> kernelPool.Has(phys / PAGE)
      modifies this`kernelPool, this`userPool
      ensures var frame := phys / PAGE;
              B() == if frame >= old(userPool.start)
                     then old(B()).(userPool := old(userPool).With(frame, false))
                     else old(B()).(kernelPool := old(kernelPool).With(frame, false))
    {
      var frame := phys / PAGE;
      if phys >= userPool.start * PAGE {
        userPool := userPool.With((phys - userPool.start * PAGE) / PAGE + userPool.start, false);
      } else {
        kernelPool := kernelPool.With((phys - kernelPool.start * PAGE) / PAGE + kernelPool.start, false);
      }
    }

    /** page_table_pte_remove */
    method PteRemove(v: nat)
      requires TablesOk() && v < ADDRESSES && 1024 <= v / PAGE && Ordinary(v / PAGE) && Lookup(mem, dir, v / PAGE).Some?
      modifies this`mem
      ensures TablesOk() && Lookup(mem, dir, v / PAGE).None?
      ensures forall q :: 1024 <= q && Ordinary(q) && q != v / PAGE ==> Lookup(mem, dir, q) == old(Lookup(mem, dir, q))
    {
      PtePtrHits(mem, dir, v);
      var pte := Load(PtePtr(v));
      SetPte(v, pte - 1);
      OnlyOnePage(mem, dir, v / PAGE);
    }

    /** The body of the loops of mfree_page; the assertions on the address are the source's. */
    method Detach(pf: PoolFlag, page: nat, ghost frame: nat)
      requires TablesOk() && B().Layout() && SpaceOf(pf).Has(page)
      requires Lookup(mem, dir, page) == Some(Open(frame)) && PoolOf(pf).Has(frame)
      modifies this`mem, this`kernelPool, this`userPool
      ensures TablesOk() && Lookup(mem, dir, page).None?
      ensures forall q :: 1024 <= q && Ordinary(q) && q != page ==> Lookup(mem, dir, q) == old(Lookup(mem, dir, q))
      ensures B() == old(B()).WithPool(pf, old(PoolOf(pf)).With(frame, false))
    {
      var v := page * PAGE;
      assert v / PAGE == page && v % PAGE == 0;
      var phys := AddrV2P(v);
      assert phys / PAGE == frame && phys % PAGE == 0 && phys >= 0x10_2000;
      assert pf.User? ==> phys >= userPool.start * PAGE;
      assert pf.Kernel? ==> phys >= kernelPool.start * PAGE && phys < userPool.start * PAGE;
      Pfree(phys);
      PteRemove(v);
    }

    method UnmapOne(pf: PoolFlag, page: nat, ghost lo: nat)
      requires ValidBut(lo, page) && lo <= page && page in mapping && SpaceOf(pf).Has(page)
      modifies this`mem, this`kernelPool, this`userPool, this`mapping
      ensures ValidBut(lo, page + 1) && mapping == old(mapping) - {page} && SameShape(old(B()), B())
    {
      BookFree(B(), pf, lo, page);
      assert B().Heap(page);
      Detach(pf, page, mapping[page]);
      mapping := mapping - {page};
      Retranslates(old(mem), mem, dir, old(B()), B(), page);
    }

    method UnmapAll(pf: PoolFlag, page: nat, cnt: nat)
      requires ValidBut(page, page) && InSpace(SpaceOf(pf), page, cnt)
      requires forall p :: page <= p < page + cnt ==> p in mapping
      modifies this`mem, this`kernelPool, this`userPool, this`mapping
      ensures ValidBut(page, page + cnt) && Extends(mapping, old(mapping), page, cnt) && SameShape(old(B()), B())
    {
      var n := 0;
      while n < cnt
        invariant 0 <= n <= cnt && ValidBut(page, page + n)
        invariant Extends(mapping, old(mapping), page, n) && SameShape(old(B()), B())
      {
        ghost var m := mapping;
        assert page + n in old(mapping);
        UnmapOne(pf, page + n, page);
        ExtendsLess(old(mapping), m, mapping, page, n);
        n := n + 1;
      }
    }

    /** mfree_page: the pages are unmapped, their frames are free again in the pool they came from, and no
        other heap page changes. */
    method MfreePage(pf: PoolFlag, page: nat, cnt: nat)
      requires Valid() && cnt >= 1 && InSpace(SpaceOf(pf), page, cnt)
      requires forall p :: page <= p < page + cnt ==> p in mapping
      modifies this`mem, this`kernelPool, this`userPool, this`kernelSpace, this`userSpace, this`mapping
      ensures Valid() && Extends(mapping, old(mapping), page, cnt) && SameShape(old(B()), B())
              && reserved == old(reserved)
    {
      BookStart(B(), page);
      UnmapAll(pf, page, cnt);
      ghost var b := B();
      SetBits(pf, page, cnt, false);
      BookUnmark(b, pf, page, cnt, SpaceOf(pf));
      TranslatesStill(mem, dir, b, B());
    }
  }

  lemma BookStart(b: Books, page: nat)
    requires b.Balanced(0, 0)
    ensures b.Balanced(page, page)
  {
  }

  lemma BookUnmark(b: Books, pf: PoolFlag, page: nat, cnt: nat, space: Space)
    requires b.Balanced(page, page + cnt) && RunSet(b.SpaceOf(pf), space, page, cnt, false)
    ensures b.WithSpace(pf, space).Balanced(0, 0)
  {
    var b' := b.WithSpace(pf, space);
    forall p: nat | space.Has(p) ensures space.Marks(p) <==> p in b.mapping {
      assert b.SpaceOf(pf).Marks(p) <==> p in b.mapping || page <= p < page + cnt;
      assert page <= p < page + cnt ==> b.Heap(p);
    }
    forall p <- b'.mapping ensures b'.OwnFrame(p) {
      OwnFrameKept(b, b', p);
    }
  }

  lemma ExtendsLess(m0: map<nat, nat>, m: map<nat, nat>, m': map<nat, nat>, page: nat, n: nat)
    requires Extends(m, m0, page, n) && page + n in m && m' == m - {page + n}
    ensures Extends(m', m0, page, n + 1)
  {
  }

  lemma SameSpace(space: Space, space': Space, mapped: set<nat>)
    requires SpaceExact(space, mapped, 0, 0) && SpaceExact(space', mapped, 0, 0)
    requires space'.start == space.start && |space'.bits| == |space.bits|
    ensures space' == space
  {
    forall i | 0 <= i < |space.bits| ensures space'.bits[i] == space.bits[i] {
      assert space.Marks(space.start + i) == space'.Marks(space.start + i);
    }
  }

  lemma SamePool(pool: Pool, pool': Pool, reserved: set<nat>, reserved': set<nat>, used: set<nat>)
    requires PoolExact(pool, reserved, used) && PoolExact(pool', reserved', used)
    requires pool'.start == pool.start && |pool'.bits| == |pool.bits|
    requires forall f :: pool.Has(f) ==> (f in reserved <==> f in reserved')
    ensures pool' == pool
  {
    forall i | 0 <= i < |pool.bits| ensures pool'.bits[i] == pool.bits[i] {
      assert pool.Has(pool.start + i);
      assert pool.Marks(pool.start + i) == pool'.Marks(pool.start + i);
    }
  }

  /** Only frames of the kernel pool became page tables, and none for kernel pages. */
  ghost predicate TablesAdded(b: Books, b': Books, pf: PoolFlag) {
    && b.reserved <= b'.reserved && (pf.Kernel? ==> b'.reserved == b.reserved)
    && (forall f :: f in b'.reserved && f !in b.reserved ==> b.kernelPool.Has(f))
  }

  /** Everything is as in b, but for page tables that were added since. */
  ghost predicate SameButTables(b: Books, b': Books) {
    && b'.mapping == b.mapping && b'.kernelSpace == b.kernelSpace && b'.userSpace == b.userSpace
       && b'.userPool == b.userPool
    && b'.kernelPool.start == b.kernelPool.start && |b'.kernelPool.bits| == |b.kernelPool.bits|
       && b.reserved <= b'.reserved
    && (forall f: nat :: b.kernelPool.Has(f) ==>
          (b'.kernelPool.Marks(f) <==> b.kernelPool.Marks(f) || f in b'.reserved - b.reserved))
  }

  /** The bitmaps are determined by the page table and the reserved frames: undoing the mappings undoes the
      marks, but for the page tables that were added. */
  lemma BooksDetermined(b: Books, b': Books, pf: PoolFlag)
    requires b.Balanced(0, 0) && b'.Balanced(0, 0) && SameShape(b, b') && b.mapping == b'.mapping
             && TablesAdded(b, b', pf)
    ensures SameButTables(b, b')
    ensures b'.reserved == b.reserved ==> b' == b
  {
    SameSpace(b.kernelSpace, b'.kernelSpace, b.mapping.Keys);
    SameSpace(b.userSpace, b'.userSpace, b.mapping.Keys);
    SamePool(b.userPool, b'.userPool, b.reserved, b'.reserved, b.mapping.Values);
    if b'.reserved == b.reserved {
      SamePool(b.kernelPool, b'.kernelPool, b.reserved, b'.reserved, b.mapping.Values);
    }
  }

  lemma ExtendsBack(m: map<nat, nat>, m1: map<nat, nat>, m2: map<nat, nat>, page: nat, cnt: nat)
    requires Extends(m, m1, page, cnt) && Extends(m2, m1, page, cnt)
    ensures m2 == m
  {
    assert forall p :: p in m2 <==> p in m;
  }

  /** mfree_page undoes malloc_page on all bitmaps and on the page table, but for page tables that were added
      for user pages. */
  method MallocThenFree(vm: Vm, pf: PoolFlag, cnt: nat) returns (r: Alloc)
    requires vm.Valid()
    modifies vm
    ensures r.Pages? ==> vm.Valid() && SameButTables(old(vm.B()), vm.B()) && (pf.Kernel? ==> vm.B() == old(vm.B()))
  {
    r := vm.MallocPage(pf, cnt);
    if r.Pages? {
      ghost var m1 := vm.mapping;
      vm.MfreePage(pf, r.page, cnt);
      ExtendsBack(old(vm.mapping), m1, vm.mapping, r.page, cnt);
      BooksDetermined(old(vm.B()), vm.B(), pf);
    }
  }

  lemma ExtendsOne(m0: map<nat, nat>, m: map<nat, nat>, m': map<nat, nat>, page: nat, n: nat)
    requires Extends(m0, m, page, n) && page + n !in m && page + n in m' && m' == m[page + n := m'[page + n]]
    ensures Extends(m0, m', page, n + 1)
  {
  }

  predicate InSpace(space: Space, page: nat, cnt: nat) {
    space.start <= page && page + cnt <= space.start + |space.bits|
  }

  /** The first run of cnt free pages starts at `page`. */
  predicate FoundAt(space: Space, page: nat, cnt: nat) {
    InSpace(space, page, cnt) && Bitmaps.FirstFit(space.bits, |space.bits|, cnt) == Some(page - space.start)
  }

  /** The first run of cnt free pages starts at the last page below 3 GB. */
  predicate StackPage(space: Space, cnt: nat) {
    exists page :: page >= 0xc0000 - 1 && page <= space.start + |space.bits| && FoundAt(space, page, cnt)
  }

  /** The bitmaps keep their place and their length. */
  ghost predicate SameShape(b: Books, b': Books) {
    && b'.kernelSpace.start == b.kernelSpace.start && |b'.kernelSpace.bits| == |b.kernelSpace.bits|
    && b'.userSpace.start == b.userSpace.start && |b'.userSpace.bits| == |b.userSpace.bits|
    && b'.kernelPool.start == b.kernelPool.start && |b'.kernelPool.bits| == |b.kernelPool.bits|
    && b'.userPool.start == b.userPool.start && |b'.userPool.bits| == |b.userPool.bits|
  }

  /** m' is m with the pages page to page + cnt added. */
  ghost predicate Extends(m: map<nat, nat>, m': map<nat, nat>, page: nat, cnt: nat) {
    && (forall p :: p in m' <==> p in m || page <= p < page + cnt)
    && (forall p :: page <= p < page + cnt ==> p !in m)
    && (forall p <- m :: p in m' && m'[p] == m[p])
  }

  ghost predicate RunSet(space: Space, space': Space, page: nat, cnt: nat, value: bool) {
    && space'.start == space.start && |space'.bits| == |space.bits| && InSpace(space, page, cnt)
    && (forall p: nat :: space.Has(p) ==> space'.Marks(p) == if page <= p < page + cnt then value else space.Marks(p))
  }

  lemma BookRun(b: Books, pf: PoolFlag, page: nat, cnt: nat, space: Space)
    requires b.Balanced(0, 0) && RunSet(b.SpaceOf(pf), space, page, cnt, true)
    requires forall p :: page <= p < page + cnt ==> !b.SpaceOf(pf).Marks(p)
    ensures b.WithSpace(pf, space).Balanced(page, page + cnt)
  {
    var b' := b.WithSpace(pf, space);
    forall p | page <= p < page + cnt ensures b'.Heap(p) && p !in b'.mapping {
      assert b.SpaceOf(pf).Has(p) && !b.SpaceOf(pf).Marks(p);
    }
    forall p <- b'.mapping ensures b'.OwnFrame(p) {
      OwnFrameKept(b, b', p);
    }
  }

  lemma BookDone(b: Books, page: nat)
    requires b.Balanced(page, page)
    ensures b.Balanced(0, 0)
  {
  }

  // ---------------------------------------------------------------- accounting for mfree_page

  lemma UnmarkFrame(pool: Pool, reserved: set<nat>, used: set<nat>, frame: nat)
    requires PoolExact(pool, reserved, used) && frame in used && frame !in reserved
    ensures pool.Has(frame) ==> PoolExact(pool.With(frame, false), reserved, used - {frame})
    ensures !pool.Has(frame) ==> PoolExact(pool, reserved, used - {frame})
  {
    if pool.Has(frame) {
      forall f: nat | pool.Has(f) ensures pool.With(frame, false).Marks(f) == (f != frame && pool.Marks(f)) {
      }
    }
  }

  lemma UnmapPending(space: Space, mapped: set<nat>, lo: nat, page: nat)
    requires SpaceExact(space, mapped, lo, page) && lo <= page && page in mapped
    ensures SpaceExact(space, mapped - {page}, lo, page + 1)
  {
  }

  /** A mapped page gives its frame back and stays marked. */
  lemma BookFree(b: Books, pf: PoolFlag, lo: nat, page: nat)
    requires b.Balanced(lo, page) && lo <= page && page in b.mapping && b.SpaceOf(pf).Has(page)
    ensures b.PoolOf(pf).Has(b.mapping[page])
    ensures var b' := b.WithPool(pf, b.PoolOf(pf).With(b.mapping[page], false)).(mapping := b.mapping - {page});
            b'.Balanced(lo, page + 1)
  {
    var frame := b.mapping[page];
    assert b.OwnFrame(page) && frame in b.mapping.Values;
    var b' := b.WithPool(pf, b.PoolOf(pf).With(frame, false)).(mapping := b.mapping - {page});
    ValuesRemove(b.mapping, page);
    assert b'.mapping.Keys == b.mapping.Keys - {page};
    UnmarkFrame(b.kernelPool, b.reserved, b.mapping.Values, frame);
    UnmarkFrame(b.userPool, b.reserved, b.mapping.Values, frame);
    UnmapPending(b.kernelSpace, b.mapping.Keys, lo, page);
    UnmapPending(b.userSpace, b.mapping.Keys, lo, page);
    forall p <- b'.mapping ensures b'.OwnFrame(p) {
      OwnFrameKept(b, b', p);
    }
    forall p | lo <= p < page + 1 ensures b'.Heap(p) && p !in b'.mapping {
      assert p < page ==> b.Heap(p);
    }
  }

  lemma BookTaken(b: Books, b': Books, pf: PoolFlag, page: nat, hi: nat, frame: nat, table: nat)
    requires b.Balanced(page, hi) && page < hi && b.SpaceOf(pf).Has(page)
    requires b.PoolOf(pf).Has(frame) && !b.PoolOf(pf).Marks(frame)
    requires var b1 := b.WithPool(pf, b.PoolOf(pf).With(frame, true)).(mapping := b.mapping[page := frame]);
             || b' == b1
             || (b1.kernelPool.Has(table) && !b1.kernelPool.Marks(table) &&
                 b' == b1.(kernelPool := b1.kernelPool.With(table, true), reserved := b1.reserved + {table}))
    ensures b'.Balanced(page + 1, hi) && b.reserved <= b'.reserved
  {
    var b1 := b.WithPool(pf, b.PoolOf(pf).With(frame, true)).(mapping := b.mapping[page := frame]);
    BookFrame(b, pf, page, hi, frame);
    if b' != b1 {
      BookTable(b1, page + 1, hi, table);
    }
  }

  /** With unshared tables, only a page itself is translated by its word. */
  lemma OnlyOnePage(m: Memory, dir: nat, page: nat)
    requires 1024 <= page && Ordinary(page) && Unshared(m, dir)
    ensures forall q :: 1024 <= q && Ordinary(q) && q != page ==> !SameSlot(m, dir, page, q)
  {
    forall q | 1024 <= q && Ordinary(q) && q != page ensures !SameSlot(m, dir, page, q) {
      if q / 1024 < page / 1024 {
        assert !Shared(m, dir, q / 1024, page / 1024);
      } else if q / 1024 > page / 1024 {
        assert !Shared(m, dir, page / 1024, q / 1024);
      }
    }
  }

  /** Entering a new table in the directory. */
  lemma NewTable(m: Memory, m': Memory, dir: nat, page: nat, table: nat, kernelSpace: Space, reserved: set<nat>)
    requires TablesFine(m, dir, kernelSpace, reserved) && Ordinary(page) && !Present(Pde(m, dir, page))
    requires table !in reserved
    requires forall loc: Loc :: loc.frame != table ==> Read(m', loc) == Read(m[PdeLoc(dir, page) := Entry(table)], loc)
    requires forall i :: 0 <= i < 1024 ==> Read(m', Loc(table, i)) == 0
    ensures TablesFine(m', dir, kernelSpace, reserved + {table}) && Pde(m', dir, page) == Entry(table)
    ensures forall q :: Ordinary(q) ==> Lookup(m', dir, q) == Lookup(m, dir, q)
  {
    forall i | 0 <= i < 1024
      ensures Read(m', Loc(dir, i)) == if i == page / 1024 then Entry(table) else Read(m, Loc(dir, i))
    {
    }
    forall i, j | 1 <= i < j < 1023 ensures !Shared(m', dir, i, j) {
      assert !Shared(m, dir, i, j);
    }
    forall q: nat | kernelSpace.Has(q) ensures Present(Pde(m', dir, q)) {
      assert Present(Pde(m, dir, q));
    }
    forall q: nat | Ordinary(q) ensures Lookup(m', dir, q) == Lookup(m, dir, q) {
      assert q / 1024 < 1023;
      if q / 1024 != page / 1024 {
        assert Pde(m', dir, q) == Pde(m, dir, q);
      }
    }
  }

  lemma StillFine(m: Memory, m': Memory, dir: nat, kernelSpace: Space, reserved: set<nat>)
    requires TablesFine(m, dir, kernelSpace, reserved) && Tables(m', dir)
    requires forall i :: Read(m', Loc(dir, i)) == Read(m, Loc(dir, i))
    ensures TablesFine(m', dir, kernelSpace, reserved)
  {
    forall i, j | 1 <= i < j < 1023 ensures !Shared(m', dir, i, j) {
      assert !Shared(m, dir, i, j);
    }
    forall q: nat | kernelSpace.Has(q) ensures Present(Pde(m', dir, q)) {
      assert Present(Pde(m, dir, q));
    }
  }

  ghost predicate AllClear(bits: seq<bool>) {
    forall i :: 0 <= i < |bits| ==> !bits[i]
  }

  lemma EmptyBooks(b: Books)
    requires b.Layout() && b.mapping == map[] && (forall f <- b.reserved :: f < b.kernelPool.start)
    requires AllClear(b.kernelPool.bits) && AllClear(b.userPool.bits)
    requires AllClear(b.kernelSpace.bits) && AllClear(b.userSpace.bits)
    ensures b.Balanced(0, 0)
  {
  }

  lemma HalvedEighth(x: nat)
    ensures x / 2 / 8 * 8 == x / 16 * 8
  {
  }

  /** With every bitmap clear, the loader's page tables are a valid start. */
  lemma BootIsValid(m: Memory, b: Books)
    requires BootTables(m) && b.Layout() && b.mapping == map[] && b.reserved == Frames(0x100, 0x200)
    requires b.kernelPool.start == 0x200 && b.kernelSpace.start == 0xc0100 && |b.kernelSpace.bits| < 0x1_0000
             && b.userSpace.bits == []
    requires AllClear(b.kernelPool.bits) && AllClear(b.userPool.bits) && AllClear(b.kernelSpace.bits)
    ensures TablesFine(m, BOOT_DIR, b.kernelSpace, b.reserved) && Translates(m, BOOT_DIR, b) && b.Balanced(0, 0)
  {
    BootIsFine(m, b.kernelSpace);
    EmptyBooks(b);
    TranslatesNothing(m, BOOT_DIR, b);
  }

  lemma ProcessDirectory(m: Memory, dir: nat, reserved: set<nat>)
    requires ProcessTables(m, dir) && dir >= 0x200 && dir in reserved && forall f: nat :: 0x100 <= f < 0x200 ==>
               f in reserved
    ensures TablesFine(m, dir, Space(0xc0100, []), reserved)
  {
    forall i: nat, j: nat | 1 <= i < j < 1023 ensures !Shared(m, dir, i, j) {
      assert Read(m, Loc(dir, i)) == if 768 <= i then Entry(0x101 + i - 768) else 0;
      assert Read(m, Loc(dir, j)) == if 768 <= j then Entry(0x101 + j - 768) else 0;
    }
  }

  /** With all marked frames reserved, it is a valid start for a process. */
  lemma ProcessIsValid(m: Memory, b: Books, dir: nat)
    requires b.Layout() && b.mapping == map[] && b.kernelSpace == Space(0xc0100, []) && AllClear(b.userSpace.bits)
    requires 0x200 <= b.kernelPool.start && b.kernelPool.Has(dir) && b.kernelPool.Marks(dir) && ProcessTables(m, dir)
    requires b.reserved == Frames(0x100, 0x200) + Marked(b.kernelPool) + Marked(b.userPool)
    ensures TablesFine(m, dir, b.kernelSpace, b.reserved) && Translates(m, dir, b) && b.Balanced(0, 0)
  {
    ProcessDirectory(m, dir, b.reserved);
    forall page: nat | b.Heap(page) ensures Lookup(m, dir, page).None? {
      assert page / 1024 < 768;
      assert Read(m, Loc(dir, page / 1024)) == 0;
    }
    TranslatesNothing(m, dir, b);
  }

  /** What the kernel and other processes have is reserved for a process. */
  ghost function HeldElsewhere(kernelPool: Pool, userPool: Pool): set<nat> {
    Frames(0x100, 0x200) + Marked(kernelPool) + Marked(userPool)
  }

  /** create_page_dir and create_user_vaddr_bitmap: the address space of a new process, whose page directory is
      in frame f of the kernel pool. */
  method NewProcess(kernel: Vm, f: nat) returns (vm: Vm)
    requires KernelTables(kernel.mem, kernel.dir) && kernel.dir != f && kernel.B().Layout()
             && 0x200 <= kernel.kernelPool.start
    requires kernel.kernelPool.Has(f) && kernel.kernelPool.Marks(f)
    ensures fresh(vm) && vm.Valid() && vm.mapping == map[] && vm.dir == f
    ensures vm.kernelPool == kernel.kernelPool && vm.userPool == kernel.userPool && vm.kernelSpace.bits == []
    ensures vm.userSpace.start == 0x8048 && |vm.userSpace.bits| == 0xc0000 - 0x8048 && AllClear(vm.userSpace.bits)
    ensures vm.reserved == HeldElsewhere(kernel.kernelPool, kernel.userPool)
  {
    var m := CreatePageDir(kernel.mem, kernel.dir, f);
    var btmp_bytes_len := (0xc0000 - 0x8048) / 8;
    ghost var reserved := HeldElsewhere(kernel.kernelPool, kernel.userPool);
    var userSpace := Space(0x8048, ClearBits(btmp_bytes_len * 8));
    ghost var b := Books(kernel.kernelPool, kernel.userPool, Space(0xc0100, []), userSpace, map[], reserved);
    ProcessIsValid(m, b, f);
    vm := new Vm.Of(m, f, kernel.kernelPool, kernel.userPool, Space(0xc0100, []), userSpace, map[], reserved);
    assert vm.B() == b;
  }

  /** There is an address space with a user heap: a process on a machine that has just booted. */
  method FirstProcess(boot: Memory, all_mem: nat) returns (vm: Vm)
    requires BootTables(boot) && 0x20_0000 <= all_mem < ADDRESSES && (all_mem - 0x20_0000) / PAGE % 0x1_0000 >= 16
    ensures fresh(vm) && vm.Valid() && vm.mapping == map[] && |vm.userSpace.bits| == 0xc0000 - 0x8048
            && !vm.userSpace.Full()
  {
    var kernel := new Vm(boot, all_mem);
    assert !kernel.kernelPool.bits[0];
    var f := kernel.Palloc(Kernel);
    vm := NewProcess(kernel, f.value);
    assert !vm.userSpace.bits[0];
  }

  lemma BootIsFine(m: Memory, kernelSpace: Space)
    requires BootTables(m) && kernelSpace.start == 0xc0100 && |kernelSpace.bits| < 0x1_0000
    ensures TablesFine(m, BOOT_DIR, kernelSpace, Frames(0x100, 0x200))
    ensures forall page: nat :: kernelSpace.Has(page) ==> Lookup(m, BOOT_DIR, page).None?
  {
    forall page: nat | kernelSpace.Has(page)
      ensures Present(Pde(m, BOOT_DIR, page)) && Lookup(m, BOOT_DIR, page).None? {
      assert 768 <= page / 1024 < 1023;
      assert PteLoc(m, BOOT_DIR, page) == Loc(0x101 + page / 1024 - 768, page % 1024);
    }
    forall i, j | 1 <= i < j < 1023 ensures !Shared(m, BOOT_DIR, i, j) {
    }
  }

  lemma TableWindow(m: Memory, dir: nat, v: nat, i: nat)
    requires SelfMapped(m, dir) && v < ADDRESSES && i < 1024 && Present(Pde(m, dir, v / PAGE))
    ensures WordAt(m, dir, PtePtr(v) / PAGE * PAGE + 4 * i) == Some(Loc(FrameOf(Pde(m, dir, v / PAGE)), i))
  {
    var base := PtePtr(v) / PAGE;
    assert base == 1023 * 1024 + v / PAGE / 1024;
    var p := base * PAGE + 4 * i;
    assert p / PAGE == base && p % PAGE / 4 == i;
  }
}
