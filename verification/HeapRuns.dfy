/** Every run of sys_malloc and sys_free, and what is left when all was freed. */
module HeapRuns {
  import opened Arenas
  import opened Heaps
  import P = Pages
  import Paging

  datatype Request = Malloc(size: nat) | Free(index: nat)

  ghost function Members(s: seq<nat>): set<nat> {
    set b | b in s
  }

  function Drop(s: seq<nat>, k: nat): seq<nat>
    requires k < |s|
  {
    s[..k] + s[k + 1..]
  }

  lemma DropMembers(s: seq<nat>, k: nat)
    requires Distinct(s) && k < |s|
    ensures Distinct(Drop(s, k)) && Members(Drop(s, k)) == Members(s) - {s[k]}
  {
    var t := Drop(s, k);
    forall b ensures b in t <==> b in s && b != s[k] {
      if b in s && b != s[k] {
        var i :| 0 <= i < |s| && s[i] == b;
        assert t[if i < k then i else i - 1] == b;
      }
    }
  }

  lemma AddMember(s: seq<nat>, b: nat)
    requires Distinct(s) && b !in s
    ensures Distinct(s + [b]) && Members(s + [b]) == Members(s) + {b}
  {
    assert forall c :: c in s + [b] <==> c in s || c == b;
  }

  /** The pointers are those that are live, each listed once. */
  ghost predicate Holds(g: Manager, ptrs: seq<nat>)
    reads g, g.vm
  {
    g.Valid() && Distinct(ptrs) && g.live == Members(ptrs)
  }

  /** A pointer was added, to enough bytes, or none was to be had; or one pointer was taken away. */
  ghost predicate Served(h: Heap, ptrs: seq<nat>, ptrs': seq<nat>, r: Request) {
    match r
    case Malloc(size) =>
      || ptrs' == ptrs
      || (&& |ptrs'| > 0
          && var b := ptrs'[|ptrs'| - 1];
             ptrs' == ptrs + [b] && LiveOk(h, b) && RightSize(size, Extent(h, b)))
    case Free(index) => ptrs' == if index < |ptrs| then Drop(ptrs, index) else ptrs
  }

  /** The kernel was stopped by a request for memory, with nothing left in a space or a pool, or for too many pages. */
  ghost predicate StoppedBy(r: Request, b: P.Books, b': P.Books, pf: P.PoolFlag) {
    r.Malloc? && Exhausted(b, b', pf, PagesFor(r.size))
  }

  /** One request; Free(index) is a free of the pointer with that index, if there is one. */
  method Serve(g: Manager, ptrs: seq<nat>, r: Request) returns (ok: bool, ptrs': seq<nat>)
    requires Holds(g, ptrs)
    modifies g, g.vm
    ensures ok ==> Holds(g, ptrs') && Served(g.H(), ptrs, ptrs', r)
    ensures !ok ==> StoppedBy(r, old(g.vm.B()), g.vm.B(), g.pf)
  {
    ptrs', ok := ptrs, true;
    match r
    case Malloc(size) =>
      var p := g.Malloc(size);
      ok := !p.Panic?;
      if p.Ptr? {
        AddMember(ptrs, p.addr);
        ptrs' := ptrs + [p.addr];
      }
    case Free(index) =>
      if index < |ptrs| {
        DropMembers(ptrs, index);
        assert ptrs[index] in g.live;
        g.Free(ptrs[index]);
        ptrs' := Drop(ptrs, index);
      }
  }

  /** Any sequence of requests; request k stopped the kernel, or all were served.  b are the books before request k. */
  method Run(g: Manager, requests: seq<Request>) returns (ok: bool, ptrs: seq<nat>, k: nat, ghost b: P.Books)
    requires g.Valid() && g.live == {}
    modifies g, g.vm
    ensures ok ==> Holds(g, ptrs)
    ensures !ok ==> k < |requests| && StoppedBy(requests[k], b, g.vm.B(), g.pf)
  {
    ptrs, ok, k, b := [], true, 0, g.vm.B();
    while k < |requests|
      invariant 0 <= k <= |requests| && Holds(g, ptrs)
    {
      b := g.vm.B();
      ok, ptrs := Serve(g, ptrs, requests[k]);
      if !ok {
        return;
      }
      k := k + 1;
    }
  }

  /** All pointers are freed, from the last to the first. */
  method FreeAll(g: Manager, ptrs: seq<nat>)
    requires Holds(g, ptrs)
    modifies g, g.vm
    ensures g.Valid() && g.live == {}
  {
    var rest := ptrs;
    while rest != []
      invariant Holds(g, rest)
      decreases |rest|
    {
      var n := |rest| - 1;
      DropMembers(rest, n);
      assert rest[n] in g.live;
      g.Free(rest[n]);
      rest := Drop(rest, n);
    }
  }

  /** After any run, freeing what is still live restores bitmaps, page table and free lists. */
  method RunAndFreeAll(g: Manager, requests: seq<Request>) returns (ok: bool)
    requires g.Valid() && g.live == {}
    modifies g, g.vm
    ensures ok ==> g.arenas == map[] && |g.lists| == DESC_CNT && forall d :: 0 <= d < DESC_CNT ==> g.lists[d] == []
    ensures ok ==> P.SameButTables(g.before, g.vm.B())
    ensures ok && g.pf.Kernel? ==> g.vm.B() == g.before
  {
    var ptrs, k;
    ghost var b;
    ok, ptrs, k, b := Run(g, requests);
    if ok {
      FreeAll(g, ptrs);
      FreeingAllRestores(g);
    }
  }

  /** The heap of the first process: a run on user pages, and everything back at its end. */
  method ProcessRun(boot: Paging.Memory, all_mem: nat, poolSize: nat, requests: seq<Request>)
    returns (ok: bool, g: Manager)
    requires P.BootTables(boot) && 0x20_0000 <= all_mem < Paging.ADDRESSES
             && (all_mem - 0x20_0000) / Paging.PAGE % 0x1_0000 >= 16
    ensures g.pf.User? && |g.before.userSpace.bits| > 0
    ensures ok ==> g.arenas == map[] && P.SameButTables(g.before, g.vm.B())
  {
    var vm := P.FirstProcess(boot, all_mem);
    g := new Manager(vm, P.User, poolSize);
    ok := RunAndFreeAll(g, requests);
  }

  /** First in, first out: a freed block whose arena stays is handed out again after the blocks that were free before
      it. */
  method FreedComesLast(g: Manager, b: nat, d: nat, size: nat) returns (again: bool, last: nat)
    requires g.Valid() && b in g.live && PageOf(b) in g.arenas && g.arenas[PageOf(b)].Small?
    requires g.arenas[PageOf(b)].desc == d < DESC_CNT && 0 < size <= 1024 && size < g.poolSize
             && RightSize(size, Size(d))
    modifies g, g.vm
    ensures again ==> g.Valid() && last == b
    ensures !again ==> g.Valid() && PageOf(b) !in g.arenas
  {
    last := 0;
    var n := |g.lists[d]|;
    ghost var was := g.lists[d];
    g.Free(b);
    if PageOf(b) !in g.arenas {
      return false, last;
    }
    Drain(g, d, size, n, was, b);
    last := NextOf(g, d, size);
    again := true;
  }

  /** As many requests as there are blocks in front of b. */
  method Drain(g: Manager, d: nat, size: nat, n: nat, ghost s: seq<nat>, ghost b: nat)
    requires g.Valid() && d < DESC_CNT == |g.lists| && g.lists[d] == s + [b] && |s| == n
    requires 0 < size <= 1024 && size < g.poolSize && RightSize(size, Size(d))
    modifies g, g.vm
    ensures g.Valid() && |g.lists| == DESC_CNT && g.lists[d] == [b]
  {
    for i := 0 to n
      invariant g.Valid() && |g.lists| == DESC_CNT && g.lists[d] == s[i..] + [b]
    {
      var first := NextOf(g, d, size);
      assert (s[i..] + [b])[1..] == s[i + 1..] + [b];
    }
  }

  /** sys_malloc of that size, with a block in its list. */
  method NextOf(g: Manager, d: nat, size: nat) returns (b: nat)
    requires g.Valid() && d < DESC_CNT == |g.lists| && g.lists[d] != []
    requires 0 < size <= 1024 && size < g.poolSize && RightSize(size, Size(d))
    modifies g, g.vm
    ensures g.Valid() && b == old(g.lists[d])[0] && g.lists == old(g.lists)[d := old(g.lists[d])[1..]]
  {
    var r := g.Malloc(size);
    b := r.addr;
    RightIsSize(size, Extent(g.H(), b), d);
  }

  lemma RightIsSize(size: nat, extent: int, d: nat)
    requires 0 < size <= 1024 && RightSize(size, extent) && d < DESC_CNT && RightSize(size, Size(d))
    ensures extent == Size(d)
  {
  }

  /** In every such state the live regions are disjoint. */
  lemma HeldApart(g: Manager, ptrs: seq<nat>, i: nat, j: nat)
    requires Holds(g, ptrs) && i < |ptrs| && j < |ptrs| && ptrs[i] < ptrs[j]
    ensures LiveOk(g.H(), ptrs[i]) && ptrs[i] + Extent(g.H(), ptrs[i]) <= ptrs[j]
  {
    assert ptrs[i] in g.live && ptrs[j] in g.live;
    LiveDisjoint(g.H(), ptrs[i], ptrs[j]);
  }
}
