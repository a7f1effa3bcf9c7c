/** kernel/memory.c: the free list of a block size as a linked list.  A free block holds the list element in its
    first bytes, so the sequences of `Arenas` and `Heaps` are the addresses along the links. */
module FreeLists {
  import opened Arenas
  import opened Heaps
  import opened Lists

  /** The list element at the start of the block with that address. */
  type BlockMemory = map<nat, ListElem>

  /** Two blocks have two elements. */
  ghost predicate Separate(mem: BlockMemory) {
    forall a, b :: a in mem && b in mem && mem[a] == mem[b] ==> a == b
  }

  /** No element is a sentinel of the list. */
  ghost predicate Inside(list: List, mem: BlockMemory) {
    Separate(mem) && forall a :: a in mem ==> mem[a] != list.head && mem[a] != list.tail
  }

  /** The links run through the blocks of s, in that order. */
  ghost predicate Stands(list: List, mem: BlockMemory, s: seq<nat>)
    reads list, list.nodes
  {
    && list.Valid() && Inside(list, mem) && |list.Elems()| == |s|
    && forall i :: 0 <= i < |s| ==> s[i] in mem && mem[s[i]] == list.Elems()[i]
  }

  /** A block that is not in the sequence is not on the list. */
  lemma OffList(list: List, mem: BlockMemory, s: seq<nat>, b: nat)
    requires Stands(list, mem, s) && b in mem && b !in s
    ensures mem[b] !in list.nodes
  {
    forall i | 0 <= i < |list.nodes| ensures list.nodes[i] != mem[b] {
      if 0 < i < |list.nodes| - 1 {
        assert list.nodes[i] == list.Elems()[i - 1] == mem[s[i - 1]];
      }
    }
  }

  /** list_append of a block. */
  method Give(list: List, mem: BlockMemory, b: nat, ghost s: seq<nat>)
    requires Stands(list, mem, s) && b in mem && b !in s
    modifies list`nodes, list.nodes, mem[b]
    ensures Stands(list, mem, s + [b])
  {
    OffList(list, mem, s, b);
    list.Append(mem[b]);
  }

  /** list_pop: the first block of the list. */
  method Take(list: List, ghost mem: BlockMemory, ghost s: seq<nat>) returns (elem: ListElem)
    requires Stands(list, mem, s) && s != []
    modifies list`nodes, list.nodes
    ensures elem == mem[s[0]] && Stands(list, mem, s[1..])
  {
    ghost var was := list.Elems();
    elem := list.Pop();
    assert was == [elem] + list.Elems();
  }

  lemma {:induction false} WithoutAt(s: seq<nat>, k: nat, x: nat)
    requires k < |s| && s[k] == x && forall i :: 0 <= i < k ==> s[i] != x
    ensures Without(s, x) == s[..k] + s[k + 1..]
    decreases k
  {
    if k > 0 {
      var t := s[1..];
      WithoutAt(t, k - 1, x);
      assert t[..k - 1] == s[1..k] && t[k..] == s[k + 1..];
      assert s[..k] == [s[0]] + s[1..k];
    }
  }

  /** list_remove of a block, once elem_find has found it. */
  method TakeOut(list: List, mem: BlockMemory, b: nat, ghost s: seq<nat>) returns (found: bool)
    requires Stands(list, mem, s) && Distinct(s) && b in s
    modifies list`nodes, list.nodes
    ensures found && Stands(list, mem, Without(s, b))
  {
    ghost var k :| 0 <= k < |s| && s[k] == b;
    WithoutAt(s, k, b);
    ghost var was := list.Elems();
    assert was[k] == mem[b];
    found := list.Find(mem[b]);
    list.Remove(mem[b], k);
    assert list.Elems() == was[..k] + was[k + 1..];
  }

  /** The end of sys_malloc for a small block, on the linked list of its size. */
  method TakeBlock(list: List, ghost mem: BlockMemory, ghost h: Heap, ghost d: nat) returns (elem: ListElem)
    requires d < DESC_CNT == |h.lists| && h.lists[d] != [] && Stands(list, mem, h.lists[d])
    requires PageOf(h.lists[d][0]) in h.arenas && h.arenas[PageOf(h.lists[d][0])].cnt > 0
    modifies list`nodes, list.nodes
    ensures elem == mem[h.lists[d][0]] && Stands(list, mem, Taken(h, d).lists[d])
  {
    elem := Take(list, mem, h.lists[d]);
  }

  /** The beginning of sys_free for a small block. */
  method GiveBlock(list: List, mem: BlockMemory, b: nat, ghost h: Heap, ghost d: nat)
    requires PageOf(b) in h.arenas && h.arenas[PageOf(b)].Small?
             && h.arenas[PageOf(b)].desc == d < DESC_CNT == |h.lists|
    requires Stands(list, mem, h.lists[d]) && b in mem && b !in h.lists[d]
    modifies list`nodes, list.nodes, mem[b]
    ensures Stands(list, mem, Given(h, b).lists[d])
  {
    Give(list, mem, b, h.lists[d]);
  }

  /** The loop of sys_malloc over a new arena, on an empty list. */
  method SplitBlocks(list: List, mem: BlockMemory, page: nat, d: nat)
    requires d < DESC_CNT && Stands(list, mem, []) && forall i :: 0 <= i < Blocks(d) ==> BlockAddr(page, d, i) in mem
    modifies list`nodes, list.nodes, mem.Values
    ensures Stands(list, mem, BlockSeq(page, d))
  {
    ghost var blocks := BlockSeq(page, d);
    BlockSeqOk(page, d);
    for i := 0 to Blocks(d)
      invariant Stands(list, mem, blocks[..i]) && forall e <- list.nodes :: e in old(list.nodes) || e in mem.Values
    {
      assert blocks[i] == BlockAddr(page, d, i) && blocks[i] !in blocks[..i] && mem[blocks[i]] in mem.Values;
      Give(list, mem, BlockAddr(page, d, i), blocks[..i]);
      assert blocks[..i] + [blocks[i]] == blocks[..i + 1];
    }
    assert blocks[..Blocks(d)] == blocks;
  }
}
