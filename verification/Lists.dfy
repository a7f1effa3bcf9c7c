/** lib/kernel/list.c: the intrusive, doubly linked list between two sentinels. */
module Lists {

  class ListElem {
    var prev: ListElem?
    var next: ListElem?
    constructor () {
      prev, next := null, null;
    }
  }

  lemma Spliced(s: seq<ListElem>, k: nat, elem: ListElem)
    requires k + 1 < |s| && elem !in s
    requires forall i, j :: 0 <= i < j < |s| ==> s[i] != s[j]
    ensures var t := s[..k + 1] + [elem] + s[k + 1..]; var e := s[1..|s| - 1];
            && t[1..|t| - 1] == e[..k] + [elem] + e[k..]
            && (forall i, j :: 0 <= i < j < |t| ==> t[i] != t[j])
  {
  }

  lemma Cut(s: seq<ListElem>, k: nat, elem: ListElem)
    requires k + 2 < |s| && s[k + 1] == elem && forall i, j :: 0 <= i < j < |s| ==> s[i] != s[j]
    ensures var t := s[..k + 1] + s[k + 2..]; var e := s[1..|s| - 1];
            && t[1..|t| - 1] == e[..k] + e[k + 1..] && elem !in t
            && (forall i, j :: 0 <= i < j < |t| ==> t[i] != t[j])
  {
  }

  class List {
    const head: ListElem
    const tail: ListElem
    /** head, the elements in order, tail */
    ghost var nodes: seq<ListElem>

    /** prev and next are inverse to each other along `nodes`, which visits no node twice. */
    ghost predicate Valid()
      reads this, nodes
    {
      && |nodes| >= 2 && nodes[0] == head && nodes[|nodes| - 1] == tail
      && (forall i, j :: 0 <= i < j < |nodes| ==> nodes[i] != nodes[j])
      && (forall i {:trigger nodes[i].next} :: 0 <= i < |nodes| - 1 ==> nodes[i].next == nodes[i + 1])
      && (forall i {:trigger nodes[i].prev} :: 1 <= i < |nodes| ==> nodes[i].prev == nodes[i - 1])
      && head.prev == null && tail.next == null
    }

    /** The mathematical sequence the list stands for. */
    ghost function Elems(): seq<ListElem>
      requires |nodes| >= 2
      reads this
    {
      nodes[1..|nodes| - 1]
    }

    /** list_init */
    constructor ()
      ensures Valid() && Elems() == []
      ensures fresh(head) && fresh(tail)
    {
      head := new ListElem();
      tail := new ListElem();
      new;
      head.prev := null;
      head.next := tail;
      tail.prev := head;
      tail.next := null;
      nodes := [head, tail];
    }

    /** list_insert_before, where `before` is element k or the tail sentinel. */
    method InsertBefore(before: ListElem, elem: ListElem, ghost k: nat)
      requires Valid() && k + 1 < |nodes| && nodes[k + 1] == before && elem !in nodes
      modifies this`nodes, nodes[k], before, elem
      ensures Valid() && Elems() == old(Elems())[..k] + [elem] + old(Elems())[k..]
    {
      ghost var was := nodes;
      assert nodes[k + 1].prev == nodes[k];
      before.prev.next := elem;
      elem.prev := before.prev;
      elem.next := before;
      before.prev := elem;
      nodes := nodes[..k + 1] + [elem] + nodes[k + 1..];
      Spliced(was, k, elem);
      forall i {:trigger nodes[i].next} | 0 <= i < |nodes| - 1 ensures nodes[i].next == nodes[i + 1] {
        assert i > k + 1 ==> nodes[i] == was[i - 1] && old(was[i - 1].next) == was[i];
        assert i <= k ==> nodes[i] == was[i] && old(was[i].next) == was[i + 1];
      }
      forall i {:trigger nodes[i].prev} | 1 <= i < |nodes| ensures nodes[i].prev == nodes[i - 1] {
        assert i > k + 1 ==> nodes[i] == was[i - 1] && old(was[i - 1].prev) == was[i - 2];
        assert i <= k ==> nodes[i] == was[i] && old(was[i].prev) == was[i - 1];
      }
    }

    /** list_push */
    method Push(elem: ListElem)
      requires Valid() && elem !in nodes
      modifies this`nodes, nodes, elem
      ensures Valid() && Elems() == [elem] + old(Elems())
    {
      assert nodes[0].next == nodes[1];
      InsertBefore(head.next, elem, 0);
    }

    /** list_append */
    method Append(elem: ListElem)
      requires Valid() && elem !in nodes
      modifies this`nodes, nodes, elem
      ensures Valid() && Elems() == old(Elems()) + [elem]
    {
      InsertBefore(tail, elem, |nodes| - 2);
    }

    /** list_remove, for element k.  The links of the removed node keep their old values. */
    method Remove(elem: ListElem, ghost k: nat)
      requires Valid() && k < |Elems()| && Elems()[k] == elem
      modifies this`nodes, nodes[k], nodes[k + 2]
      ensures Valid() && Elems() == old(Elems())[..k] + old(Elems())[k + 1..] && elem !in nodes
    {
      ghost var was := nodes;
      assert nodes[k + 1] == elem && nodes[k + 1].prev == nodes[k] && nodes[k + 1].next == nodes[k + 2];
      elem.prev.next := elem.next;
      elem.next.prev := elem.prev;
      nodes := nodes[..k + 1] + nodes[k + 2..];
      Cut(was, k, elem);
      forall i {:trigger nodes[i].next} | 0 <= i < |nodes| - 1 ensures nodes[i].next == nodes[i + 1] {
        assert i > k ==> nodes[i] == was[i + 1] && old(was[i + 1].next) == was[i + 2];
        assert i < k ==> nodes[i] == was[i] && old(was[i].next) == was[i + 1];
      }
      forall i {:trigger nodes[i].prev} | 1 <= i < |nodes| ensures nodes[i].prev == nodes[i - 1] {
        assert i > k + 1 ==> nodes[i] == was[i + 1] && old(was[i + 1].prev) == was[i];
        assert i <= k ==> nodes[i] == was[i] && old(was[i].prev) == was[i - 1];
      }
    }

    /** list_pop */
    method Pop() returns (elem: ListElem)
      requires Valid() && Elems() != []
      modifies this`nodes, nodes
      ensures Valid() && [elem] + Elems() == old(Elems()) && elem !in nodes
    {
      assert nodes[0].next == nodes[1];
      elem := head.next;
      Remove(elem, 0);
    }

    /** elem_find */
    method Find(obj: ListElem) returns (found: bool)
      requires Valid()
      ensures found <==> obj in Elems()
    {
      assert nodes[0].next == nodes[1];
      var elem := head.next;
      ghost var i := 1;
      while elem != tail
        invariant 1 <= i < |nodes| && elem == nodes[i]
        invariant obj !in nodes[1..i]
        decreases |nodes| - i
      {
        if elem == obj {
          return true;
        }
        assert nodes[i].next == nodes[i + 1];
        elem := elem.next;
        i := i + 1;
      }
      return false;
    }

    /** list_len */
    method Len() returns (length: nat)
      requires Valid()
      ensures length == |Elems()|
    {
      assert nodes[0].next == nodes[1];
      var elem := head.next;
      length := 0;
      while elem != tail
        invariant length + 1 < |nodes| && elem == nodes[length + 1]
        decreases |nodes| - length
      {
        assert nodes[length + 1].next == nodes[length + 2];
        length := length + 1;
        elem := elem.next;
      }
    }

    /** list_empty */
    method Empty() returns (empty: bool)
      requires Valid()
      ensures empty <==> Elems() == []
    {
      assert nodes[0].next == nodes[1];
      empty := head.next == tail;
    }
  }
}
