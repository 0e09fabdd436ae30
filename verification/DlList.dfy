// The intrusive circular doubly linked list of htc/dl_list.h.
//
// ListLink is the first field of HTC_PACKET, so a link and the packet around it are one
// object at one address; DlNode is that object.  A list head is a DlNode whose packet
// fields are never read.

module DlList {
  import opened Common
  import opened TxTypes

  class DlNode {
    var prev: DlNode?
    var next: DlNode?
    var packet: TxPacket

    constructor (packet: TxPacket)
      ensures this.packet == packet
    {
      this.packet := packet;
      prev, next := null, null;
    }
  }

  /** Neighbours in `items` are linked both ways. */
  ghost predicate Linked(items: seq<DlNode>)
    reads items`prev, items`next
  {
    && (forall i {:trigger items[i].next} | 0 <= i < |items| - 1 :: items[i].next == items[i + 1])
    && (forall i {:trigger items[i].prev} | 1 <= i < |items| :: items[i].prev == items[i - 1])
  }

  /** `head` and `items` form a well-formed circular list with `items` in order. */
  ghost predicate Circular(head: DlNode, items: seq<DlNode>)
    reads head`prev, head`next, items`prev, items`next
  {
    && head !in items
    && Distinct(items)
    && Linked(items)
    && (if items == [] then head.next == head && head.prev == head
        else
          && head.next == items[0] && items[0].prev == head
          && head.prev == items[|items| - 1] && items[|items| - 1].next == head)
  }

  /** The successor of the item after `a` and before `b`. */
  lemma NextOf(head: DlNode, a: seq<DlNode>, n: DlNode, b: seq<DlNode>)
    requires Circular(head, a + [n] + b)
    ensures n.next == if b == [] then head else b[0]
  {
    var items := a + [n] + b;
    assert items[|a|] == n;
    assert b != [] ==> items[|a| + 1] == b[0];
  }

  method InitList(list: DlNode)
    modifies list`prev, list`next
    ensures Circular(list, [])
  {
    list.prev := list;
    list.next := list;
  }

  method InitAndAdd(list: DlNode, item: DlNode)
    requires list != item
    modifies list`prev, list`next, item`prev, item`next
    ensures Circular(list, [item])
  {
    list.prev := item;
    list.next := item;
    item.next := list;
    item.prev := list;
  }

  method IsEmpty(list: DlNode, ghost items: seq<DlNode>) returns (empty: bool)
    requires Circular(list, items)
    ensures empty <==> items == []
  {
    empty := list.prev == list && list.next == list;
  }

  method IsEntryInList(list: DlNode, entry: DlNode, ghost items: seq<DlNode>) returns (found: bool)
    requires Circular(list, items)
    ensures found <==> entry == list || entry in items
  {
    if list == entry {
      return true;
    }
    var t := list.next;
    ghost var k := 0;
    while t != list
      invariant 0 <= k <= |items|
      invariant t == if k < |items| then items[k] else list
      invariant entry !in items[..k]
      decreases |items| - k
    {
      if t == entry {
        return true;
      }
      t := t.next;
      k := k + 1;
    }
    return false;
  }

  method InsertTail(list: DlNode, add: DlNode, ghost items: seq<DlNode>)
    requires Circular(list, items)
    requires add != list && add !in items
    modifies list`prev, list`next, items`next, add`prev, add`next
    ensures Circular(list, items + [add])
  {
    add.prev := list.prev;
    add.next := list;
    if list.prev != null {
      list.prev.next := add;
    }
    list.prev := add;
  }

  method InsertHead(list: DlNode, add: DlNode, ghost items: seq<DlNode>)
    requires Circular(list, items)
    requires add != list && add !in items
    modifies list`prev, list`next, items`prev, add`prev, add`next
    ensures Circular(list, [add] + items)
  {
    add.prev := list;
    add.next := list.next;
    list.next.prev := add;
    list.next := add;
  }

  /** Dropping one position leaves the others distinct, and drops its value. */
  lemma DistinctWithout<T>(s: seq<T>, k: nat)
    requires Distinct(s) && k < |s|
    ensures Distinct(s[..k] + s[k + 1..])
    ensures forall x :: x in s[..k] + s[k + 1..] <==> x in s && x != s[k]
  {
    var rest := s[..k] + s[k + 1..];
    assert forall i | 0 <= i < |rest| :: rest[i] == s[if i < k then i else i + 1];
    forall x | x in s && x != s[k] ensures x in rest {
      var i :| 0 <= i < |s| && s[i] == x;
      assert rest[if i < k then i else i - 1] == x;
    }
  }

  /** Unlinks the item at position `k`; the node is left pointing at itself. */
  method Remove(del: DlNode, ghost list: DlNode, ghost items: seq<DlNode>, ghost k: nat)
    requires Circular(list, items)
    requires k < |items| && items[k] == del
    modifies list`prev, list`next, items`prev, items`next
    ensures Circular(list, items[..k] + items[k + 1..])
    ensures Circular(del, [])
  {
    if del.next != null {
      del.next.prev := del.prev;
    }
    if del.prev != null {
      del.prev.next := del.next;
    }
    del.next := del;
    del.prev := del;
    ghost var rest := items[..k] + items[k + 1..];
    forall i | 0 <= i < |rest|
      ensures i < |rest| - 1 ==> rest[i].next == rest[i + 1]
      ensures i > 0 ==> rest[i].prev == rest[i - 1]
    {
      var j := if i < k then i else i + 1;
      assert rest[i] == items[j] && items[j] != del;
      assert j < |items| - 1 ==> old(items[j].next) == items[j + 1];
      assert j > 0 ==> old(items[j].prev) == items[j - 1];
    }
    DistinctWithout(items, k);
  }

  method RemoveItemFromHead(list: DlNode, ghost items: seq<DlNode>) returns (item: DlNode?)
    requires Circular(list, items)
    modifies list`prev, list`next, items`prev, items`next
    ensures items == [] ==> item == null && Circular(list, [])
    ensures items != [] ==> item == items[0] && Circular(list, items[1..]) && Circular(items[0], [])
  {
    item := null;
    if list.next != list {
      item := list.next;
      Remove(item, list, items, 0);
      assert items[..0] + items[1..] == items[1..];
    }
  }

  method RemoveItemFromTail(list: DlNode, ghost items: seq<DlNode>) returns (item: DlNode?)
    requires Circular(list, items)
    modifies list`prev, list`next, items`prev, items`next
    ensures items == [] ==> item == null && Circular(list, [])
    ensures items != [] ==> var n := |items| - 1;
      item == items[n] && Circular(list, items[..n]) && Circular(items[n], [])
  {
    item := null;
    if list.prev != list {
      item := list.prev;
      ghost var n := |items| - 1;
      Remove(item, list, items, n);
      assert items[..n] + items[n + 1..] == items[..n];
    }
  }

  /** Two lists that share no node. */
  ghost predicate Separate(list1: DlNode, items1: seq<DlNode>, list2: DlNode, items2: seq<DlNode>) {
    && list1 != list2 && list1 !in items2 && list2 !in items1
    && forall n | n in items1 :: n !in items2
  }

  /** Joining two disjoint duplicate-free sequences leaves no duplicate. */
  lemma DistinctJoin<T>(a: seq<T>, b: seq<T>)
    requires Distinct(a) && Distinct(b)
    requires forall x | x in a :: x !in b
    ensures Distinct(a + b)
  {
    forall i, j | 0 <= i < j < |a + b| ensures (a + b)[i] != (a + b)[j] {
      assert i < |a| ==> (a + b)[i] == a[i] && a[i] in a;
      assert j >= |a| ==> (a + b)[j] == b[j - |a|] && b[j - |a|] in b;
    }
  }

  /** Two linked runs joined by a link are one linked run. */
  lemma LinkedJoin(a: seq<DlNode>, b: seq<DlNode>)
    requires Linked(a) && Linked(b)
    requires a != [] && b != [] ==> a[|a| - 1].next == b[0] && b[0].prev == a[|a| - 1]
    ensures Linked(a + b)
  {
    var r := a + b;
    forall i | 0 <= i < |r|
      ensures i < |r| - 1 ==> r[i].next == r[i + 1]
      ensures i > 0 ==> r[i].prev == r[i - 1]
    {
      if i < |a| {
        assert r[i] == a[i];
      } else {
        assert r[i] == b[i - |a|];
      }
    }
  }

  method TransferItemsToTail(dest: DlNode, src: DlNode, ghost d: seq<DlNode>, ghost s: seq<DlNode>)
    requires Circular(dest, d) && Circular(src, s) && Separate(dest, d, src, s)
    modifies dest`prev, dest`next, src`prev, src`next, d`next, s`prev, s`next
    ensures Circular(dest, d + s)
    ensures Circular(src, [])
  {
    var empty := IsEmpty(src, s);
    if !empty {
      src.prev.next := dest;
      src.next.prev := dest.prev;
      dest.prev.next := src.next;
      dest.prev := src.prev;
      src.prev := src;
      src.next := src;
      DistinctJoin(d, s);
      LinkedJoin(d, s);
    } else {
      assert d + s == d;
    }
  }

  method TransferItemsToHead(dest: DlNode, src: DlNode, ghost d: seq<DlNode>, ghost s: seq<DlNode>)
    requires Circular(dest, d) && Circular(src, s) && Separate(dest, d, src, s)
    modifies dest`prev, dest`next, src`prev, src`next, d`prev, s`prev, s`next
    ensures Circular(dest, s + d)
    ensures Circular(src, [])
  {
    var empty := IsEmpty(src, s);
    if !empty {
      src.next.prev := dest;
      dest.next.prev := src.prev;
      src.prev.next := dest.next;
      dest.next := src.next;
      src.prev := src;
      src.next := src;
      DistinctJoin(s, d);
      LinkedJoin(s, d);
    } else {
      assert s + d == d;
    }
  }
}
