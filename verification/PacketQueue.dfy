// HTC_PACKET_QUEUE of htc/htc_packet.h: a circular list with a cached depth.

module PacketQueues {
  import opened Common
  import opened TxTypes
  import opened DlList

  /** The links of a queue carry `ps`, in order. */
  ghost predicate Carries(items: seq<DlNode>, ps: seq<TxPacket>)
    reads items`packet
  {
    |items| == |ps| && forall i {:trigger items[i].packet} | 0 <= i < |items| :: items[i].packet == ps[i]
  }

  lemma CarriesWithout(items: seq<DlNode>, ps: seq<TxPacket>, k: nat)
    requires k < |items| && Carries(items, ps)
    ensures Carries(items[..k] + items[k + 1..], ps[..k] + ps[k + 1..])
  {
  }

  lemma CarriesConcat(a: seq<DlNode>, b: seq<DlNode>, p: seq<TxPacket>, q: seq<TxPacket>)
    requires Carries(a, p) && Carries(b, q)
    ensures Carries(a + b, p + q)
  {
  }

  ghost predicate Within(items: seq<DlNode>, nodes: set<DlNode>) {
    forall i | 0 <= i < |items| :: items[i] in nodes
  }

  lemma WithinBoth(a: seq<DlNode>, b: seq<DlNode>, nodes: set<DlNode>, more: set<DlNode>, out: DlNode)
    requires Within(a, nodes) && Within(b, more) && out !in b && out !in nodes
    ensures Within(a + b, nodes + (more - {out})) && Within(b + a, nodes + (more - {out}))
  {
  }

  class PacketQueue {
    const head: DlNode
    var depth: int
    ghost var items: seq<DlNode>
    ghost var nodes: set<DlNode>   // the head and every link in the queue

    ghost predicate Valid()
      reads this, nodes
    {
      && head in nodes && Within(items, nodes)
      && depth == |items| && Circular(head, items)
    }

    constructor ()
      ensures Valid() && items == [] && nodes == {head} && fresh(head)
    {
      head := new DlNode(TxPacket(0, 0, Ordinary, 0, 0, false));
      new;
      InitList(head);
      depth := 0;
      items := [];
      nodes := {head};
    }

    /** INIT_HTC_PACKET_QUEUE on a queue that may still point at nodes it no longer owns. */
    method Init()
      modifies this, head`prev, head`next
      ensures Valid() && items == [] && nodes == {head}
    {
      InitList(head);
      depth := 0;
      items := [];
      nodes := {head};
    }

    method InitAndAdd(p: DlNode)
      requires p != head
      modifies this, head`prev, head`next, p`prev, p`next
      ensures Valid() && items == [p] && nodes == {head, p}
    {
      DlList.InitAndAdd(head, p);
      depth := 1;
      items := [p];
      nodes := {head, p};
    }

    method Enqueue(p: DlNode)
      requires Valid() && p !in nodes
      modifies this, nodes`prev, nodes`next, p`prev, p`next
      ensures Valid() && items == old(items) + [p] && nodes == old(nodes) + {p}
    {
      InsertTail(head, p, items);
      items := items + [p];
      nodes := nodes + {p};
      depth := depth + 1;
    }

    method EnqueueToHead(p: DlNode)
      requires Valid() && p !in nodes
      modifies this, nodes`prev, nodes`next, p`prev, p`next
      ensures Valid() && items == [p] + old(items) && nodes == old(nodes) + {p}
    {
      InsertHead(head, p, items);
      items := [p] + items;
      nodes := nodes + {p};
      depth := depth + 1;
    }

    method PacketAtHead() returns (p: DlNode?)
      requires Valid()
      ensures p == if items == [] then null else items[0]
    {
      if depth == 0 {
        p := null;
      } else {
        p := head.next;
      }
    }

    /** HTC_PACKET_REMOVE: takes `p` out wherever it is in the queue. */
    method Remove(p: DlNode, ghost k: nat)
      requires Valid() && k < |items| && items[k] == p
      modifies this, nodes`prev, nodes`next
      ensures Valid() && items == old(items)[..k] + old(items)[k + 1..] && nodes == old(nodes) - {p}
    {
      DistinctWithout(items, k);
      DlList.Remove(p, head, items, k);
      items := items[..k] + items[k + 1..];
      nodes := nodes - {p};
      depth := depth - 1;
    }

    method Dequeue() returns (p: DlNode?)
      requires Valid()
      modifies this, nodes`prev, nodes`next
      ensures Valid()
      ensures old(items) == [] ==> p == null && items == [] && nodes == old(nodes)
      ensures old(items) != [] ==>
        p == old(items)[0] && items == old(items)[1..] && nodes == old(nodes) - {p}
    {
      var item := RemoveItemFromHead(head, items);
      p := null;
      if item != null {
        depth := depth - 1;
        items := items[1..];
        nodes := nodes - {item};
        p := item;
      }
    }

    method DequeueTail() returns (p: DlNode?)
      requires Valid()
      modifies this, nodes`prev, nodes`next
      ensures Valid()
      ensures old(items) == [] ==> p == null && items == [] && nodes == old(nodes)
      ensures old(items) != [] ==> var n := |old(items)| - 1;
        p == old(items)[n] && items == old(items)[..n] && nodes == old(nodes) - {p}
    {
      var item := RemoveItemFromTail(head, items);
      p := null;
      if item != null {
        depth := depth - 1;
        items := items[..|items| - 1];
        nodes := nodes - {item};
        p := item;
      }
    }

    /** Moves all of `src` behind this queue's packets. */
    method TransferToTail(src: PacketQueue)
      requires Valid() && src.Valid() && src != this && nodes !! src.nodes
      modifies this, src, nodes`prev, nodes`next, src.nodes`prev, src.nodes`next
      ensures Valid() && src.Valid() && src.items == [] && src.nodes == {src.head}
      ensures items == old(items) + old(src.items) && nodes == old(nodes) + old(src.nodes) - {src.head}
    {
      WithinBoth(items, src.items, nodes, src.nodes, src.head);
      TransferItemsToTail(head, src.head, items, src.items);
      depth := depth + src.depth;
      items, nodes := items + src.items, nodes + (src.nodes - {src.head});
      src.items, src.nodes := [], {src.head};
      src.depth := 0;
    }

    /** Moves all of `src` in front of this queue's packets: the contents a transfer of this
        queue to the tail of `src` would give, held by this queue. */
    method TransferToHead(src: PacketQueue)
      requires Valid() && src.Valid() && src != this && nodes !! src.nodes
      modifies this, src, nodes`prev, nodes`next, src.nodes`prev, src.nodes`next
      ensures Valid() && src.Valid() && src.items == [] && src.nodes == {src.head}
      ensures items == old(src.items) + old(items) && nodes == old(nodes) + old(src.nodes) - {src.head}
    {
      WithinBoth(items, src.items, nodes, src.nodes, src.head);
      TransferItemsToHead(head, src.head, items, src.items);
      depth := depth + src.depth;
      items, nodes := src.items + items, nodes + (src.nodes - {src.head});
      src.depth := 0;
      src.items, src.nodes := [], {src.head};
    }
  }
}
