// The scans of htc/htc_send.c that cut into linked packet queues while walking them.

module QueueScans {
  import opened Common
  import opened TxTypes
  import opened TxSpec
  import opened DlList
  import opened PacketQueues

  /** Two queues that share neither a link nor a head. */
  ghost predicate Apart(q1: PacketQueue, q2: PacketQueue)
    reads q1, q2
  {
    q1 != q2 && q1.nodes !! q2.nodes
  }

  // ---------- extract_htc_pm_packets ----------

  /** The links of `s` that carry AUTO_PM packets, when `s` carries `ps`. */
  ghost function PmNodes(s: seq<DlNode>, ps: seq<TxPacket>): seq<DlNode>
    requires |s| == |ps|
  {
    if s == [] then []
    else if ps[0].tag == AutoPm then [s[0]] + PmNodes(s[1..], ps[1..])
    else PmNodes(s[1..], ps[1..])
  }

  ghost function NonPmNodes(s: seq<DlNode>, ps: seq<TxPacket>): seq<DlNode>
    requires |s| == |ps|
  {
    if s == [] then []
    else if ps[0].tag == AutoPm then NonPmNodes(s[1..], ps[1..])
    else [s[0]] + NonPmNodes(s[1..], ps[1..])
  }

  /** Moves the packet at position `k` of `source` to the tail of `dest`. */
  method MoveAcross(source: PacketQueue, dest: PacketQueue, p: DlNode, ghost k: nat)
    requires source.Valid() && dest.Valid() && Apart(source, dest)
    requires k < |source.items| && source.items[k] == p
    modifies source, dest, source.nodes`prev, source.nodes`next, dest.nodes`prev, dest.nodes`next
    ensures source.Valid() && dest.Valid() && Apart(source, dest)
    ensures source.nodes + dest.nodes == old(source.nodes + dest.nodes)
    ensures source.items == old(source.items)[..k] + old(source.items)[k + 1..]
    ensures dest.items == old(dest.items) + [p]
  {
    source.Remove(p, k);
    dest.Enqueue(p);
  }

  /** Moving the first link of `rest` to the side it belongs to. */
  lemma PmNodesNext(kept: seq<DlNode>, taken: seq<DlNode>, rest: seq<DlNode>, ps: seq<TxPacket>)
    requires |rest| == |ps| && rest != []
    ensures var pm := ps[0].tag == AutoPm;
      && kept + NonPmNodes(rest, ps) == (kept + if pm then [] else [rest[0]]) + NonPmNodes(rest[1..], ps[1..])
      && taken + PmNodes(rest, ps) == (taken + if pm then [rest[0]] else []) + PmNodes(rest[1..], ps[1..])
    ensures kept + rest == kept + [rest[0]] + rest[1..]
  {
    assert rest == [rest[0]] + rest[1..];
    Assoc(kept, [rest[0]], rest[1..]);
    if ps[0].tag == AutoPm {
      Assoc(kept, [], NonPmNodes(rest[1..], ps[1..]));
      Assoc(taken, [rest[0]], PmNodes(rest[1..], ps[1..]));
    } else {
      Assoc(kept, [rest[0]], NonPmNodes(rest[1..], ps[1..]));
      Assoc(taken, [], PmNodes(rest[1..], ps[1..]));
    }
  }

  /** Visits one link: an AUTO_PM packet moves across, any other stays in front of the rest. */
  method ExtractOne(txQueue: PacketQueue, queue: PacketQueue, packet: DlNode, ghost kept: seq<DlNode>,
                    ghost rest: seq<DlNode>)
    returns (ghost stays: seq<DlNode>, ghost goes: seq<DlNode>)
    requires txQueue.Valid() && queue.Valid() && Apart(txQueue, queue)
    requires txQueue.items == kept + [packet] + rest
    modifies txQueue, queue, txQueue.nodes`prev, txQueue.nodes`next, queue.nodes`prev, queue.nodes`next
    ensures txQueue.Valid() && queue.Valid() && Apart(txQueue, queue)
    ensures txQueue.nodes + queue.nodes == old(txQueue.nodes + queue.nodes)
    ensures packet.packet.tag == AutoPm ==> stays == [] && goes == [packet]
    ensures packet.packet.tag != AutoPm ==> stays == [packet] && goes == []
    ensures txQueue.items == (kept + stays) + rest && queue.items == old(queue.items) + goes
  {
    if packet.packet.tag == AutoPm {
      stays, goes := [], [packet];
      MoveAcross(txQueue, queue, packet, |kept|);
    } else {
      stays, goes := [packet], [];
    }
  }

  /** Moves the AUTO_PM packets out of `txQueue`, which carries `ps`, keeping the order on
      both sides. */
  method ExtractPmPackets(txQueue: PacketQueue, queue: PacketQueue, ghost ps: seq<TxPacket>)
    requires txQueue.Valid() && queue.Valid() && Apart(txQueue, queue)
    requires Carries(txQueue.items, ps)
    modifies txQueue, queue, txQueue.nodes`prev, txQueue.nodes`next, queue.nodes`prev, queue.nodes`next
    ensures txQueue.Valid() && queue.Valid() && Apart(txQueue, queue)
    ensures txQueue.nodes + queue.nodes == old(txQueue.nodes + queue.nodes)
    ensures txQueue.items == NonPmNodes(old(txQueue.items), ps)
    ensures queue.items == old(queue.items) + PmNodes(old(txQueue.items), ps)
  {
    ghost var s, q := txQueue.items, queue.items;
    ghost var kept: seq<DlNode>, taken: seq<DlNode>, rest, psRest := [], [], s, ps;
    var temp := txQueue.head.next;
    while temp != txQueue.head
      invariant txQueue.Valid() && queue.Valid() && Apart(txQueue, queue)
      invariant txQueue.nodes + queue.nodes == old(txQueue.nodes + queue.nodes)
      invariant Carries(rest, psRest)
      invariant txQueue.items == kept + rest && queue.items == q + taken
      invariant temp == if rest == [] then txQueue.head else rest[0]
      invariant kept + NonPmNodes(rest, psRest) == NonPmNodes(s, ps)
      invariant taken + PmNodes(rest, psRest) == PmNodes(s, ps)
      decreases |rest|
    {
      var packet: DlNode := temp;
      PmNodesNext(kept, taken, rest, psRest);
      NextOf(txQueue.head, kept, packet, rest[1..]);
      temp := temp.next;
      ghost var stays, goes := ExtractOne(txQueue, queue, packet, kept, rest[1..]);
      Assoc(q, taken, goes);
      kept, taken := kept + stays, taken + goes;
      rest, psRest := rest[1..], psRest[1..];
    }
    Assoc(kept, [], []);
    Assoc(taken, [], []);
  }

  lemma {:induction false} PmNodesCarryPm(s: seq<DlNode>, ps: seq<TxPacket>)
    requires Carries(s, ps)
    ensures Carries(PmNodes(s, ps), Pm(ps))
    ensures Carries(NonPmNodes(s, ps), NonPm(ps))
  {
    if s != [] {
      PmNodesCarryPm(s[1..], ps[1..]);
    }
  }

  // ---------- htc_lookup_tx_packet ----------

  /** Walks the local lookup queue and takes out the first packet with the given netbuf. */
  method TakeByNetbuf(local: PacketQueue, netbuf: nat, ghost ps: seq<TxPacket>) returns (found: DlNode?)
    requires local.Valid() && Carries(local.items, ps)
    modifies local, local.nodes`prev, local.nodes`next
    ensures local.Valid() && local.nodes <= old(local.nodes)
    ensures var k, s := Find(ps, netbuf), old(local.items);
      if k < |s| then found == s[k] && local.items == s[..k] + s[k + 1..]
      else found == null && local.items == s
  {
    ghost var s := local.items;
    ghost var k := 0;
    var temp := local.head.next;
    while temp != local.head
      invariant local.Valid() && local.items == s && local.nodes == old(local.nodes)
      invariant 0 <= k <= |s| && temp == if k < |s| then s[k] else local.head
      invariant k <= Find(ps, netbuf)
      decreases |s| - k
    {
      var packet := temp;
      temp := temp.next;
      assert ps[k] == packet.packet;
      if packet.packet.netbuf == netbuf {
        local.Remove(packet, k);
        return packet;
      }
      k := k + 1;
    }
    return null;
  }

  /** The slow path: the whole queue moves to a local one, is searched there, and comes back. */
  method SpliceAndSearch(lookup: PacketQueue, first: DlNode, netbuf: nat,
                         ghost ps: seq<TxPacket>) returns (found: DlNode?)
    requires lookup.Valid() && first !in lookup.nodes && Carries([first] + lookup.items, ps)
    modifies lookup, lookup.nodes`prev, lookup.nodes`next, first`prev, first`next
    ensures lookup.Valid() && lookup.nodes <= old(lookup.nodes) + {first}
    ensures var s := [first] + old(lookup.items); var k := Find(ps, netbuf);
      if k < |s| then found == s[k] && lookup.items == s[..k] + s[k + 1..]
      else found == null && lookup.items == s
  {
    var local := new PacketQueue();
    local.Enqueue(first);
    local.TransferToTail(lookup);
    assert local.items == [first] + old(lookup.items);
    found := TakeByNetbuf(local, netbuf, ps);
    lookup.TransferToHead(local);
    assert lookup.items == lookup.items + [];
  }

  /** Takes the first packet with the given netbuf out of the lookup queue, trying its head first. */
  method LookupTxPacket(lookup: PacketQueue, netbuf: nat, ghost ps: seq<TxPacket>) returns (found: DlNode?)
    requires lookup.Valid() && Carries(lookup.items, ps)
    modifies lookup, lookup.nodes`prev, lookup.nodes`next
    ensures lookup.Valid() && lookup.nodes <= old(lookup.nodes)
    ensures var k, s := Find(ps, netbuf), old(lookup.items);
      if k < |s| then found == s[k] && lookup.items == s[..k] + s[k + 1..]
      else found == null && lookup.items == s
  {
    ghost var s := lookup.items;
    var first := lookup.Dequeue();
    if first == null {
      return null;
    }
    assert s == [first] + s[1..];
    if first.packet.netbuf == netbuf {
      return first;
    }
    found := SpliceAndSearch(lookup, first, netbuf, ps);
  }

  // ---------- the failure path of htc_send_bundled_netbuf ----------

  /** Every packet of a bundle goes back in front of the TX queue.  The walk over `saved`
      enqueues each packet elsewhere without unlinking it first; it still visits every packet
      once, because each successor is read before its packet is linked anew. */
  method RequeueBundle(saved: PacketQueue, txQueue: PacketQueue)
    requires saved.Valid() && txQueue.Valid() && Apart(saved, txQueue)
    modifies saved, txQueue, saved.nodes`prev, saved.nodes`next, txQueue.nodes`prev, txQueue.nodes`next
    ensures saved.Valid() && txQueue.Valid()
    ensures saved.items == [] && txQueue.items == old(saved.items) + old(txQueue.items)
  {
    var requeue := new PacketQueue();
    EnqueueEach(saved, requeue);
    saved.Init();
    txQueue.TransferToHead(requeue);
  }

  /** The links still to be walked lead through `rest` to the head, and none is in `requeue`. */
  ghost predicate Unvisited(head: DlNode, rest: seq<DlNode>, nodes: set<DlNode>)
    reads rest`next
  {
    && Distinct(rest) && (forall i | 0 <= i < |rest| :: rest[i] !in nodes)
    && forall i {:trigger rest[i].next} | 0 <= i < |rest| ::
         rest[i].next == if i + 1 < |rest| then rest[i + 1] else head
  }

  /** Reads the successor of a link and then links the packet into `requeue`. */
  method EnqueueNext(head: DlNode, packet: DlNode, requeue: PacketQueue, ghost rest: seq<DlNode>,
                     ghost links: set<DlNode>, ghost all: set<DlNode>)
    returns (next: DlNode?)
    requires requeue.Valid() && rest != [] && rest[0] == packet && Unvisited(head, rest, requeue.nodes)
    requires Within(rest, links) && links <= all && requeue.nodes <= all
    modifies requeue, requeue.nodes`prev, requeue.nodes`next, packet`prev, packet`next
    ensures requeue.Valid() && Unvisited(head, rest[1..], requeue.nodes)
    ensures requeue.items == old(requeue.items) + [packet] && requeue.nodes <= all && Within(rest[1..], links)
    ensures next == if rest[1..] == [] then head else rest[1..][0]
  {
    next := packet.next;
    requeue.Enqueue(packet);
  }

  lemma HeadJoin(a: seq<DlNode>, rest: seq<DlNode>)
    requires rest != []
    ensures (a + [rest[0]]) + rest[1..] == a + rest && (a + rest)[|a|] == rest[0]
  {
  }

  lemma UnvisitedAtStart(saved: PacketQueue, requeue: PacketQueue)
    requires saved.Valid() && requeue.Valid() && Apart(saved, requeue) && requeue.items == []
    ensures Unvisited(saved.head, saved.items, requeue.nodes) && Within(saved.items, saved.nodes - {saved.head})
    ensures saved.head.next == if saved.items == [] then saved.head else saved.items[0]
  {
  }

  /** The walk: `saved` is left with stale links, every packet of it is in `requeue`. */
  method EnqueueEach(saved: PacketQueue, requeue: PacketQueue)
    requires saved.Valid() && requeue.Valid() && Apart(saved, requeue) && requeue.items == []
    modifies requeue, saved.nodes`prev, saved.nodes`next, requeue.nodes`prev, requeue.nodes`next
    ensures requeue.Valid() && requeue.items == saved.items
    ensures requeue.nodes <= old(requeue.nodes) + saved.nodes - {saved.head}
  {
    ghost var s, rest, links := saved.items, saved.items, saved.nodes - {saved.head};
    ghost var all := requeue.nodes + links;
    UnvisitedAtStart(saved, requeue);
    var temp := saved.head.next;
    while temp != saved.head
      invariant requeue.Valid() && requeue.items + rest == s
      invariant requeue.nodes <= all && Within(rest, links)
      invariant temp == if rest == [] then saved.head else rest[0]
      invariant Unvisited(saved.head, rest, requeue.nodes)
      decreases |rest|
    {
      HeadJoin(requeue.items, rest);
      temp := EnqueueNext(saved.head, temp, requeue, rest, links, all);
      rest := rest[1..];
    }
  }
}
