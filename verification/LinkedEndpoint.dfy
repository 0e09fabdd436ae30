// The lock-held regions of htc/htc_send.c on linked packet queues: each does to the packets the
// queues carry what its function in TxSpec says, which is what the endpoint on sequences and the
// concurrent model are built on.

module LinkedEndpoints {
  import opened Common
  import opened TxTypes
  import opened TxSpec
  import opened DlList
  import opened PacketQueues
  import opened QueueScans

  /** A well-formed queue that carries `ps`. */
  ghost predicate Carrying(q: PacketQueue, ps: seq<TxPacket>)
    reads q, q.nodes
  {
    q.Valid() && Carries(q.items, ps)
  }

  /** Moves the packet at the head of `source` to the tail of `dest`, with what charging it wrote. */
  method MoveHead(source: PacketQueue, dest: PacketQueue, charged: TxPacket, ghost rest: seq<TxPacket>,
                  ghost taken: seq<TxPacket>)
    requires Carrying(source, rest) && Carrying(dest, taken) && Apart(source, dest) && rest != []
    modifies source, dest, source.nodes, dest.nodes
    ensures Carrying(source, rest[1..]) && Carrying(dest, taken + [charged]) && Apart(source, dest)
    ensures source.nodes + dest.nodes == old(source.nodes + dest.nodes)
  {
    var p := source.Dequeue();
    p.packet := charged;
    dest.Enqueue(p);
  }

  /** Moves the packet at the head of `source` to the tail of `dest` as it is. */
  method MoveNext(source: PacketQueue, dest: PacketQueue, ghost rest: seq<TxPacket>, ghost others: seq<TxPacket>)
    returns (p: DlNode?)
    requires Carrying(source, rest) && Carrying(dest, others) && Apart(source, dest)
    modifies source, dest, source.nodes`prev, source.nodes`next, dest.nodes`prev, dest.nodes`next
    ensures Apart(source, dest) && source.nodes + dest.nodes == old(source.nodes + dest.nodes)
    ensures source.nodes <= old(source.nodes)
    ensures rest == [] ==> p == null && Carrying(source, []) && Carrying(dest, others)
    ensures rest != [] ==> p != null && p.packet == rest[0] && Carrying(source, rest[1..])
                           && Carrying(dest, others + [rest[0]]) && dest.items[|others|] == p
  {
    p := source.Dequeue();
    if p != null {
      LinkLast(dest, p, others);
    }
  }

  /** Links a packet that is in no queue at the tail of `dest`. */
  method LinkLast(dest: PacketQueue, p: DlNode, ghost others: seq<TxPacket>)
    requires Carrying(dest, others) && p !in dest.nodes
    modifies dest, dest.nodes`prev, dest.nodes`next, p`prev, p`next
    ensures Carrying(dest, others + [p.packet]) && dest.items[|others|] == p && dest.nodes == old(dest.nodes) + {p}
  {
    CarriesConcat(dest.items, [p], others, [p.packet]);
    dest.Enqueue(p);
  }

  /** Takes packet `p`, the first with its netbuf, out of `lookup`. */
  method Unlink(lookup: PacketQueue, p: DlNode, ghost k: nat, ghost ps: seq<TxPacket>)
    requires Carrying(lookup, ps) && k < |lookup.items| && lookup.items[k] == p && k == Find(ps, p.packet.netbuf)
    modifies lookup, lookup.nodes`prev, lookup.nodes`next
    ensures Carrying(lookup, Without(ps, p.packet.netbuf)) && lookup.nodes == old(lookup.nodes) - {p}
  {
    WithoutSplices(ps, p.packet.netbuf);
    CarriesWithout(lookup.items, ps, k);
    lookup.Remove(p, k);
  }

  /** Links a packet that is in no queue at the head of `dest`. */
  method LinkFirst(dest: PacketQueue, p: DlNode, ghost others: seq<TxPacket>)
    requires Carrying(dest, others) && p !in dest.nodes
    modifies dest, dest.nodes`prev, dest.nodes`next, p`prev, p`next
    ensures Carrying(dest, [p.packet] + others) && dest.nodes == old(dest.nodes) + {p}
  {
    CarriesConcat([p], dest.items, [p.packet], others);
    dest.EnqueueToHead(p);
  }

  /** Moves packet `p`, the first with its netbuf, from `lookup` to the head of `dest`. */
  method MoveBack(lookup: PacketQueue, dest: PacketQueue, p: DlNode, ghost k: nat, ghost ps: seq<TxPacket>,
                  ghost others: seq<TxPacket>)
    requires Carrying(lookup, ps) && Carrying(dest, others) && Apart(lookup, dest)
    requires k < |lookup.items| && lookup.items[k] == p && k == Find(ps, p.packet.netbuf)
    modifies lookup, dest, lookup.nodes`prev, lookup.nodes`next, dest.nodes`prev, dest.nodes`next
    ensures Apart(lookup, dest) && lookup.nodes <= old(lookup.nodes) && dest.nodes == old(dest.nodes) + {p}
    ensures Carrying(lookup, Without(ps, p.packet.netbuf)) && Carrying(dest, [p.packet] + others)
  {
    Unlink(lookup, p, k, ps);
    LinkFirst(dest, p, others);
  }

  /** Takes the first packet with the netbuf out of a lookup queue. */
  method TakeOut(lookup: PacketQueue, netbuf: nat, ghost ps: seq<TxPacket>) returns (found: DlNode?)
    requires Carrying(lookup, ps)
    modifies lookup, lookup.nodes`prev, lookup.nodes`next
    ensures Carrying(lookup, Without(ps, netbuf)) && lookup.nodes <= old(lookup.nodes)
    ensures var k := Find(ps, netbuf);
      if k < |ps| then found != null && found.packet == ps[k] else found == null
  {
    WithoutSplices(ps, netbuf);
    found := LookupTxPacket(lookup, netbuf, ps);
  }

  /** Puts all of `src` in front of `dest`, or behind it. */
  method PutInFront(dest: PacketQueue, src: PacketQueue, ghost d: seq<TxPacket>, ghost s: seq<TxPacket>)
    requires Carrying(dest, d) && Carrying(src, s) && Apart(dest, src)
    modifies dest, src, dest.nodes`prev, dest.nodes`next, src.nodes`prev, src.nodes`next
    ensures Carrying(dest, s + d) && Carrying(src, []) && src.nodes == {src.head}
    ensures dest.nodes == old(dest.nodes) + old(src.nodes) - {src.head}
  {
    CarriesConcat(src.items, dest.items, s, d);
    dest.TransferToHead(src);
  }

  method PutBehind(dest: PacketQueue, src: PacketQueue, ghost d: seq<TxPacket>, ghost s: seq<TxPacket>)
    requires Carrying(dest, d) && Carrying(src, s) && Apart(dest, src)
    modifies dest, src, dest.nodes`prev, dest.nodes`next, src.nodes`prev, src.nodes`next
    ensures Carrying(dest, d + s) && Carrying(src, []) && src.nodes == {src.head}
    ensures dest.nodes == old(dest.nodes) + old(src.nodes) - {src.head}
  {
    CarriesConcat(dest.items, src.items, d, s);
    dest.TransferToTail(src);
  }

  function Prepended(p: TxPacket, g: Grabbed): Grabbed {
    g.(taken := [p] + g.taken)
  }

  /** The whole of a dequeue is what was taken so far and then what the rest of it gives. */
  ghost predicate Continues(whole: Grabbed, taken: seq<TxPacket>, g: Grabbed) {
    whole == g.(taken := taken + g.taken)
  }

  lemma OneMore(whole: Grabbed, taken: seq<TxPacket>, p: TxPacket, g: Grabbed)
    requires Continues(whole, taken, Prepended(p, g))
    ensures Continues(whole, taken + [p], g)
  {
    Assoc(taken, [p], g.taken);
  }

  lemma NoMore(whole: Grabbed, taken: seq<TxPacket>, g: Grabbed)
    requires Continues(whole, taken, g) && g.taken == []
    ensures whole == g.(taken := taken)
  {
  }

  class LinkedEndpoint {
    const cfg: EndpointConfig
    const txQueue: PacketQueue
    const lookupQueue: PacketQueue
    var txCredits: int
    var txProcessCount: int
    var outstanding: int
    var pmRefs: int

    constructor (cfg: EndpointConfig, credits: nat)
      ensures this.cfg == cfg && fresh(txQueue) && fresh(lookupQueue)
      ensures Represents(Endpoint([], [], credits, 0, 0, 0))
    {
      this.cfg := cfg;
      txQueue := new PacketQueue();
      lookupQueue := new PacketQueue();
      txCredits, txProcessCount, outstanding, pmRefs := credits, 0, 0, 0;
    }

    /** What charging the packet at the head of a queue comes to: no packet, not enough credits, or
        the packet charged. */
    method ChargeHead(head: DlNode?, doPmGet: bool, ghost rest: seq<TxPacket>, ghost good: nat)
      returns (charged: Option<TxPacket>)
      requires cfg.Valid() && (doPmGet ==> good > 0)
      requires head == null <==> rest == []
      requires head != null ==> head.packet == rest[0]
      modifies this`txCredits, this`pmRefs
      ensures pmRefs == old(pmRefs) + if doPmGet && charged.Some? then 1 else 0
      ensures var g := Grab(cfg, rest, old(txCredits), doPmGet, good);
        if charged.Some? then rest != [] && g == Prepended(charged.value,
          Grab(cfg, rest[1..], txCredits, doPmGet, if doPmGet then good - 1 else good))
        else g == Grabbed([], rest, txCredits, false)
    {
      charged := None;
      if doPmGet {
        pmRefs := pmRefs + 1;
      }
      var enough := false;
      if head != null {
        var need := CreditsRequired(cfg, head.packet);
        enough := cfg.isEndpoint0 || txCredits >= need;
        if enough {
          txCredits := txCredits - need;
          charged := Some(head.packet.(creditsUsed := need,
                                       needCreditUpdate := !cfg.isEndpoint0 && txCredits <= cfg.creditsPerMaxMsg));
        }
      }
      if doPmGet && !enough {
        pmRefs := pmRefs - 1;
      }
    }

    /** One turn of the credit-based dequeue loop after its runtime-PM get. */
    method TakeCharged(source: PacketQueue, dest: PacketQueue, doPmGet: bool, ghost rest: seq<TxPacket>,
                       ghost taken: seq<TxPacket>, ghost good: nat)
      returns (charged: Option<TxPacket>)
      requires cfg.Valid() && (doPmGet ==> good > 0)
      requires Carrying(source, rest) && Carrying(dest, taken) && Apart(source, dest)
      modifies this`txCredits, this`pmRefs, source, dest, source.nodes, dest.nodes
      ensures Apart(source, dest) && source.nodes + dest.nodes == old(source.nodes + dest.nodes)
      ensures pmRefs == old(pmRefs) + if doPmGet && charged.Some? then 1 else 0
      ensures charged.Some? ==> rest != [] && Carrying(source, rest[1..]) && Carrying(dest, taken + [charged.value])
      ensures charged.None? ==> Carrying(source, rest) && Carrying(dest, taken)
      ensures var g := Grab(cfg, rest, old(txCredits), doPmGet, good);
        if charged.Some? then g == Prepended(charged.value,
          Grab(cfg, rest[1..], txCredits, doPmGet, if doPmGet then good - 1 else good))
        else g == Grabbed([], rest, txCredits, false)
    {
      var head := source.PacketAtHead();
      charged := ChargeHead(head, doPmGet, rest, good);
      if charged.Some? {
        MoveHead(source, dest, charged.value, rest, taken);
      }
    }

    /** The credit-based dequeue loop on the queue it works on. */
    method DequeueCharged(source: PacketQueue, dest: PacketQueue, doPmGet: bool, pmGood: nat, ghost ps: seq<TxPacket>)
      returns (pmFailed: bool)
      requires cfg.Valid() && Carrying(source, ps) && Carrying(dest, []) && Apart(source, dest)
      modifies this`txCredits, this`pmRefs, source, dest, source.nodes, dest.nodes
      ensures var g := Grab(cfg, ps, old(txCredits), doPmGet, pmGood);
        && Carrying(source, g.rest) && Carrying(dest, g.taken)
        && txCredits == g.credits && pmFailed == g.pmFailed
        && pmRefs == old(pmRefs) + if doPmGet then |g.taken| else 0
      ensures Apart(source, dest) && source.nodes + dest.nodes == old(source.nodes + dest.nodes)
    {
      var good := pmGood;
      pmFailed := false;
      ghost var taken: seq<TxPacket>, rest, g := [], ps, Grab(cfg, ps, txCredits, doPmGet, pmGood);
      while true
        invariant !pmFailed && Carrying(source, rest) && Carrying(dest, taken) && Apart(source, dest)
        invariant source.nodes + dest.nodes == old(source.nodes + dest.nodes)
        invariant pmRefs == old(pmRefs) + if doPmGet then |taken| else 0
        invariant Continues(g, taken, Grab(cfg, rest, txCredits, doPmGet, good))
        decreases |rest|
      {
        if doPmGet && good == 0 {
          pmFailed := true;
          break;
        }
        var charged := TakeCharged(source, dest, doPmGet, rest, taken, good);
        if charged.None? {
          break;
        }
        good := if doPmGet then good - 1 else good;
        OneMore(g, taken, charged.value, Grab(cfg, rest[1..], txCredits, doPmGet, good));
        taken, rest := taken + [charged.value], rest[1..];
      }
      NoMore(g, taken, Grab(cfg, rest, txCredits, doPmGet, good));
    }

    /** One turn of the loop by transmit resources after its runtime-PM get. */
    method TakeFree(source: PacketQueue, dest: PacketQueue, doPmGet: bool, ghost rest: seq<TxPacket>,
                    ghost taken: seq<TxPacket>)
      returns (free: Option<TxPacket>)
      requires Carrying(source, rest) && Carrying(dest, taken) && Apart(source, dest)
      modifies this`pmRefs, source, dest, source.nodes, dest.nodes
      ensures Apart(source, dest) && source.nodes + dest.nodes == old(source.nodes + dest.nodes)
      ensures pmRefs == old(pmRefs) + if doPmGet && free.Some? then 1 else 0
      ensures free.None? ==> rest == [] && Carrying(source, rest) && Carrying(dest, taken)
      ensures free.Some? ==> rest != [] && free.value == rest[0].(creditsUsed := 0, needCreditUpdate := false)
                             && Carrying(source, rest[1..]) && Carrying(dest, taken + [free.value])
    {
      free := None;
      var head := source.PacketAtHead();
      if head != null {
        free := Some(head.packet.(creditsUsed := 0, needCreditUpdate := false));
        pmRefs := pmRefs + if doPmGet then 1 else 0;
        MoveHead(source, dest, free.value, rest, taken);
      }
    }

    /** The dequeue loop by transmit resources. */
    method DequeueByResource(source: PacketQueue, dest: PacketQueue, resources: int, doPmGet: bool, pmGood: nat,
                             ghost ps: seq<TxPacket>)
      returns (pmFailed: bool)
      requires Carrying(source, ps) && Carrying(dest, []) && Apart(source, dest)
      modifies this`pmRefs, source, dest, source.nodes, dest.nodes
      ensures var g := GrabByResource(ps, resources, doPmGet, pmGood);
        && Carrying(source, g.rest) && Carrying(dest, g.taken) && pmFailed == g.pmFailed
        && pmRefs == old(pmRefs) + if doPmGet then |g.taken| else 0
      ensures Apart(source, dest) && source.nodes + dest.nodes == old(source.nodes + dest.nodes)
    {
      var good, free := pmGood, resources;
      pmFailed := false;
      ghost var taken: seq<TxPacket>, rest, g := [], ps, GrabByResource(ps, resources, doPmGet, pmGood);
      while free > 0
        invariant !pmFailed && Carrying(source, rest) && Carrying(dest, taken) && Apart(source, dest)
        invariant source.nodes + dest.nodes == old(source.nodes + dest.nodes)
        invariant pmRefs == old(pmRefs) + if doPmGet then |taken| else 0
        invariant Continues(g, taken, GrabByResource(rest, free, doPmGet, good))
        decreases |rest|
      {
        if doPmGet && good == 0 {
          pmFailed := true;
          break;
        }
        var p := TakeFree(source, dest, doPmGet, rest, taken);
        if p.None? {
          break;
        }
        good, free := if doPmGet then good - 1 else good, free - p.value.fragments;
        OneMore(g, taken, p.value, GrabByResource(rest[1..], free, doPmGet, good));
        taken, rest := taken + [p.value], rest[1..];
      }
      NoMore(g, taken, GrabByResource(rest, free, doPmGet, good));
    }

    // ---------- the regions ----------

    /** The linked queues and the fields are an endpoint of the specification. */
    ghost predicate Represents(ep: Endpoint)
      reads this, txQueue, lookupQueue, txQueue.nodes, lookupQueue.nodes
    {
      && Carrying(txQueue, ep.txQueue) && Carrying(lookupQueue, ep.lookup) && Apart(txQueue, lookupQueue)
      && txCredits == ep.credits && txProcessCount == ep.processCount
      && outstanding == ep.outstanding && pmRefs == ep.pmRefs
    }

    /** A local queue that shares nothing with the endpoint's. */
    ghost predicate Local(q: PacketQueue)
      reads q, txQueue, lookupQueue
    {
      Apart(q, txQueue) && Apart(q, lookupQueue)
    }

    /** Takes packets from one queue by credits or by resources. */
    method Dequeue(source: PacketQueue, dest: PacketQueue, doPmGet: bool, env: DrainEnv, ghost ps: seq<TxPacket>)
      returns (pmFailed: bool)
      requires cfg.Valid() && Carrying(source, ps) && Carrying(dest, []) && Apart(source, dest)
      modifies this`txCredits, this`pmRefs, source, dest, source.nodes, dest.nodes
      ensures var g := if cfg.creditFlow then Grab(cfg, ps, old(txCredits), doPmGet, env.pmGood)
                       else GrabByResource(ps, env.resources, doPmGet, env.pmGood);
        && Carrying(source, g.rest) && Carrying(dest, g.taken) && pmFailed == g.pmFailed
        && txCredits == (if cfg.creditFlow then g.credits else old(txCredits))
        && pmRefs == old(pmRefs) + if doPmGet then |g.taken| else 0
      ensures Apart(source, dest) && source.nodes + dest.nodes == old(source.nodes + dest.nodes)
    {
      if cfg.creditFlow {
        pmFailed := DequeueCharged(source, dest, doPmGet, env.pmGood, ps);
      } else {
        pmFailed := DequeueByResource(source, dest, env.resources, doPmGet, env.pmGood, ps);
      }
    }

    /** extract_htc_pm_packets. */
    method ExtractPm(pmQueue: PacketQueue, ghost ps: seq<TxPacket>)
      requires Carrying(txQueue, ps) && Carrying(pmQueue, []) && Apart(txQueue, pmQueue)
      modifies txQueue, pmQueue, txQueue.nodes`prev, txQueue.nodes`next, pmQueue.nodes`prev, pmQueue.nodes`next
      ensures Carrying(txQueue, Unextracted(cfg, ps)) && Carrying(pmQueue, Extracted(cfg, ps))
      ensures Apart(txQueue, pmQueue) && txQueue.nodes + pmQueue.nodes == old(txQueue.nodes + pmQueue.nodes)
    {
      if cfg.isWmiControl {
        PmNodesCarryPm(txQueue.items, ps);
        ghost var pm := PmNodes(txQueue.items, ps);
        ExtractPmPackets(txQueue, pmQueue, ps);
        assert pmQueue.items == pm;
      }
    }

    /** AUTO_PM packets are dequeued by themselves; those that stay go back in front of the rest. */
    method DequeuePm(pmQueue: PacketQueue, sendQueue: PacketQueue, env: DrainEnv, ghost pm: seq<TxPacket>,
                     ghost others: seq<TxPacket>)
      returns (pmFailed: bool)
      requires cfg.Valid() && Carrying(pmQueue, pm) && Carrying(txQueue, others) && Carrying(sendQueue, [])
      requires Apart(pmQueue, sendQueue) && Apart(txQueue, pmQueue) && Apart(txQueue, sendQueue)
      modifies this`txCredits, this`pmRefs, pmQueue, txQueue, sendQueue, pmQueue.nodes, txQueue.nodes, sendQueue.nodes
      ensures var g := if cfg.creditFlow then Grab(cfg, pm, old(txCredits), false, env.pmGood)
                       else GrabByResource(pm, env.resources, false, env.pmGood);
        && Carrying(txQueue, g.rest + others) && Carrying(sendQueue, g.taken) && pmFailed == g.pmFailed
        && txCredits == (if cfg.creditFlow then g.credits else old(txCredits)) && pmRefs == old(pmRefs)
      ensures Apart(txQueue, sendQueue) && txQueue.nodes + sendQueue.nodes
              <= old(txQueue.nodes + sendQueue.nodes + pmQueue.nodes) - {pmQueue.head}
    {
      ghost var g := if cfg.creditFlow then Grab(cfg, pm, txCredits, false, env.pmGood)
                     else GrabByResource(pm, env.resources, false, env.pmGood);
      ghost var head := pmQueue.head;
      assert head in pmQueue.nodes && head !in txQueue.nodes;
      pmFailed := Dequeue(pmQueue, sendQueue, false, env, pm);
      assert head in pmQueue.nodes;
      PutInFront(txQueue, pmQueue, others, g.rest);
    }

    /** The part of the dequeue functions that works on the TX queue. */
    method TakePackets(sendQueue: PacketQueue, env: DrainEnv, ghost ep: Endpoint) returns (pmFailed: bool)
      requires cfg.Valid() && Carrying(txQueue, ep.txQueue) && Carrying(sendQueue, []) && Apart(txQueue, sendQueue)
      requires txCredits == ep.credits && pmRefs == ep.pmRefs
      modifies this`txCredits, this`pmRefs, txQueue, sendQueue, txQueue.nodes, sendQueue.nodes
      ensures var g := GetPackets(cfg, ep, env);
        && Carrying(txQueue, g.ep.txQueue) && Carrying(sendQueue, g.taken) && pmFailed == g.pmFailed
        && txCredits == g.ep.credits && pmRefs == g.ep.pmRefs
      ensures Apart(txQueue, sendQueue) && txQueue.nodes + sendQueue.nodes <= old(txQueue.nodes + sendQueue.nodes)
    {
      var pmQueue := new PacketQueue();
      ExtractPm(pmQueue, ep.txQueue);
      PmDueSplit(ep.txQueue);
      if pmQueue.depth == 0 {
        pmFailed := Dequeue(txQueue, sendQueue, true, env, ep.txQueue);
      } else {
        pmFailed := DequeuePm(pmQueue, sendQueue, env, Extracted(cfg, ep.txQueue), Unextracted(cfg, ep.txQueue));
      }
    }

    /** get_htc_send_packets_credit_based and get_htc_send_packets. */
    method GetSendPackets(sendQueue: PacketQueue, env: DrainEnv, ghost ep: Endpoint) returns (pmFailed: bool)
      requires cfg.Valid() && Represents(ep) && Carrying(sendQueue, []) && Local(sendQueue)
      modifies this`txCredits, this`pmRefs, txQueue, sendQueue, txQueue.nodes, sendQueue.nodes
      ensures var g := GetPackets(cfg, ep, env);
        Represents(g.ep) && Carrying(sendQueue, g.taken) && pmFailed == g.pmFailed
      ensures Local(sendQueue) && txQueue.nodes + sendQueue.nodes <= old(txQueue.nodes + sendQueue.nodes)
    {
      pmFailed := TakePackets(sendQueue, env, ep);
    }

    /** The top of the drain loop, up to releasing the lock or leaving the section. */
    method DrainPass(sendQueue: PacketQueue, env: DrainEnv, ghost ep: Endpoint) returns (pmFailed: bool)
      requires cfg.Valid() && Represents(ep) && Carrying(sendQueue, []) && Local(sendQueue)
      modifies this`txCredits, this`pmRefs, this`txProcessCount, txQueue, sendQueue, txQueue.nodes, sendQueue.nodes
      ensures var g := DrainTop(cfg, ep, env);
        Represents(g.ep) && Carrying(sendQueue, g.taken) && pmFailed == g.pmFailed
      ensures Local(sendQueue) && txQueue.nodes + sendQueue.nodes <= old(txQueue.nodes + sendQueue.nodes)
    {
      pmFailed := false;
      if txQueue.depth != 0 {
        pmFailed := GetSendPackets(sendQueue, env, ep);
      }
      if sendQueue.depth == 0 {
        txProcessCount := 0;
      } else {
        pmFailed := false;
      }
    }

    /** The admitted packets join the TX queue, and the caller counts itself. */
    method Accept(sendQueue: PacketQueue, nodrop: bool, ghost ep: Endpoint, ghost admitted: seq<TxPacket>)
      requires Represents(ep) && Carrying(sendQueue, admitted) && Local(sendQueue)
      modifies this`txProcessCount, txQueue, sendQueue, txQueue.nodes`prev, txQueue.nodes`next, sendQueue.nodes`prev,
               sendQueue.nodes`next
      ensures Represents(Queued(ep, admitted, nodrop)) && Carrying(sendQueue, []) && Local(sendQueue)
      ensures txQueue.nodes + sendQueue.nodes <= old(txQueue.nodes + sendQueue.nodes)
    {
      if nodrop {
        PutInFront(txQueue, sendQueue, ep.txQueue, admitted);
      } else {
        PutBehind(txQueue, sendQueue, ep.txQueue, admitted);
      }
      txProcessCount := txProcessCount + 1;
    }

    /** From taking the TX lock to the first release: the admitted packets join the TX queue, and
        the local queue they came in becomes the one the drain fills. */
    method EnterLocked(sendQueue: PacketQueue, nodrop: bool, env: DrainEnv, ghost ep: Endpoint,
                       ghost admitted: seq<TxPacket>)
      returns (busy: bool, pmFailed: bool)
      requires cfg.Valid() && Represents(ep) && Carrying(sendQueue, admitted) && Local(sendQueue)
      modifies this, txQueue, sendQueue, txQueue.nodes, sendQueue.nodes
      ensures var r := Enter(cfg, ep, admitted, nodrop, env);
        Represents(r.ep) && Carrying(sendQueue, r.taken) && busy == r.busy && pmFailed == r.pmFailed
      ensures Local(sendQueue) && txQueue.nodes + sendQueue.nodes <= old(txQueue.nodes + sendQueue.nodes)
    {
      Accept(sendQueue, nodrop, ep, admitted);
      busy, pmFailed := txProcessCount > 1, false;
      if busy {
        txProcessCount := txProcessCount - 1;
      } else {
        pmFailed := DrainPass(sendQueue, env, Queued(ep, admitted, nodrop));
      }
    }

    /** Takes the next packet off the local queue and stores it for its completion. */
    method RecordNext(sendQueue: PacketQueue, ghost ep: Endpoint, ghost queue: seq<TxPacket>) returns (p: DlNode?)
      requires Represents(ep) && Carrying(sendQueue, queue) && Local(sendQueue)
      modifies this`outstanding, sendQueue, lookupQueue, sendQueue.nodes`prev, sendQueue.nodes`next,
               lookupQueue.nodes`prev, lookupQueue.nodes`next
      ensures Local(sendQueue)
      ensures queue == [] ==> p == null && Represents(ep) && Carrying(sendQueue, [])
      ensures queue != [] ==> p != null && p.packet == queue[0] && Carrying(sendQueue, queue[1..])
                              && Represents(RecordSend(ep, queue[0])) && lookupQueue.items[|ep.lookup|] == p
    {
      p := MoveNext(sendQueue, lookupQueue, queue, ep.lookup);
      if p != null {
        outstanding := outstanding + 1;
      }
    }

    /** HIF refused packet `p`: it leaves the lookup queue for the head of the local queue, and what
        that holds is reclaimed. */
    method RefuseOne(sendQueue: PacketQueue, p: DlNode, ghost ep: Endpoint, ghost rest: seq<TxPacket>, ghost k: nat)
      requires Represents(ep) && Carrying(sendQueue, rest) && Local(sendQueue)
      requires k < |lookupQueue.items| && lookupQueue.items[k] == p && k == Find(ep.lookup, p.packet.netbuf)
      modifies this`outstanding, this`txCredits, sendQueue, lookupQueue, sendQueue.nodes`prev, sendQueue.nodes`next,
               lookupQueue.nodes`prev, lookupQueue.nodes`next
      ensures Represents(TakeBack(ep, [p.packet] + rest)) && Carrying(sendQueue, [p.packet] + rest) && Local(sendQueue)
    {
      outstanding := outstanding - 1;
      MoveBack(lookupQueue, sendQueue, p, k, ep.lookup, rest);
      ReclaimCredits(sendQueue, [p.packet] + rest);
    }

    /** Adds up what the packets of a local queue were charged, walking its links. */
    method ReclaimCredits(queue: PacketQueue, ghost ps: seq<TxPacket>)
      requires Carrying(queue, ps)
      modifies this`txCredits
      ensures txCredits == old(txCredits) + Cost(ps)
    {
      var temp := queue.head.next;
      ghost var k := 0;
      assert ps[0..] == ps;
      while temp != queue.head
        invariant 0 <= k <= |ps| && temp == if k < |ps| then queue.items[k] else queue.head
        invariant txCredits + Cost(ps[k..]) == old(txCredits) + Cost(ps)
        decreases |ps| - k
      {
        assert ps[k..][1..] == ps[k + 1..];
        txCredits := txCredits + temp.packet.creditsUsed;
        temp := temp.next;
        k := k + 1;
      }
    }

    /** What a failed drain still holds goes back in front of the TX queue, with one runtime-PM put
        for each packet. */
    method PutBack(sendQueue: PacketQueue, ghost ep: Endpoint, ghost queue: seq<TxPacket>)
      requires Represents(ep) && Carrying(sendQueue, queue) && Local(sendQueue)
      modifies this`pmRefs, this`txProcessCount, txQueue, sendQueue, txQueue.nodes`prev, txQueue.nodes`next,
               sendQueue.nodes`prev, sendQueue.nodes`next
      ensures Represents(Requeue(ep, queue)) && Carrying(sendQueue, []) && Local(sendQueue)
    {
      var i := sendQueue.depth;
      while i > 0
        invariant 0 <= i <= |queue| && pmRefs == old(pmRefs) - (|queue| - i)
        modifies this`pmRefs
      {
        pmRefs := pmRefs - 1;
        i := i - 1;
      }
      PutInFront(txQueue, sendQueue, ep.txQueue, queue);
      txProcessCount := 0;
    }

    /** HIF completed a netbuf: its packet, if it can be looked up, leaves the lookup queue. */
    method Completed(netbuf: nat, ghost ep: Endpoint) returns (found: DlNode?)
      requires Represents(ep)
      modifies this`outstanding, this`pmRefs, lookupQueue, lookupQueue.nodes`prev, lookupQueue.nodes`next
      ensures Represents(Complete(ep, netbuf))
      ensures var k := Find(ep.lookup, netbuf);
        if k < |ep.lookup| then found != null && found.packet == ep.lookup[k] else found == null
    {
      outstanding := outstanding - 1;
      found := TakeOut(lookupQueue, netbuf, ep.lookup);
      if found != null && found.packet.tag != AutoPm {
        pmRefs := pmRefs - 1;
      }
    }
  }
}
