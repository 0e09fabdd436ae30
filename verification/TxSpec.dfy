// What the lock-held regions of htc/htc_send.c compute, as functions on values.
// The methods of HtcEndpoint are proved against these functions, and the concurrent
// model of TxEngine takes its steps with them.

module TxSpec {
  import opened Common
  import opened TxTypes

  // ---------- measures of packet sequences ----------

  function Netbufs(q: seq<TxPacket>): seq<nat> {
    if q == [] then [] else [q[0].netbuf] + Netbufs(q[1..])
  }

  /** How often each netbuf occurs in `q`. */
  function Ids(q: seq<TxPacket>): multiset<nat> {
    if q == [] then multiset{} else multiset{q[0].netbuf} + Ids(q[1..])
  }

  /** The credits charged to the packets of `q`. */
  function Cost(q: seq<TxPacket>): nat {
    if q == [] then 0 else q[0].creditsUsed + Cost(q[1..])
  }

  function Pm(q: seq<TxPacket>): seq<TxPacket> {
    if q == [] then []
    else if q[0].tag == AutoPm then [q[0]] + Pm(q[1..])
    else Pm(q[1..])
  }

  function NonPm(q: seq<TxPacket>): seq<TxPacket> {
    if q == [] then []
    else if q[0].tag == AutoPm then NonPm(q[1..])
    else [q[0]] + NonPm(q[1..])
  }

  /** Runtime-PM references the completion of the packets of `q` will give back. */
  function PmDue(q: seq<TxPacket>): nat {
    if q == [] then 0 else (if q[0].tag == AutoPm then 0 else 1) + PmDue(q[1..])
  }

  lemma {:induction false} CostConcat(a: seq<TxPacket>, b: seq<TxPacket>)
    ensures Cost(a + b) == Cost(a) + Cost(b)
  {
    if a == [] {
      assert a + b == b;
    } else {
      assert (a + b)[1..] == a[1..] + b;
      CostConcat(a[1..], b);
    }
  }

  lemma {:induction false} PmConcat(a: seq<TxPacket>, b: seq<TxPacket>)
    ensures Pm(a + b) == Pm(a) + Pm(b)
  {
    if a == [] {
      assert a + b == b;
    } else {
      assert (a + b)[1..] == a[1..] + b;
      PmConcat(a[1..], b);
    }
  }

  lemma {:induction false} NonPmConcat(a: seq<TxPacket>, b: seq<TxPacket>)
    ensures NonPm(a + b) == NonPm(a) + NonPm(b)
  {
    if a == [] {
      assert a + b == b;
    } else {
      assert (a + b)[1..] == a[1..] + b;
      NonPmConcat(a[1..], b);
    }
  }

  lemma {:induction false} PmDueConcat(a: seq<TxPacket>, b: seq<TxPacket>)
    ensures PmDue(a + b) == PmDue(a) + PmDue(b)
  {
    if a == [] {
      assert a + b == b;
    } else {
      assert (a + b)[1..] == a[1..] + b;
      PmDueConcat(a[1..], b);
    }
  }

  lemma {:induction false} NetbufsConcat(a: seq<TxPacket>, b: seq<TxPacket>)
    ensures Netbufs(a + b) == Netbufs(a) + Netbufs(b)
  {
    if a == [] {
      assert a + b == b;
    } else {
      assert (a + b)[1..] == a[1..] + b;
      NetbufsConcat(a[1..], b);
    }
  }

  lemma {:induction false} IdsConcat(a: seq<TxPacket>, b: seq<TxPacket>)
    ensures Ids(a + b) == Ids(a) + Ids(b)
  {
    if a == [] {
      assert a + b == b;
    } else {
      assert (a + b)[1..] == a[1..] + b;
      IdsConcat(a[1..], b);
    }
  }

  /** Splitting by tag splits the netbufs. */
  lemma {:induction false} PmSplit(q: seq<TxPacket>)
    ensures Ids(Pm(q)) + Ids(NonPm(q)) == Ids(q)
  {
    if q != [] {
      PmSplit(q[1..]);
      assert q[0].tag == AutoPm ==> Pm(q)[1..] == Pm(q[1..]);
      assert q[0].tag != AutoPm ==> NonPm(q)[1..] == NonPm(q[1..]);
    }
  }

  /** Each side of the split is already split. */
  lemma {:induction false} PmSplitTwice(q: seq<TxPacket>)
    ensures Pm(Pm(q)) == Pm(q) && NonPm(Pm(q)) == []
    ensures NonPm(NonPm(q)) == NonPm(q) && Pm(NonPm(q)) == []
  {
    if q != [] {
      PmSplitTwice(q[1..]);
    }
  }

  lemma {:induction false} PmDueSplit(q: seq<TxPacket>)
    ensures PmDue(q) == |NonPm(q)| == |q| - |Pm(q)|
    ensures Pm(q) == [] ==> NonPm(q) == q
    ensures NonPm(q) == [] ==> Pm(q) == q
  {
    if q != [] {
      PmDueSplit(q[1..]);
      assert q == [q[0]] + q[1..];
    }
  }

  /** `a` is `b` up to what charging a packet writes. */
  predicate SamePacket(a: TxPacket, b: TxPacket) {
    a == b.(creditsUsed := a.creditsUsed, needCreditUpdate := a.needCreditUpdate)
  }

  /** `taken` came off the front of `q` in order, and `rest` stayed as it was. */
  predicate Dequeued(q: seq<TxPacket>, taken: seq<TxPacket>, rest: seq<TxPacket>) {
    if taken == [] then rest == q
    else q != [] && SamePacket(taken[0], q[0]) && Dequeued(q[1..], taken[1..], rest)
  }

  lemma {:induction false} DequeuedNetbufs(q: seq<TxPacket>, taken: seq<TxPacket>, rest: seq<TxPacket>)
    requires Dequeued(q, taken, rest)
    ensures Netbufs(taken) + Netbufs(rest) == Netbufs(q)
    ensures Ids(taken) + Ids(rest) == Ids(q)
    ensures |taken| + |rest| == |q|
  {
    if taken != [] {
      DequeuedNetbufs(q[1..], taken[1..], rest);
    }
  }

  lemma {:induction false} DequeuedByTag(q: seq<TxPacket>, taken: seq<TxPacket>, rest: seq<TxPacket>)
    requires Dequeued(q, taken, rest)
    ensures Dequeued(Pm(q), Pm(taken), Pm(rest))
    ensures Dequeued(NonPm(q), NonPm(taken), NonPm(rest))
  {
    if taken != [] {
      DequeuedByTag(q[1..], taken[1..], rest);
    }
  }

  // ---------- charging and dequeuing ----------

  /** How many credits the target needs for a packet. */
  function CreditsRequired(cfg: EndpointConfig, p: TxPacket): (n: nat)
    requires cfg.Valid()
  {
    if cfg.isEndpoint0 then
      0
    else
      var transferLength := p.length + cfg.headerLength;
      if transferLength <= cfg.creditSize then 1
      else transferLength / cfg.creditSize + if transferLength % cfg.creditSize != 0 then 1 else 0
  }

  /** Away from endpoint 0 it is the least positive number of credits that covers the
      packet and its header. */
  lemma CreditsRequiredIsLeast(cfg: EndpointConfig, p: TxPacket, m: nat)
    requires cfg.Valid() && !cfg.isEndpoint0 && m >= 1
    ensures CreditsRequired(cfg, p) >= 1
    ensures m >= CreditsRequired(cfg, p) <==> m * cfg.creditSize >= p.length + cfg.headerLength
  {
    var l, c, n := p.length + cfg.headerLength, cfg.creditSize, CreditsRequired(cfg, p);
    if l <= c {
      MulMono(1, m, c);
    } else {
      assert l == l / c * c + l % c;
      assert (n - 1) * c < l <= n * c;
      if m < n {
        MulMono(m, n - 1, c);
      } else {
        MulMono(n, m, c);
      }
    }
  }

  datatype Grabbed = Grabbed(taken: seq<TxPacket>, rest: seq<TxPacket>, credits: int, pmFailed: bool)

  /** The credit-based dequeue loop.  `pmGood` is how many runtime-PM gets succeed before
      one fails; it matters only when `doPmGet`. */
  function Grab(cfg: EndpointConfig, q: seq<TxPacket>, credits: int, doPmGet: bool, pmGood: nat): (g: Grabbed)
    requires cfg.Valid()
  {
    if doPmGet && pmGood == 0 then Grabbed([], q, credits, true)
    else if q == [] then Grabbed([], [], credits, false)
    else
      var need := CreditsRequired(cfg, q[0]);
      if !cfg.isEndpoint0 && credits < need then Grabbed([], q, credits, false)
      else
        var p := q[0].(creditsUsed := need,
                       needCreditUpdate := !cfg.isEndpoint0 && credits - need <= cfg.creditsPerMaxMsg);
        var g := Grab(cfg, q[1..], credits - need, doPmGet, if doPmGet then pmGood - 1 else pmGood);
        Grabbed([p] + g.taken, g.rest, g.credits, g.pmFailed)
  }

  /** The resource-based dequeue loop for pipes without credit flow. */
  function GrabByResource(q: seq<TxPacket>, resources: int, doPmGet: bool, pmGood: nat): (g: Grabbed)
  {
    if resources <= 0 then Grabbed([], q, 0, false)
    else if doPmGet && pmGood == 0 then Grabbed([], q, 0, true)
    else if q == [] then Grabbed([], [], 0, false)
    else
      var p := q[0].(creditsUsed := 0, needCreditUpdate := false);
      var g := GrabByResource(q[1..], resources - q[0].fragments, doPmGet, if doPmGet then pmGood - 1 else pmGood);
      Grabbed([p] + g.taken, g.rest, 0, g.pmFailed)
  }

  /** A packet whose charge exceeds the credits at hand. */
  predicate Blocked(cfg: EndpointConfig, p: TxPacket, credits: int)
    requires cfg.Valid()
  {
    !cfg.isEndpoint0 && credits < CreditsRequired(cfg, p)
  }

  /** What a credit-based dequeue does to its queue and to the credits: it charges a prefix,
      every credit that leaves TxCredits is recorded on a packet taken, and it stops only at
      a blocked packet, an empty queue or a failed runtime-PM get. */
  lemma {:induction false} GrabTakesPrefix(cfg: EndpointConfig, q: seq<TxPacket>, credits: int, doPmGet: bool,
                                           pmGood: nat)
    requires cfg.Valid() && credits >= 0
    ensures var g := Grab(cfg, q, credits, doPmGet, pmGood);
      && Dequeued(q, g.taken, g.rest)
      && g.credits >= 0 && g.credits + Cost(g.taken) == credits
      && (g.pmFailed ==> doPmGet)
      && (g.pmFailed || g.rest == [] || Blocked(cfg, g.rest[0], g.credits))
  {
    if !(doPmGet && pmGood == 0) && q != [] && !Blocked(cfg, q[0], credits) {
      var left := if doPmGet then pmGood - 1 else pmGood;
      GrabTakesPrefix(cfg, q[1..], credits - CreditsRequired(cfg, q[0]), doPmGet, left);
      var g := Grab(cfg, q, credits, doPmGet, pmGood);
      var h := Grab(cfg, q[1..], credits - CreditsRequired(cfg, q[0]), doPmGet, left);
      assert g.taken[1..] == h.taken;
    }
  }

  /** A packet taken asks for credits exactly when charging it left no more than a maximum
      message's credits; `left` is what remains after the last packet. */
  predicate FlagsExact(cfg: EndpointConfig, taken: seq<TxPacket>, left: int) {
    taken == [] ||
    ((taken[0].needCreditUpdate <==> left + Cost(taken[1..]) <= cfg.creditsPerMaxMsg) &&
     FlagsExact(cfg, taken[1..], left))
  }

  lemma {:induction false} GrabFlags(cfg: EndpointConfig, q: seq<TxPacket>, credits: int, doPmGet: bool, pmGood: nat)
    requires cfg.Valid() && credits >= 0 && !cfg.isEndpoint0
    ensures var g := Grab(cfg, q, credits, doPmGet, pmGood); FlagsExact(cfg, g.taken, g.credits)
  {
    if !(doPmGet && pmGood == 0) && q != [] && !Blocked(cfg, q[0], credits) {
      var need := CreditsRequired(cfg, q[0]);
      var left := if doPmGet then pmGood - 1 else pmGood;
      GrabFlags(cfg, q[1..], credits - need, doPmGet, left);
      GrabTakesPrefix(cfg, q[1..], credits - need, doPmGet, left);
      var g, h := Grab(cfg, q, credits, doPmGet, pmGood), Grab(cfg, q[1..], credits - need, doPmGet, left);
      assert g.taken[1..] == h.taken;
    }
  }

  lemma {:induction false} GrabByResourceTakesPrefix(q: seq<TxPacket>, resources: int, doPmGet: bool, pmGood: nat)
    ensures var g := GrabByResource(q, resources, doPmGet, pmGood);
      && Dequeued(q, g.taken, g.rest)
      && Cost(g.taken) == 0
      && (g.pmFailed ==> doPmGet)
  {
    if resources > 0 && !(doPmGet && pmGood == 0) && q != [] {
      var left := if doPmGet then pmGood - 1 else pmGood;
      GrabByResourceTakesPrefix(q[1..], resources - q[0].fragments, doPmGet, left);
      var g := GrabByResource(q, resources, doPmGet, pmGood);
      var h := GrabByResource(q[1..], resources - q[0].fragments, doPmGet, left);
      assert g.taken[1..] == h.taken;
    }
  }

  // ---------- the endpoint and its lock-held regions ----------

  /** The endpoint state guarded by the TX lock. */
  datatype Endpoint = Endpoint(
    txQueue: seq<TxPacket>,
    lookup: seq<TxPacket>,    // TxLookupQueue
    credits: int,             // TxCredits
    processCount: int,        // TxProcessCount
    outstanding: int,         // ul_outstanding_cnt
    pmRefs: int)              // runtime-PM gets minus puts made for this endpoint

  /** Answers the environment gives while one pass dequeues. */
  datatype DrainEnv = DrainEnv(resources: int, pmGood: nat)

  datatype Got = Got(ep: Endpoint, taken: seq<TxPacket>, pmFailed: bool)

  /** extract_htc_pm_packets looks only at the WMI control endpoint. */
  function Extracted(cfg: EndpointConfig, q: seq<TxPacket>): seq<TxPacket> {
    if cfg.isWmiControl then Pm(q) else []
  }

  function Unextracted(cfg: EndpointConfig, q: seq<TxPacket>): seq<TxPacket> {
    if cfg.isWmiControl then NonPm(q) else q
  }

  /** One get_htc_send_packets_credit_based or get_htc_send_packets call. */
  function GetPackets(cfg: EndpointConfig, ep: Endpoint, env: DrainEnv): Got
    requires cfg.Valid()
  {
    var pm, others := Extracted(cfg, ep.txQueue), Unextracted(cfg, ep.txQueue);
    var doPmGet := pm == [];
    var source := if doPmGet then ep.txQueue else pm;
    var g :=
      if cfg.creditFlow then Grab(cfg, source, ep.credits, doPmGet, env.pmGood)
      else GrabByResource(source, env.resources, doPmGet, env.pmGood);
    Got(ep.(txQueue := if doPmGet then g.rest else g.rest + others,
            credits := if cfg.creditFlow then g.credits else ep.credits,
            pmRefs := ep.pmRefs + if doPmGet then |g.taken| else 0),
        g.taken, g.pmFailed)
  }

  lemma {:induction false} DequeuedAppend(q: seq<TxPacket>, taken: seq<TxPacket>, rest: seq<TxPacket>,
                                          more: seq<TxPacket>)
    requires Dequeued(q, taken, rest)
    ensures Dequeued(q + more, taken, rest + more)
  {
    if taken != [] {
      DequeuedAppend(q[1..], taken[1..], rest, more);
      assert (q + more)[1..] == q[1..] + more;
    }
  }

  /** PM packets go first: what is taken and then what stays queued is every PM packet in
      order followed by every other packet in order, and runtime-PM references are taken for
      exactly the packets dequeued when no PM packet was queued. */
  lemma GetPacketsIsPmFirst(cfg: EndpointConfig, ep: Endpoint, env: DrainEnv)
    requires cfg.Valid() && ep.credits >= 0
    ensures var g := GetPackets(cfg, ep, env);
      && Dequeued(Extracted(cfg, ep.txQueue) + Unextracted(cfg, ep.txQueue), g.taken, g.ep.txQueue)
      && g.ep.credits >= 0 && g.ep.credits + Cost(g.taken) == ep.credits
      && g.ep.pmRefs - ep.pmRefs == (if Extracted(cfg, ep.txQueue) == [] then |g.taken| else 0)
      && (Extracted(cfg, ep.txQueue) != [] ==> |g.taken| <= |Extracted(cfg, ep.txQueue)|)
  {
    var pm, others := Extracted(cfg, ep.txQueue), Unextracted(cfg, ep.txQueue);
    var source := if pm == [] then ep.txQueue else pm;
    PmDueSplit(ep.txQueue);
    GrabTakesPrefix(cfg, source, ep.credits, pm == [], env.pmGood);
    GrabByResourceTakesPrefix(source, env.resources, pm == [], env.pmGood);
    var g := if cfg.creditFlow then Grab(cfg, source, ep.credits, pm == [], env.pmGood)
             else GrabByResource(source, env.resources, pm == [], env.pmGood);
    DequeuedNetbufs(source, g.taken, g.rest);
    if pm == [] {
      assert pm + others == ep.txQueue;
    } else {
      DequeuedAppend(pm, g.taken, g.rest, others);
    }
  }

  /** The top of the drain loop: it ends the drain when nothing could be dequeued. */
  function DrainTop(cfg: EndpointConfig, ep: Endpoint, env: DrainEnv): Got
    requires cfg.Valid()
  {
    if ep.txQueue == [] then Got(ep.(processCount := 0), [], false)
    else
      var g := GetPackets(cfg, ep, env);
      if g.taken == [] then g.(ep := g.ep.(processCount := 0)) else g.(pmFailed := false)
  }

  /** The endpoint as the drain loop first sees it when the caller becomes the drainer. */
  function Queued(ep: Endpoint, admitted: seq<TxPacket>, nodrop: bool): Endpoint {
    ep.(txQueue := if nodrop then admitted + ep.txQueue else ep.txQueue + admitted,
        processCount := ep.processCount + 1)
  }

  datatype Entered = Entered(ep: Endpoint, busy: bool, taken: seq<TxPacket>, pmFailed: bool)

  /** The region from taking the TX lock to releasing it: packets are queued, and the
      caller either finds a drain in progress or becomes the drainer. */
  function Enter(cfg: EndpointConfig, ep: Endpoint, admitted: seq<TxPacket>, nodrop: bool, env: DrainEnv): Entered
    requires cfg.Valid()
  {
    var queued := Queued(ep, admitted, nodrop);
    if queued.processCount > 1 then Entered(queued.(processCount := queued.processCount - 1), true, [], false)
    else
      var g := DrainTop(cfg, queued, env);
      Entered(g.ep, false, g.taken, g.pmFailed)
  }

  /** A packet enters the lookup queue before it is handed to HIF. */
  function RecordSend(ep: Endpoint, p: TxPacket): Endpoint {
    ep.(lookup := ep.lookup + [p], outstanding := ep.outstanding + 1)
  }

  /** Position of the first packet with the given netbuf, or the length when there is none. */
  function Find(q: seq<TxPacket>, netbuf: nat): (k: nat)
    ensures k <= |q|
    ensures k < |q| ==> q[k].netbuf == netbuf
    ensures forall i | 0 <= i < k :: q[i].netbuf != netbuf
  {
    if q == [] || q[0].netbuf == netbuf then 0 else 1 + Find(q[1..], netbuf)
  }

  /** `q` without its first packet with the given netbuf. */
  function Without(q: seq<TxPacket>, netbuf: nat): seq<TxPacket> {
    if q == [] then []
    else if q[0].netbuf == netbuf then q[1..]
    else [q[0]] + Without(q[1..], netbuf)
  }

  lemma {:induction false} WithoutSplices(q: seq<TxPacket>, netbuf: nat)
    ensures var k := Find(q, netbuf);
      Without(q, netbuf) == if k < |q| then q[..k] + q[k + 1..] else q
  {
    if q != [] && q[0].netbuf != netbuf {
      WithoutSplices(q[1..], netbuf);
      var k := Find(q, netbuf);
      if k < |q| {
        assert q[..k] == [q[0]] + q[1..][..k - 1];
        assert q[k + 1..] == q[1..][k..];
      }
    }
  }

  /** hif_send_head refused a packet: it leaves the lookup queue and the credits of
      everything still in the local queue come back. */
  function TakeBack(ep: Endpoint, queue: seq<TxPacket>): Endpoint
    requires queue != []
  {
    ep.(lookup := Without(ep.lookup, queue[0].netbuf),
        outstanding := ep.outstanding - 1,
        credits := ep.credits + Cost(queue))
  }

  /** A drain that ended with an error puts its packets back and lets the next drainer in. */
  function Requeue(ep: Endpoint, queue: seq<TxPacket>): Endpoint {
    ep.(txQueue := queue + ep.txQueue, processCount := 0, pmRefs := ep.pmRefs - |queue|)
  }

  /** HIF completed a netbuf. */
  function Complete(ep: Endpoint, netbuf: nat): Endpoint {
    var k := Find(ep.lookup, netbuf);
    ep.(lookup := Without(ep.lookup, netbuf),
        outstanding := ep.outstanding - 1,
        pmRefs := ep.pmRefs - if k < |ep.lookup| && ep.lookup[k].tag != AutoPm then 1 else 0)
  }

  datatype Admission = Admission(admitted: seq<TxPacket>, leftover: seq<TxPacket>, drop: bool)

  function Kept(q: seq<TxPacket>, keep: set<nat>): seq<TxPacket> {
    if q == [] then []
    else if q[0].netbuf in keep then [q[0]] + Kept(q[1..], keep)
    else Kept(q[1..], keep)
  }

  function Refused(q: seq<TxPacket>, keep: set<nat>): seq<TxPacket> {
    if q == [] then []
    else if q[0].netbuf in keep then Refused(q[1..], keep)
    else [q[0]] + Refused(q[1..], keep)
  }

  /** How many of `n` packets offered go in without asking EpSendFull.  The depth of the TX
      queue is read twice without the lock, so the two readings may differ. */
  function Room(cfg: EndpointConfig, n: nat, depth1: nat, depth2: nat): (room: nat)
    ensures room <= n
  {
    var overflow :=
      if depth1 >= cfg.maxTxQueueDepth then n else depth2 + n - cfg.maxTxQueueDepth;
    if overflow <= 0 || !cfg.hasSendFull then n
    else if overflow > n then 0
    else n - overflow
  }

  /** Overflow handling before the lock is taken; `keep` holds the netbufs for which
      EpSendFull asks to keep the packet. */
  function Admit(cfg: EndpointConfig, offered: seq<TxPacket>, depth1: nat, depth2: nat, keep: set<nat>): Admission {
    var room := Room(cfg, |offered|, depth1, depth2);
    var admitted := offered[..room] + Kept(offered[room..], keep);
    Admission(admitted, Refused(offered[room..], keep), admitted == [])
  }

  lemma {:induction false} KeptSplits(q: seq<TxPacket>, keep: set<nat>)
    ensures Ids(Kept(q, keep)) + Ids(Refused(q, keep)) == Ids(q)
  {
    if q != [] {
      KeptSplits(q[1..], keep);
      assert q[0].netbuf in keep ==> Kept(q, keep)[1..] == Kept(q[1..], keep);
      assert q[0].netbuf !in keep ==> Refused(q, keep)[1..] == Refused(q[1..], keep);
    }
  }

  /** Admission loses and duplicates nothing: every packet offered is admitted or left over. */
  lemma AdmitSplits(cfg: EndpointConfig, offered: seq<TxPacket>, depth1: nat, depth2: nat, keep: set<nat>)
    ensures var a := Admit(cfg, offered, depth1, depth2, keep); Ids(a.admitted) + Ids(a.leftover) == Ids(offered)
  {
    var room := Room(cfg, |offered|, depth1, depth2);
    var front, back := offered[..room], offered[room..];
    assert offered == front + back;
    IdsConcat(front, back);
    IdsConcat(front, Kept(back, keep));
    KeptSplits(back, keep);
    MultisetAssoc(Ids(front), Ids(Kept(back, keep)), Ids(Refused(back, keep)));
  }

  lemma MultisetAssoc(a: multiset<nat>, b: multiset<nat>, c: multiset<nat>)
    ensures (a + b) + c == a + (b + c)
  {
  }
}
