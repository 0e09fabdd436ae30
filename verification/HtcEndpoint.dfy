// The transmit path of one endpoint as htc/htc_send.c runs it.
//
// The packet queues are sequences here: PacketQueues shows that the linked queues implement
// the sequence operations.  Each region between taking and releasing the TX lock is proved
// against its function in TxSpec and is one event of the concurrent model; wherever the lock is
// free, other threads, HIF and the target act as they like.  `run` records all of it, so what
// TxTheorems and TxLosses prove of runs holds of this code at every moment.

module HtcEndpoints {
  import opened Common
  import opened TxTypes
  import opened TxSpec
  import opened TxEngine
  import opened TxTheorems

  /** What HIF and the caller's callbacks answer to one turn of htc_issue_packets. */
  datatype Answer = NoPadding | NoHeader | NoMap | HifRefused | HifAccepted

  /** What the rest of the world does, moment by moment: its answers, and what other threads, HIF
      and the target do while the TX lock is free. */
  datatype World = World(env: nat -> DrainEnv, answer: nat -> Answer, others: nat -> seq<Event>)

  lemma FirstAcross(a: seq<TxPacket>, b: seq<TxPacket>)
    requires b != []
    ensures (a + [b[0]]) + b[1..] == a + b
  {
  }

  /** How many more packets were queued than accepted; a drain can only lower it. */
  function Surplus(s: System): int {
    |s.ep.txQueue| - |s.hist.accepted|
  }

  /** A pass never lengthens the TX queue, and shortens it if it dequeues something. */
  lemma DrainTopShrinks(cfg: EndpointConfig, ep: Endpoint, env: DrainEnv)
    requires cfg.Valid()
    ensures var g := DrainTop(cfg, ep, env); |g.ep.txQueue| + (if g.taken == [] then 0 else 1) <= |ep.txQueue|
  {
    if ep.txQueue != [] {
      var pm := Extracted(cfg, ep.txQueue);
      var source := if pm == [] then ep.txQueue else pm;
      GrabLength(cfg, source, ep.credits, pm == [], env.pmGood);
      GrabByResourceTakesPrefix(source, env.resources, pm == [], env.pmGood);
      var g := GrabByResource(source, env.resources, pm == [], env.pmGood);
      DequeuedNetbufs(source, g.taken, g.rest);
      PmDueSplit(ep.txQueue);
    }
  }

  lemma {:induction false} GrabLength(cfg: EndpointConfig, q: seq<TxPacket>, credits: int, doPmGet: bool, pmGood: nat)
    requires cfg.Valid()
    ensures var g := Grab(cfg, q, credits, doPmGet, pmGood); |g.taken| + |g.rest| == |q|
  {
    if !(doPmGet && pmGood == 0) && q != [] && !Blocked(cfg, q[0], credits) {
      GrabLength(cfg, q[1..], credits - CreditsRequired(cfg, q[0]), doPmGet, if doPmGet then pmGood - 1 else pmGood);
    }
  }

  lemma AttemptSurplus(cfg: EndpointConfig, ep: Endpoint, h: History, t: nat, admitted: seq<TxPacket>, nodrop: bool,
                       env: DrainEnv)
    requires cfg.Valid()
    ensures var r := Attempt(cfg, ep, h, t, admitted, nodrop, env);
      |r.ep.txQueue| - |r.h.accepted| <= |ep.txQueue| - |h.accepted|
  {
    DrainTopShrinks(cfg, Queued(ep, admitted, nodrop), env);
  }

  /** Only a drainer putting packets back lets the TX queue grow beyond what was accepted. */
  lemma SurplusFalls(cfg: EndpointConfig, s: System, e: Event)
    requires cfg.Valid() && Enabled(cfg, s, e) && !OfDrainer(e)
    ensures Surplus(Next(cfg, s, e)) <= Surplus(s)
  {
    if e.TrySend? {
      var a := Admit(cfg, e.offered, e.depth1, e.depth2, e.keep);
      AttemptSurplus(cfg, s.ep, Offered(s.hist, e.offered, a.leftover), e.t, a.admitted, e.nodrop, e.env);
    } else if e.TrySendNull? {
      AttemptSurplus(cfg, s.ep, s.hist, e.t, [], false, e.env);
    }
  }

  /** While thread `t` drains, no other thread can do what only the drainer does. */
  lemma OneDrains(cfg: EndpointConfig, s: System, t: nat, e: Event)
    requires SingleDrainer(s) && t in s.threads && s.threads[t].Drain?
    requires Enabled(cfg, s, e) && ThreadOf(e) != Some(t)
    ensures !OfDrainer(e)
  {
    assert s.hist.drainer == Some(t);
  }

  /** What thread `t` is doing. */
  function Doing(s: System, t: nat): Option<Thread> {
    if t in s.threads then Some(s.threads[t]) else None
  }

  /** A step of someone else while `t` may be draining. */
  lemma OthersStep(cfg: EndpointConfig, s: System, t: nat, e: Event)
    requires cfg.Valid() && SingleDrainer(s) && Enabled(cfg, s, e) && ThreadOf(e) != Some(t)
    ensures Doing(Next(cfg, s, e), t) == Doing(s, t)
    ensures Doing(s, t).Some? && Doing(s, t).value.Drain? ==> Surplus(Next(cfg, s, e)) <= Surplus(s)
  {
    OthersStay(s.threads, e, Step(cfg, s.ep, Mine(s, e), s.hist, e).mine);
    if Doing(s, t).Some? && Doing(s, t).value.Drain? {
      OneDrains(cfg, s, t, e);
      SurplusFalls(cfg, s, e);
    }
  }

  lemma NextReports(cfg: EndpointConfig, s: System, t: nat, credits: nat)
    requires cfg.Valid() && Doing(s, t) == None && credits < 256
    ensures Enabled(cfg, s, CreditReport(t, credits))
    ensures var s' := Next(cfg, s, CreditReport(t, credits));
      && s'.ep == s.ep.(credits := s.ep.credits + credits)
      && Doing(s', t) == if s.ep.credits + credits != 0 && s.ep.txQueue != [] then Some(Thread.Kick) else None
  {
  }

  lemma NextRefuses(cfg: EndpointConfig, s: System, t: nat, p: TxPacket, rest: seq<TxPacket>)
    requires cfg.Valid() && Doing(s, t) == Some(Drain(Sending(p, rest)))
    ensures Enabled(cfg, s, HifRefuses(t))
    ensures var s' := Next(cfg, s, HifRefuses(t));
      && s'.ep == TakeBack(s.ep, [p] + rest) && s'.hist == s.hist
      && Doing(s', t) == Some(Drain(Failed([p] + rest, true)))
  {
  }

  lemma NextFlushes(cfg: EndpointConfig, s: System)
    requires cfg.Valid()
    ensures Enabled(cfg, s, FlushTxQueue) && Next(cfg, s, FlushTxQueue).ep == s.ep.(txQueue := [])
  {
  }

  lemma NextCompletes(cfg: EndpointConfig, s: System, netbuf: nat)
    requires cfg.Valid() && netbuf in s.hist.inHif
    ensures Enabled(cfg, s, HifCompletes(netbuf))
    ensures Next(cfg, s, HifCompletes(netbuf)).ep == Complete(s.ep, netbuf)
    ensures Next(cfg, s, HifCompletes(netbuf)).threads == s.threads
  {
  }

  /** `sys` is a compiled field: Unlocked decides from it, while running, whether what the world
      wants to do next is possible, and takes the fields from it afterwards. */
  class HtcEndpoint {
    const cfg: EndpointConfig
    const world: World
    ghost const initial: nat
    var txQueue: seq<TxPacket>
    var lookupQueue: seq<TxPacket>
    var txCredits: int
    var txProcessCount: int
    var outstanding: int       // ul_outstanding_cnt
    var pmRefs: int            // runtime-PM gets minus puts made through HIF for this endpoint
    var clock: nat             // the moment of the world
    var sys: System            // the concurrent model, other threads included
    ghost var run: seq<Event>  // what happened since the endpoint was connected

    ghost function Fields(): Endpoint
      reads this
    {
      Endpoint(txQueue, lookupQueue, txCredits, txProcessCount, outstanding, pmRefs)
    }

    /** The concurrent model is where the run leads. */
    ghost predicate Tracked()
      reads this
    {
      cfg.Valid() && Legal(cfg, Init(initial), run) && sys == After(cfg, initial, run)
    }

    /** And the fields are those of the model. */
    ghost predicate Valid()
      reads this
    {
      Tracked() && sys.ep == Fields()
    }

    constructor (cfg: EndpointConfig, credits: nat, world: World)
      requires cfg.Valid()
      ensures Valid() && this.cfg == cfg && this.world == world && initial == credits && run == []
    {
      this.cfg, this.world, initial := cfg, world, credits;
      txQueue, lookupQueue := [], [];
      txCredits, txProcessCount, outstanding, pmRefs, clock := credits, 0, 0, 0, 0;
      sys, run := Init(credits), [];
    }

    ghost predicate At(t: nat, phase: Phase)
      reads this
    {
      Doing(sys, t) == Some(Drain(phase))
    }

    /** The model takes the step that the fields just took. */
    method Took(e: Event)
      requires Tracked() && Enabled(cfg, sys, e)
      modifies this`sys, this`run
      ensures Tracked() && sys == Next(cfg, old(sys), e) && run == old(run) + [e]
    {
      Snoc(cfg, Init(initial), run, e);
      sys := Next(cfg, sys, e);
      run := run + [e];
    }

    /** Someone else than `t` takes a step. */
    method OtherTook(t: nat, e: Event)
      requires Tracked() && Enabled(cfg, sys, e) && ThreadOf(e) != Some(t)
      modifies this`sys, this`run
      ensures Tracked() && run == old(run) + [e] && Doing(sys, t) == Doing(old(sys), t)
      ensures Doing(sys, t).Some? && Doing(sys, t).value.Drain? ==> Surplus(sys) <= old(Surplus(sys))
    {
      RunInv(cfg, initial, run);
      OthersStep(cfg, sys, t, e);
      Took(e);
    }

    /** The TX lock is free: others act for as long as they like, whatever of it is possible. */
    method Unlocked(t: nat)
      requires Valid()
      modifies this
      ensures Valid() && old(run) <= run && Doing(sys, t) == Doing(old(sys), t)
      ensures Doing(sys, t).Some? && Doing(sys, t).value.Drain? ==> Surplus(sys) <= old(Surplus(sys))
    {
      var events := world.others(clock);
      clock := clock + 1;
      for i := 0 to |events|
        invariant Tracked() && old(run) <= run && Doing(sys, t) == Doing(old(sys), t)
        invariant Doing(sys, t).Some? && Doing(sys, t).value.Drain? ==> Surplus(sys) <= old(Surplus(sys))
      {
        if ThreadOf(events[i]) != Some(t) && Enabled(cfg, sys, events[i]) {
          OtherTook(t, events[i]);
        }
      }
      txQueue, lookupQueue, txCredits := sys.ep.txQueue, sys.ep.lookup, sys.ep.credits;
      txProcessCount, outstanding, pmRefs := sys.ep.processCount, sys.ep.outstanding, sys.ep.pmRefs;
    }

    method CreditsFor(p: TxPacket) returns (creditsRequired: nat)
      requires cfg.Valid()
      ensures creditsRequired == CreditsRequired(cfg, p)
    {
      if cfg.isEndpoint0 {
        return 0;
      }
      var transferLength := p.length + cfg.headerLength;
      if transferLength <= cfg.creditSize {
        creditsRequired := 1;
      } else {
        creditsRequired := transferLength / cfg.creditSize;
        var remainder := transferLength % cfg.creditSize;
        if remainder != 0 {
          creditsRequired := creditsRequired + 1;
        }
      }
    }

    /** The credit-based dequeue loop on the queue it works on. */
    method DequeueCharged(source: seq<TxPacket>, doPmGet: bool, pmGood: nat)
      returns (taken: seq<TxPacket>, rest: seq<TxPacket>, pmFailed: bool)
      requires cfg.Valid()
      modifies this`txCredits, this`pmRefs
      ensures Grab(cfg, source, old(txCredits), doPmGet, pmGood) == Grabbed(taken, rest, txCredits, pmFailed)
      ensures pmRefs == old(pmRefs) + if doPmGet then |taken| else 0
    {
      var good := pmGood;
      taken, rest, pmFailed := [], source, false;
      ghost var g := Grab(cfg, source, txCredits, doPmGet, pmGood);
      while true
        invariant !pmFailed
        invariant pmRefs == old(pmRefs) + if doPmGet then |taken| else 0
        invariant var r := Grab(cfg, rest, txCredits, doPmGet, good);
          g == Grabbed(taken + r.taken, r.rest, r.credits, r.pmFailed)
        decreases |rest|
      {
        if doPmGet {
          if good == 0 {
            pmFailed := true;
            break;
          }
          good := good - 1;
          pmRefs := pmRefs + 1;
        }
        if |rest| == 0 {
          if doPmGet {
            pmRefs := pmRefs - 1;
          }
          break;
        }
        var p := rest[0];
        var creditsRequired := CreditsFor(p);
        var sendFlags := false;
        if !cfg.isEndpoint0 {
          if txCredits < creditsRequired {
            if doPmGet {
              pmRefs := pmRefs - 1;
            }
            break;
          }
          txCredits := txCredits - creditsRequired;
          if txCredits <= cfg.creditsPerMaxMsg {
            sendFlags := true;
          }
        }
        rest := rest[1..];
        p := p.(creditsUsed := creditsRequired, needCreditUpdate := sendFlags);
        Assoc(taken, [p], Grab(cfg, rest, txCredits, doPmGet, good).taken);
        taken := taken + [p];
      }
    }

    /** The resource-based dequeue loop. */
    method DequeueByResource(source: seq<TxPacket>, resources: int, doPmGet: bool, pmGood: nat)
      returns (taken: seq<TxPacket>, rest: seq<TxPacket>, pmFailed: bool)
      modifies this`pmRefs
      ensures GrabByResource(source, resources, doPmGet, pmGood) == Grabbed(taken, rest, 0, pmFailed)
      ensures pmRefs == old(pmRefs) + if doPmGet then |taken| else 0
    {
      var good, left := pmGood, resources;
      taken, rest, pmFailed := [], source, false;
      ghost var g := GrabByResource(source, resources, doPmGet, pmGood);
      while left > 0
        invariant !pmFailed
        invariant pmRefs == old(pmRefs) + if doPmGet then |taken| else 0
        invariant var r := GrabByResource(rest, left, doPmGet, good);
          g == Grabbed(taken + r.taken, r.rest, r.credits, r.pmFailed)
        decreases |rest|
      {
        if doPmGet {
          if good == 0 {
            pmFailed := true;
            break;
          }
          good := good - 1;
          pmRefs := pmRefs + 1;
        }
        if |rest| == 0 {
          if doPmGet {
            pmRefs := pmRefs - 1;
          }
          break;
        }
        var p := rest[0];
        rest := rest[1..];
        p := p.(creditsUsed := 0, needCreditUpdate := false);
        left := left - p.fragments;
        Assoc(taken, [p], GrabByResource(rest, left, doPmGet, good).taken);
        taken := taken + [p];
      }
    }

    /** extract_htc_pm_packets on the sequences QueueScans refines. */
    method ExtractPm() returns (pm: seq<TxPacket>)
      modifies this`txQueue
      ensures pm == Extracted(cfg, old(txQueue)) && txQueue == Unextracted(cfg, old(txQueue))
    {
      pm := [];
      if !cfg.isWmiControl {
        return;
      }
      var kept, rest := [], txQueue;
      while |rest| > 0
        invariant pm + Pm(rest) == Pm(txQueue) && kept + NonPm(rest) == NonPm(txQueue)
      {
        var p := rest[0];
        if p.tag == AutoPm {
          pm := pm + [p];
        } else {
          kept := kept + [p];
        }
        rest := rest[1..];
      }
      txQueue := kept;
    }

    /** get_htc_send_packets_credit_based and get_htc_send_packets; the TX lock is held. */
    method GetSendPackets(env: DrainEnv) returns (taken: seq<TxPacket>, pmFailed: bool)
      requires cfg.Valid()
      modifies this`txQueue, this`txCredits, this`pmRefs
      ensures GetPackets(cfg, old(Fields()), env) == Got(Fields(), taken, pmFailed)
    {
      var pm := ExtractPm();
      PmDueSplit(old(txQueue));
      var doPmGet := |pm| == 0;
      var source := if doPmGet then txQueue else pm;
      var rest;
      if cfg.creditFlow {
        taken, rest, pmFailed := DequeueCharged(source, doPmGet, env.pmGood);
      } else {
        taken, rest, pmFailed := DequeueByResource(source, env.resources, doPmGet, env.pmGood);
      }
      txQueue := if doPmGet then rest else rest + txQueue;
    }

    /** The top of the drain loop, up to releasing the lock or leaving the section. */
    method DrainPass(env: DrainEnv) returns (taken: seq<TxPacket>, pmFailed: bool)
      requires cfg.Valid()
      modifies this`txQueue, this`txCredits, this`pmRefs, this`txProcessCount
      ensures DrainTop(cfg, old(Fields()), env) == Got(Fields(), taken, pmFailed)
    {
      taken, pmFailed := [], false;
      if |txQueue| != 0 {
        taken, pmFailed := GetSendPackets(env);
      }
      if |taken| == 0 {
        txProcessCount := 0;
      } else {
        pmFailed := false;
      }
    }

    /** Reclaims what the packets of a local queue were charged. */
    method ReclaimCredits(queue: seq<TxPacket>)
      modifies this`txCredits
      ensures txCredits == old(txCredits) + Cost(queue)
    {
      var i := 0;
      assert queue[0..] == queue;
      while i < |queue|
        invariant 0 <= i <= |queue|
        invariant txCredits + Cost(queue[i..]) == old(txCredits) + Cost(queue)
      {
        assert queue[i..][1..] == queue[i + 1..];
        txCredits := txCredits + queue[i].creditsUsed;
        i := i + 1;
      }
    }

    /** Puts a packet into the lookup queue before HIF sees it. */
    method RecordOne(t: nat, p: TxPacket, rest: seq<TxPacket>)
      requires Valid() && At(t, Issuing([p] + rest))
      modifies this
      ensures Valid() && At(t, Sending(p, rest))
      ensures run == old(run) + [Record(t)] && Surplus(sys) == old(Surplus(sys))
    {
      assert ([p] + rest)[1..] == rest;
      lookupQueue := lookupQueue + [p];
      outstanding := outstanding + 1;
      Took(Record(t));
    }

    /** HIF took the packet. */
    method AcceptOne(t: nat, p: TxPacket, rest: seq<TxPacket>)
      requires Valid() && At(t, Sending(p, rest))
      modifies this
      ensures Valid() && At(t, Issuing(rest))
      ensures run == old(run) + [HifAccepts(t)] && Surplus(sys) == old(Surplus(sys))
    {
      if p.tag == RuntimePut {
        pmRefs := pmRefs - 1;
      }
      Took(HifAccepts(t));
    }

    /** A refused packet leaves the lookup queue, and everything still in the local queue is
        reclaimed. */
    method TakeBackLocked(queue: seq<TxPacket>)
      requires queue != []
      modifies this`outstanding, this`lookupQueue, this`txCredits
      ensures Fields() == TakeBack(old(Fields()), queue)
    {
      outstanding := outstanding - 1;
      lookupQueue := Without(lookupQueue, queue[0].netbuf);
      ReclaimCredits(queue);
    }

    /** HIF refused the packet. */
    method RefuseOne(t: nat, p: TxPacket, rest: seq<TxPacket>)
      requires Valid() && At(t, Sending(p, rest))
      modifies this
      ensures Valid() && At(t, Failed([p] + rest, true))
      ensures run == old(run) + [HifRefuses(t)] && Surplus(sys) == old(Surplus(sys))
    {
      TakeBackLocked([p] + rest);
      NextRefuses(cfg, sys, t, p, rest);
      Took(HifRefuses(t));
    }

    /** An exit of htc_issue_packets before a packet reaches HIF. */
    method Fail(t: nat, queue: seq<TxPacket>, error: IssueError)
      requires Valid() && At(t, Issuing(queue)) && CanDrain(cfg, Issuing(queue), IssueFails(t, error))
      modifies this
      ensures Valid() && At(t, Failed(if error == HeaderMissing then queue[1..] else queue, false))
      ensures run == old(run) + [IssueFails(t, error)] && Surplus(sys) == old(Surplus(sys))
    {
      Took(IssueFails(t, error));
    }

    /** One packet through hif_send_head. */
    method SendOne(t: nat, p: TxPacket, rest: seq<TxPacket>, accepted: bool)
      requires Valid() && At(t, Issuing([p] + rest))
      modifies this
      ensures Valid() && old(run) <= run && Surplus(sys) <= old(Surplus(sys))
      ensures At(t, if accepted then Issuing(rest) else Failed([p] + rest, true))
    {
      RecordOne(t, p, rest);
      Unlocked(t);
      if accepted {
        AcceptOne(t, p, rest);
      } else {
        RefuseOne(t, p, rest);
      }
    }

    /** htc_issue_packets without bundling.  On success everything went to HIF, on failure `left`
        is put back later. */
    method IssuePackets(t: nat, queue: seq<TxPacket>) returns (failed: bool, left: seq<TxPacket>)
      requires Valid() && At(t, Issuing(queue))
      modifies this
      ensures Valid() && old(run) <= run && Surplus(sys) <= old(Surplus(sys))
      ensures failed ==> At(t, Failed(left, true)) || At(t, Failed(left, false))
      ensures !failed ==> At(t, Issuing([]))
    {
      failed, left := false, queue;
      while true
        invariant Valid() && old(run) <= run && Surplus(sys) <= old(Surplus(sys))
        invariant !failed && At(t, Issuing(left))
        decreases |left|
      {
        Unlocked(t);
        var answer := world.answer(clock);
        if cfg.hasPaddingCallback && answer == NoPadding {
          Fail(t, left, PaddingAbsent);
          failed := true;
          break;
        }
        if |left| == 0 {
          break;
        }
        var p, rest := left[0], left[1..];
        assert left == [p] + rest;
        if cfg.creditFlow {
          if answer == NoHeader {
            Fail(t, left, HeaderMissing);
            left, failed := rest, true;
            break;
          }
          if answer == NoMap {
            Fail(t, left, MapFailed);
            failed := true;
            break;
          }
        }
        SendOne(t, p, rest, answer != HifRefused);
        if answer == HifRefused {
          failed := true;
          break;
        }
        left := rest;
      }
    }

    // ---------- htc_try_send ----------

    /** Overflow handling: what fits goes in, EpSendFull decides about the rest. */
    method AdmitPackets(offered: seq<TxPacket>, depth1: nat, depth2: nat, keep: set<nat>)
      returns (admitted: seq<TxPacket>, leftover: seq<TxPacket>, drop: bool)
      ensures Admit(cfg, offered, depth1, depth2, keep) == Admission(admitted, leftover, drop)
    {
      admitted, leftover := [], offered;
      if |offered| == 0 {
        return [], [], true;
      }
      var overflow: int;
      if depth1 >= cfg.maxTxQueueDepth {
        overflow := |offered|;
      } else {
        overflow := depth2 + |offered| - cfg.maxTxQueueDepth;
      }
      if overflow <= 0 || !cfg.hasSendFull {
        assert offered[..|offered|] == offered && offered[|offered|..] == [];
        return offered, [], false;
      }
      var goodPkts := |offered| - overflow;
      ghost var room := Room(cfg, |offered|, depth1, depth2);
      var i := 0;
      while i < goodPkts
        invariant 0 <= i <= room && admitted == offered[..i] && leftover == offered[i..]
      {
        admitted := admitted + [leftover[0]];
        leftover := leftover[1..];
        i := i + 1;
      }
      var walk, refused := leftover, [];
      while |walk| > 0
        invariant admitted + Kept(walk, keep) == offered[..room] + Kept(offered[room..], keep)
        invariant refused + Refused(walk, keep) == Refused(offered[room..], keep)
      {
        if walk[0].netbuf in keep {
          admitted := admitted + [walk[0]];
        } else {
          refused := refused + [walk[0]];
        }
        walk := walk[1..];
      }
      return admitted, refused, |admitted| == 0;
    }

    /** From taking the TX lock to the first release. */
    method EnterLocked(admitted: seq<TxPacket>, nodrop: bool, env: DrainEnv)
      returns (busy: bool, taken: seq<TxPacket>, pmFailed: bool)
      requires cfg.Valid()
      modifies this`txQueue, this`txCredits, this`pmRefs, this`txProcessCount
      ensures Enter(cfg, old(Fields()), admitted, nodrop, env) == Entered(Fields(), busy, taken, pmFailed)
    {
      taken, pmFailed := [], false;
      if |admitted| > 0 {
        if nodrop {
          txQueue := admitted + txQueue;
        } else {
          txQueue := txQueue + admitted;
        }
      }
      assert admitted == [] ==> admitted + txQueue == txQueue == txQueue + admitted;
      txProcessCount := txProcessCount + 1;
      busy := txProcessCount > 1;
      if busy {
        txProcessCount := txProcessCount - 1;
      } else {
        taken, pmFailed := DrainPass(env);
      }
    }

    /** What a failed drain does before it leaves: one runtime-PM put for each packet put back. */
    method PutBackLocked(queue: seq<TxPacket>)
      modifies this`pmRefs, this`txQueue, this`txProcessCount
      ensures Fields() == Requeue(old(Fields()), queue)
    {
      var i := |queue|;
      while i > 0
        invariant 0 <= i <= |queue| && Fields() == old(Fields()).(pmRefs := old(pmRefs) - (|queue| - i))
      {
        pmRefs := pmRefs - 1;
        i := i - 1;
      }
      txQueue := queue + txQueue;
      txProcessCount := 0;
    }

    /** What a failed drain still holds goes back in front of the TX queue. */
    method GiveUp(t: nat, left: seq<TxPacket>)
      requires Valid() && (At(t, Failed(left, true)) || At(t, Failed(left, false)))
      modifies this
      ensures Valid() && run == old(run) + [PutBack(t)] && Doing(sys, t) == None
    {
      PutBackLocked(left);
      Took(PutBack(t));
    }

    /** The next turn of the drain loop up to its unlock, after everything went to HIF. */
    method GoOn(t: nat) returns (next: seq<TxPacket>)
      requires Valid() && At(t, Issuing([]))
      modifies this
      ensures Valid() && run == old(run) + [Continue(t, world.env(clock))]
      ensures if next == [] then Doing(sys, t) == None
              else At(t, Issuing(next)) && Surplus(sys) < old(Surplus(sys))
    {
      var env := world.env(clock);
      DrainTopShrinks(cfg, Fields(), env);
      var pmFailed;
      next, pmFailed := DrainPass(env);
      Took(Continue(t, env));
    }

    /** Sends what one pass dequeued and makes the next pass, or puts everything back. */
    method DrainRound(t: nat, taken: seq<TxPacket>) returns (next: seq<TxPacket>)
      requires Valid() && At(t, Issuing(taken))
      modifies this
      ensures Valid() && old(run) <= run
      ensures if next == [] then Doing(sys, t) == None
              else At(t, Issuing(next)) && Surplus(sys) < old(Surplus(sys))
    {
      var failed, left := IssuePackets(t, taken);
      Unlocked(t);
      if failed {
        GiveUp(t, left);
        next := [];
      } else {
        next := GoOn(t);
      }
    }

    /** The drain section after the first pass dequeued `first`, for at most `rounds` turns of the
        loop.  Every turn takes a packet that was queued before or accepted since, so it goes on
        only for as long as callers keep it supplied. */
    method DrainOn(t: nat, first: seq<TxPacket>, rounds: nat) returns (done: bool)
      requires Valid() && (if first == [] then Doing(sys, t) == None else At(t, Issuing(first)))
      modifies this
      ensures Valid() && old(run) <= run
      ensures done ==> Doing(sys, t) == None
      ensures !done ==> rounds <= |old(sys).ep.txQueue| + |sys.hist.accepted| - |old(sys).hist.accepted|
    {
      var taken, turn: nat := first, 0;
      while |taken| > 0 && turn < rounds
        invariant Valid() && old(run) <= run
        invariant if taken == [] then Doing(sys, t) == None
                  else At(t, Issuing(taken)) && turn <= rounds && Surplus(sys) + turn <= old(Surplus(sys))
        decreases rounds - turn
      {
        taken := DrainRound(t, taken);
        turn := turn + 1;
      }
      done := |taken| == 0;
    }

    /** htc_try_send: the offer is answered as Admit says, and all that happens until the call ends,
        in whatever interleaving, is a run of the concurrent model after which this thread is
        outside. */
    method TrySend(t: nat, offered: seq<TxPacket>, depth1: nat, depth2: nat, keep: set<nat>, nodrop: bool, rounds: nat)
      returns (drop: bool, leftover: seq<TxPacket>, done: bool)
      requires Valid() && Doing(sys, t) == None && Fresh(cfg, sys.hist, offered)
      modifies this
      ensures Valid()
      ensures old(run) + [TxEngine.TrySend(t, offered, depth1, depth2, keep, nodrop, world.env(old(clock)))] <= run
      ensures var a := Admit(cfg, offered, depth1, depth2, keep); leftover == a.leftover && drop == a.drop
      ensures done ==> Doing(sys, t) == None
      ensures !done ==> rounds <= |old(sys).ep.txQueue| + |sys.hist.accepted| - |old(sys).hist.accepted|
    {
      var env := world.env(clock);
      var e := TxEngine.TrySend(t, offered, depth1, depth2, keep, nodrop, env);
      var admitted;
      admitted, leftover, drop := AdmitPackets(offered, depth1, depth2, keep);
      SurplusFalls(cfg, sys, e);
      if drop {
        Took(e);
        return drop, leftover, true;
      }
      var busy, taken, pmFailed := EnterLocked(admitted, nodrop, env);
      Took(e);
      done := DrainOn(t, taken, rounds);
    }

    /** htc_try_send without packets, as a kick or a completion calls it. */
    method TrySendNull(t: nat, rounds: nat) returns (done: bool)
      requires Valid() && (Doing(sys, t).Some? ==> Doing(sys, t).value.Kick?)
      modifies this
      ensures Valid() && old(run) + [TxEngine.TrySendNull(t, world.env(old(clock)))] <= run
      ensures done ==> Doing(sys, t) == None
      ensures !done ==> rounds <= |old(sys).ep.txQueue| + |sys.hist.accepted| - |old(sys).hist.accepted|
    {
      var env := world.env(clock);
      var e := TxEngine.TrySendNull(t, env);
      SurplusFalls(cfg, sys, e);
      var busy, taken, pmFailed := EnterLocked([], false, env);
      Took(e);
      done := DrainOn(t, taken, rounds);
    }

    // ---------- credits, completions, flushes ----------

    /** Thread `t` kicked the queue at some point since the run was `before`. */
    ghost predicate Kicked(t: nat, before: seq<Event>)
      reads this
    {
      exists k | |before| < k < |run| :: run[k].TrySendNull? && run[k].t == t
    }

    method Deposit(credits: nat) returns (kick: bool)
      modifies this`txCredits
      ensures Fields() == old(Fields()).(credits := old(txCredits) + credits)
      ensures kick <==> old(txCredits) + credits != 0 && old(txQueue) != []
    {
      txCredits := txCredits + credits;
      kick := txCredits != 0 && |txQueue| > 0;
    }

    /** The credits of one entry; a thread that will kick the queue says so. */
    method AddCredits(t: nat, credits: nat) returns (kick: bool)
      requires Valid() && Doing(sys, t) == None && credits < 256
      modifies this
      ensures Valid() && run == old(run) + [CreditReport(t, credits)]
      ensures kick <==> old(txCredits) + credits != 0 && old(txQueue) != []
      ensures Doing(sys, t) == if kick then Some(Thread.Kick) else None
    {
      NextReports(cfg, sys, t, credits);
      kick := Deposit(credits);
      Took(CreditReport(t, credits));
    }

    /** One entry of a credit report: the credits are added and, if that can help, the queue
        is kicked after the lock was released. */
    method ProcessCreditEntry(t: nat, credits: nat, rounds: nat) returns (done: bool)
      requires Valid() && Doing(sys, t) == None && credits < 256
      modifies this
      ensures Valid() && old(run) + [CreditReport(t, credits)] <= run
      ensures done ==> Doing(sys, t) == None
      ensures old(txCredits) + credits != 0 && old(txQueue) != [] ==> Kicked(t, old(run))
    {
      var kick := AddCredits(t, credits);
      done := true;
      if kick {
        Unlocked(t);
        done := Kick(t, rounds, old(run));
      }
    }

    /** The lock was released before the kick. */
    method Kick(t: nat, rounds: nat, ghost before: seq<Event>) returns (done: bool)
      requires Valid() && before < run && (Doing(sys, t).Some? ==> Doing(sys, t).value.Kick?)
      modifies this
      ensures Valid() && old(run) <= run && Kicked(t, before) && (done ==> Doing(sys, t) == None)
    {
      ghost var k := |run|;
      done := TrySendNull(t, rounds);
      assert run[k].TrySendNull? && run[k].t == t;
    }

    /** The search for a netbuf. */
    method Position(queue: seq<TxPacket>, netbuf: nat) returns (i: nat)
      ensures i == Find(queue, netbuf)
    {
      i := 0;
      while i < |queue|
        invariant 0 <= i <= |queue| && i <= Find(queue, netbuf)
      {
        if queue[i].netbuf == netbuf {
          return;
        }
        i := i + 1;
      }
    }

    /** htc_lookup_tx_packet and the runtime-PM put of the completion. */
    method LookupTxPacket(netbuf: nat) returns (found: Option<TxPacket>)
      modifies this`outstanding, this`lookupQueue, this`pmRefs
      ensures Fields() == Complete(old(Fields()), netbuf)
      ensures var k := Find(old(lookupQueue), netbuf);
        found == if k < |old(lookupQueue)| then Some(old(lookupQueue)[k]) else None
    {
      outstanding := outstanding - 1;
      found := None;
      var i := Position(lookupQueue, netbuf);
      WithoutSplices(lookupQueue, netbuf);
      if i < |lookupQueue| {
        found := Some(lookupQueue[i]);
        lookupQueue := lookupQueue[..i] + lookupQueue[i + 1..];
        if found.value.tag != AutoPm {
          pmRefs := pmRefs - 1;
        }
      }
    }

    /** HIF's completion up to the callback. */
    method Completed(netbuf: nat) returns (found: Option<TxPacket>)
      requires Valid() && netbuf in sys.hist.inHif
      modifies this
      ensures Valid() && run == old(run) + [HifCompletes(netbuf)] && sys.threads == old(sys).threads
      ensures var k := Find(old(lookupQueue), netbuf);
        found == if k < |old(lookupQueue)| then Some(old(lookupQueue)[k]) else None
    {
      found := LookupTxPacket(netbuf);
      NextCompletes(cfg, sys, netbuf);
      Took(HifCompletes(netbuf));
    }

    /** htc_tx_completion_handler for a packet sent on its own, on thread `t`: without credit flow
        the queue is checked again, since nothing else would. */
    method TxCompletion(t: nat, netbuf: nat, rounds: nat) returns (found: Option<TxPacket>, done: bool)
      requires Valid() && netbuf in sys.hist.inHif && Doing(sys, t) == None
      modifies this
      ensures Valid() && old(run) + [HifCompletes(netbuf)] <= run
      ensures var k := Find(old(lookupQueue), netbuf);
        found == if k < |old(lookupQueue)| then Some(old(lookupQueue)[k]) else None
      ensures done ==> Doing(sys, t) == None
      ensures !cfg.creditFlow ==> Kicked(t, old(run))
    {
      found := Completed(netbuf);
      done := true;
      if !cfg.creditFlow {
        Unlocked(t);
        done := Kick(t, rounds, old(run));
      }
    }

    /** htc_flush_endpoint_tx: every queued packet is given back, oldest first. */
    method FlushTx() returns (cancelled: seq<TxPacket>)
      requires Valid()
      modifies this
      ensures Valid() && run == old(run) + [FlushTxQueue] && cancelled == old(txQueue)
    {
      cancelled := [];
      while |txQueue| > 0
        invariant cancelled + txQueue == old(txQueue)
        invariant Tracked() && run == old(run) && sys == old(sys) && Fields() == old(Fields()).(txQueue := txQueue)
      {
        FirstAcross(cancelled, txQueue);
        cancelled := cancelled + [txQueue[0]];
        txQueue := txQueue[1..];
      }
      assert cancelled + [] == cancelled;
      NextFlushes(cfg, sys);
      Took(FlushTxQueue);
    }
  }
}
