// Every event of TxEngine keeps the invariants, so every run has them.

module TxInvariants {
  import opened Common
  import opened TxTypes
  import opened TxSpec
  import opened TxEngine

  // ---------- mutual exclusion ----------

  /** The drainer's phase after a thread that was not draining entered. */
  function PhaseEntered(ph: Option<Phase>, r: Outcome): Option<Phase> {
    if r.mine.Some? then ThreadPhase(r.mine) else ph
  }

  ghost predicate CountsDrainer(ep: Endpoint, ph: Option<Phase>) {
    ep.processCount == (if ph.Some? then 1 else 0)
  }

  lemma AttemptCount(cfg: EndpointConfig, ep: Endpoint, ph: Option<Phase>, h: History, t: nat,
                     admitted: seq<TxPacket>, nodrop: bool, env: DrainEnv)
    requires cfg.Valid() && CountsDrainer(ep, ph)
    ensures var r := Attempt(cfg, ep, h, t, admitted, nodrop, env);
      && CountsDrainer(r.ep, PhaseEntered(ph, r))
      && (r.mine.Some? ==> r.mine.value.Drain? && ph.None? && r.h.drainer == Some(t))
      && (r.mine.None? ==> r.h.drainer == h.drainer || (r.h.drainer.None? && ph.None?))
  {
  }

  lemma EnterCount(cfg: EndpointConfig, ep: Endpoint, ph: Option<Phase>, h: History, e: Event)
    requires cfg.Valid() && (e.TrySend? || e.TrySendNull?) && CountsDrainer(ep, ph)
    ensures var r := EnterStep(cfg, ep, h, e);
      && CountsDrainer(r.ep, PhaseEntered(ph, r))
      && (r.mine.Some? ==> r.mine.value.Drain? && ph.None? && r.h.drainer == Some(e.t))
      && (r.mine.None? ==> r.h.drainer == h.drainer || (r.h.drainer.None? && ph.None?))
  {
    match e
    case TrySend(t, offered, depth1, depth2, keep, nodrop, env) =>
      var a := Admit(cfg, offered, depth1, depth2, keep);
      AttemptCount(cfg, ep, ph, Offered(h, offered, a.leftover), t, a.admitted, nodrop, env);
    case TrySendNull(t, env) =>
      AttemptCount(cfg, ep, ph, h, t, [], false, env);
  }

  lemma DrainerCount(cfg: EndpointConfig, ep: Endpoint, phase: Phase, h: History, e: Event)
    requires cfg.Valid() && OfDrainer(e) && CanDrain(cfg, phase, e) && CountsDrainer(ep, Some(phase))
    requires h.drainer == Some(e.t)
    ensures var r := DrainerStep(cfg, ep, phase, h, e);
      && CountsDrainer(r.ep, ThreadPhase(r.mine))
      && (r.mine.Some? ==> r.mine.value.Drain?)
      && r.h.drainer == (if r.mine.Some? then Some(e.t) else None)
  {
  }

  lemma OutsideCount(ep: Endpoint, ph: Option<Phase>, h: History, e: Event)
    requires !OfDrainer(e) && !e.TrySend? && !e.TrySendNull? && CountsDrainer(ep, ph)
    ensures var r := OutsideStep(ep, h, e);
      CountsDrainer(r.ep, ph) && (r.mine.Some? ==> e.CreditReport? && r.mine.value.Kick?) && r.h.drainer == h.drainer
  {
  }

  predicate CanSend(phase: Phase, e: Event) {
    && OfDrainer(e) && !e.Continue? && !Failing(e)
    && (e.Record? ==> phase.Issuing? && phase.queue != [])
    && (e.HifAccepts? || e.HifRefuses? ==> phase.Sending?)
  }

  predicate CanFail(phase: Phase, e: Event) {
    && Failing(e)
    && (e.IssueFails? ==> phase.Issuing? && (e.error == HeaderMissing ==> phase.queue != []))
    && (e.PutBack? ==> phase.Failed?)
  }

  // ---------- what one pass of the drain loop does ----------

  lemma DrainTopCredits(cfg: EndpointConfig, ep: Endpoint, env: DrainEnv)
    requires cfg.Valid() && ep.credits >= 0
    ensures var g := DrainTop(cfg, ep, env);
      && g.ep.credits >= 0 && g.ep.credits + Cost(g.taken) == ep.credits
      && g.ep.lookup == ep.lookup && g.ep.outstanding == ep.outstanding
  {
    GetPacketsIsPmFirst(cfg, ep, env);
  }

  lemma DrainTopMoves(cfg: EndpointConfig, ep: Endpoint, env: DrainEnv)
    requires cfg.Valid() && ep.credits >= 0
    ensures var g := DrainTop(cfg, ep, env); Ids(g.taken) + Ids(g.ep.txQueue) == Ids(ep.txQueue)
  {
    if ep.txQueue != [] {
      var g := GetPackets(cfg, ep, env);
      GetPacketsIsPmFirst(cfg, ep, env);
      var pm, others := Extracted(cfg, ep.txQueue), Unextracted(cfg, ep.txQueue);
      DequeuedNetbufs(pm + others, g.taken, g.ep.txQueue);
      IdsConcat(pm, others);
      PmSplit(ep.txQueue);
    }
  }

  /** The order within each class survives a pass. */
  lemma DrainTopKeepsOrder(cfg: EndpointConfig, ep: Endpoint, env: DrainEnv)
    requires cfg.Valid() && ep.credits >= 0
    ensures var g := DrainTop(cfg, ep, env);
      && Netbufs(Pm(g.taken)) + Netbufs(Pm(g.ep.txQueue)) == Netbufs(Pm(ep.txQueue))
      && Netbufs(NonPm(g.taken)) + Netbufs(NonPm(g.ep.txQueue)) == Netbufs(NonPm(ep.txQueue))
  {
    if ep.txQueue != [] {
      var g := GetPackets(cfg, ep, env);
      GetPacketsIsPmFirst(cfg, ep, env);
      var pm, others := Extracted(cfg, ep.txQueue), Unextracted(cfg, ep.txQueue);
      DequeuedByTag(pm + others, g.taken, g.ep.txQueue);
      DequeuedNetbufs(Pm(pm + others), Pm(g.taken), Pm(g.ep.txQueue));
      DequeuedNetbufs(NonPm(pm + others), NonPm(g.taken), NonPm(g.ep.txQueue));
      PmConcat(pm, others);
      NonPmConcat(pm, others);
      PmSplitTwice(ep.txQueue);
      assert Pm(pm + others) == Pm(ep.txQueue) && NonPm(pm + others) == NonPm(ep.txQueue);
    }
  }

  // ---------- credit conservation ----------

  lemma PassCredits(cfg: EndpointConfig, initial: nat, ep: Endpoint, h: History, t: nat, env: DrainEnv)
    requires cfg.Valid() && CreditsConserved(initial, ep, None, h)
    ensures var r := Pass(cfg, ep, h, t, env); CreditsConserved(initial, r.ep, ThreadPhase(r.mine), r.h)
  {
    DrainTopCredits(cfg, ep, env);
  }

  lemma SendCredits(initial: nat, ep: Endpoint, phase: Phase, h: History, e: Event)
    requires CanSend(phase, e) && CreditsConserved(initial, ep, Some(phase), h)
    ensures var r := SendStep(ep, phase, h, e); CreditsConserved(initial, r.ep, ThreadPhase(r.mine), r.h)
  {
    match e
    case Record(t) => assert Cost([phase.queue[0]]) == phase.queue[0].creditsUsed;
    case HifAccepts(t) => CostConcat(h.handed, [phase.packet]);
    case HifRefuses(t) => CostConcat([phase.packet], phase.queue);
  }

  lemma FailCredits(initial: nat, ep: Endpoint, phase: Phase, h: History, e: Event)
    requires CanFail(phase, e) && CreditsConserved(initial, ep, Some(phase), h)
    ensures var r := FailStep(ep, phase, h, e); CreditsConserved(initial, r.ep, ThreadPhase(r.mine), r.h)
  {
  }

  lemma OutsideCredits(initial: nat, ep: Endpoint, ph: Option<Phase>, h: History, e: Event)
    requires !OfDrainer(e) && !e.TrySend? && !e.TrySendNull?
    requires CreditsConserved(initial, ep, ph, h)
    ensures var r := OutsideStep(ep, h, e); CreditsConserved(initial, r.ep, ph, r.h)
  {
  }

  // ---------- exactly-once ----------

  lemma {:induction false} IdsWithout(x: nat, q: seq<TxPacket>, netbuf: nat)
    ensures Ids(q)[x] == Ids(Without(q, netbuf))[x] + if x == netbuf && Find(q, netbuf) < |q| then 1 else 0
    ensures netbuf in Ids(q) <==> Find(q, netbuf) < |q|
  {
    if q != [] && q[0].netbuf != netbuf {
      IdsWithout(x, q[1..], netbuf);
      assert Without(q, netbuf)[1..] == Without(q[1..], netbuf);
    }
  }

  lemma IdsHead(x: nat, q: seq<TxPacket>)
    requires q != []
    ensures Ids(q)[x] == Ids(q[1..])[x] + if x == q[0].netbuf then 1 else 0
    ensures Ids([q[0]])[x] == if x == q[0].netbuf then 1 else 0
  {
  }

  lemma PassOnce(x: nat, cfg: EndpointConfig, ep: Endpoint, h: History, t: nat, env: DrainEnv)
    requires cfg.Valid() && ep.credits >= 0 && ExactlyOnce(x, ep, None, h)
    ensures var r := Pass(cfg, ep, h, t, env); ExactlyOnce(x, r.ep, ThreadPhase(r.mine), r.h)
  {
    DrainTopMoves(cfg, ep, env);
    DrainTopCredits(cfg, ep, env);
  }

  lemma SendOnce(x: nat, ep: Endpoint, phase: Phase, h: History, e: Event)
    requires CanSend(phase, e) && ExactlyOnce(x, ep, Some(phase), h)
    requires phase.Sending? ==> phase.packet.netbuf in Ids(ep.lookup)
    ensures var r := SendStep(ep, phase, h, e); ExactlyOnce(x, r.ep, ThreadPhase(r.mine), r.h)
  {
    match e
    case Record(t) => RecordOnce(x, ep, phase, h, e);
    case HifAccepts(t) =>
    case HifRefuses(t) => HifRefusesOnce(x, ep, phase, h, e);
  }

  lemma RecordOnce(x: nat, ep: Endpoint, phase: Phase, h: History, e: Event)
    requires CanSend(phase, e) && e.Record? && ExactlyOnce(x, ep, Some(phase), h)
    ensures var r := SendStep(ep, phase, h, e); ExactlyOnce(x, r.ep, ThreadPhase(r.mine), r.h)
  {
    IdsHead(x, phase.queue);
    IdsSnoc(x, ep.lookup, phase.queue[0]);
  }

  lemma HifRefusesOnce(x: nat, ep: Endpoint, phase: Phase, h: History, e: Event)
    requires CanSend(phase, e) && e.HifRefuses? && ExactlyOnce(x, ep, Some(phase), h)
    requires phase.packet.netbuf in Ids(ep.lookup)
    ensures var r := SendStep(ep, phase, h, e); ExactlyOnce(x, r.ep, ThreadPhase(r.mine), r.h)
  {
    IdsWithout(x, ep.lookup, phase.packet.netbuf);
    IdsConcat([phase.packet], phase.queue);
  }

  lemma FailOnce(x: nat, ep: Endpoint, phase: Phase, h: History, e: Event)
    requires CanFail(phase, e) && ExactlyOnce(x, ep, Some(phase), h)
    ensures var r := FailStep(ep, phase, h, e); ExactlyOnce(x, r.ep, ThreadPhase(r.mine), r.h)
  {
    if e.PutBack? {
      IdsConcat(phase.queue, ep.txQueue);
    } else if e.error == HeaderMissing {
      IdsHead(x, phase.queue);
    }
  }

  /** A completion that finds its packet, and one that does not. */
  lemma FoundOnce(x: nat, ep: Endpoint, ph: Option<Phase>, h: History, netbuf: nat)
    requires ExactlyOnce(x, ep, ph, h) && Find(ep.lookup, netbuf) < |ep.lookup|
    ensures var h' := h.(inHif := h.inHif - multiset{netbuf}, completed := h.completed + multiset{netbuf});
      ExactlyOnce(x, Complete(ep, netbuf), ph, h')
  {
    IdsWithout(x, ep.lookup, netbuf);
    var one := if x == netbuf then 1 else 0;
    assert Held(x, Complete(ep, netbuf), ph) + one == Held(x, ep, ph);
    assert (h.completed + multiset{netbuf})[x] == h.completed[x] + one;
  }

  lemma OrphanOnce(x: nat, ep: Endpoint, ph: Option<Phase>, h: History, netbuf: nat)
    requires ExactlyOnce(x, ep, ph, h) && Find(ep.lookup, netbuf) == |ep.lookup|
    ensures var h' := h.(inHif := h.inHif - multiset{netbuf}, orphans := h.orphans - multiset{netbuf});
      ExactlyOnce(x, Complete(ep, netbuf), ph, h')
  {
    IdsWithout(x, ep.lookup, netbuf);
    assert Held(x, Complete(ep, netbuf), ph) == Held(x, ep, ph);
  }

  lemma CompletesOnce(x: nat, ep: Endpoint, ph: Option<Phase>, h: History, netbuf: nat)
    requires ExactlyOnce(x, ep, ph, h)
    ensures var r := OutsideStep(ep, h, HifCompletes(netbuf)); ExactlyOnce(x, r.ep, ph, r.h)
  {
    if Find(ep.lookup, netbuf) < |ep.lookup| {
      FoundOnce(x, ep, ph, h, netbuf);
    } else {
      OrphanOnce(x, ep, ph, h, netbuf);
    }
  }

  lemma OutsideOnce(x: nat, ep: Endpoint, ph: Option<Phase>, h: History, e: Event)
    requires !OfDrainer(e) && !e.TrySend? && !e.TrySendNull?
    requires ExactlyOnce(x, ep, ph, h)
    ensures var r := OutsideStep(ep, h, e); ExactlyOnce(x, r.ep, ph, r.h)
  {
    if e.HifCompletes? {
      CompletesOnce(x, ep, ph, h, e.netbuf);
    } else if e.FlushTxQueue? {
      assert Held(x, ep, ph) == Held(x, ep.(txQueue := []), ph) + Ids(ep.txQueue)[x];
    } else if e.FlushLookupQueue? {
      assert Held(x, ep, ph) == Held(x, ep.(lookup := []), ph) + Ids(ep.lookup)[x];
    }
  }

  // ---------- HIF and the lookup queue ----------

  lemma PassHif(x: nat, cfg: EndpointConfig, ep: Endpoint, h: History, t: nat, env: DrainEnv)
    requires cfg.Valid() && ep.credits >= 0 && LookupFollowsHif(x, ep, None, h) && OutstandingExact(ep, None, h)
    ensures var r := Pass(cfg, ep, h, t, env);
      LookupFollowsHif(x, r.ep, ThreadPhase(r.mine), r.h) && OutstandingExact(r.ep, ThreadPhase(r.mine), r.h)
  {
    DrainTopCredits(cfg, ep, env);
  }

  lemma IdsSnoc(x: nat, q: seq<TxPacket>, p: TxPacket)
    ensures Ids(q + [p])[x] == Ids(q)[x] + if p.netbuf == x then 1 else 0
  {
    IdsConcat(q, [p]);
    assert [p][1..] == [];
  }

  lemma RecordHif(x: nat, ep: Endpoint, phase: Phase, h: History, e: Event)
    requires CanSend(phase, e) && e.Record? && LookupFollowsHif(x, ep, Some(phase), h)
    ensures var r := SendStep(ep, phase, h, e); LookupFollowsHif(x, r.ep, ThreadPhase(r.mine), r.h)
  {
    IdsSnoc(x, ep.lookup, phase.queue[0]);
  }

  lemma HifRefusesHif(x: nat, ep: Endpoint, phase: Phase, h: History, e: Event)
    requires CanSend(phase, e) && e.HifRefuses? && LookupFollowsHif(x, ep, Some(phase), h)
    requires phase.packet.netbuf in Ids(ep.lookup)
    ensures var r := SendStep(ep, phase, h, e); LookupFollowsHif(x, r.ep, ThreadPhase(r.mine), r.h)
  {
    IdsWithout(x, ep.lookup, phase.packet.netbuf);
  }

  lemma SendHif(x: nat, ep: Endpoint, phase: Phase, h: History, e: Event)
    requires CanSend(phase, e) && LookupFollowsHif(x, ep, Some(phase), h)
    requires phase.Sending? ==> phase.packet.netbuf in Ids(ep.lookup)
    ensures var r := SendStep(ep, phase, h, e); LookupFollowsHif(x, r.ep, ThreadPhase(r.mine), r.h)
  {
    match e
    case Record(t) => RecordHif(x, ep, phase, h, e);
    case HifAccepts(t) =>
    case HifRefuses(t) => HifRefusesHif(x, ep, phase, h, e);
  }

  lemma SendOutstanding(ep: Endpoint, phase: Phase, h: History, e: Event)
    requires CanSend(phase, e) && OutstandingExact(ep, Some(phase), h)
    ensures var r := SendStep(ep, phase, h, e); OutstandingExact(r.ep, ThreadPhase(r.mine), r.h)
  {
  }

  lemma FailHif(x: nat, ep: Endpoint, phase: Phase, h: History, e: Event)
    requires CanFail(phase, e)
    requires LookupFollowsHif(x, ep, Some(phase), h) && OutstandingExact(ep, Some(phase), h)
    ensures var r := FailStep(ep, phase, h, e);
      LookupFollowsHif(x, r.ep, ThreadPhase(r.mine), r.h) && OutstandingExact(r.ep, ThreadPhase(r.mine), r.h)
  {
  }

  /** HIF never completes the packet it is still being handed. */
  lemma SendingNotInHif(ep: Endpoint, ph: Option<Phase>, h: History)
    requires ph.Some? && ph.value.Sending?
    requires ExactlyOnce(ph.value.packet.netbuf, ep, ph, h) && LookupFollowsHif(ph.value.packet.netbuf, ep, ph, h)
    ensures ph.value.packet.netbuf !in h.inHif
    ensures Ids(ep.lookup)[ph.value.packet.netbuf] <= 1
  {
  }

  lemma {:induction false} WithoutKeeps(q: seq<TxPacket>, netbuf: nat, p: TxPacket)
    requires p in q && p.netbuf != netbuf
    ensures p in Without(q, netbuf)
  {
    if q[0].netbuf != netbuf && q[0] != p {
      WithoutKeeps(q[1..], netbuf, p);
    }
  }

  lemma CompletesHif(x: nat, ep: Endpoint, ph: Option<Phase>, h: History, netbuf: nat)
    requires netbuf in h.inHif && LookupFollowsHif(x, ep, ph, h)
    ensures var r := OutsideStep(ep, h, HifCompletes(netbuf)); LookupFollowsHif(x, r.ep, ph, r.h)
  {
    IdsWithout(x, ep.lookup, netbuf);
  }

  lemma OutsideHif(x: nat, ep: Endpoint, ph: Option<Phase>, h: History, e: Event)
    requires !OfDrainer(e) && !e.TrySend? && !e.TrySendNull?
    requires e.HifCompletes? ==> e.netbuf in h.inHif
    requires e.FlushLookupQueue? ==> ph.None?
    requires LookupFollowsHif(x, ep, ph, h)
    ensures LookupFollowsHif(x, OutsideStep(ep, h, e).ep, ph, OutsideStep(ep, h, e).h)
  {
    if e.HifCompletes? {
      CompletesHif(x, ep, ph, h, e.netbuf);
    }
  }

  lemma OutsideOutstanding(ep: Endpoint, ph: Option<Phase>, h: History, e: Event)
    requires !OfDrainer(e) && !e.TrySend? && !e.TrySendNull?
    requires e.HifCompletes? ==> e.netbuf in h.inHif
    requires e.FlushLookupQueue? ==> ph.None?
    requires OutstandingExact(ep, ph, h)
    requires ph.Some? && ph.value.Sending? ==> ph.value.packet.netbuf !in h.inHif
    ensures OutstandingExact(OutsideStep(ep, h, e).ep, ph, OutsideStep(ep, h, e).h)
  {
    if e.HifCompletes? && ph.Some? && ph.value.Sending? {
      WithoutKeeps(ep.lookup, e.netbuf, ph.value.packet);
    }
  }

  // ---------- order ----------

  lemma ClassConcat(pm: bool, a: seq<TxPacket>, b: seq<TxPacket>)
    ensures Class(pm, a + b) == Class(pm, a) + Class(pm, b)
  {
    PmConcat(a, b);
    NonPmConcat(a, b);
    NetbufsConcat(Pm(a), Pm(b));
    NetbufsConcat(NonPm(a), NonPm(b));
  }

  /** A packet moves from the local queue to HIF, or back. */
  lemma Shift(a: seq<nat>, b: seq<nat>, c: seq<nat>, d: seq<nat>)
    ensures a + [] + (b + c) + d == a + b + c + d
  {
    assert a + [] == a;
    Assoc(a, b, c);
  }

  /** Packets move from the TX queue to the local queue, or back. */
  lemma ShiftBack(a: seq<nat>, b: seq<nat>, c: seq<nat>)
    ensures a + [] + [] + (b + c) == a + [] + b + c
  {
    assert a + [] == a;
    Assoc(a, b, c);
  }

  /** HIF takes the packet. */
  lemma ShiftOut(a: seq<nat>, b: seq<nat>, c: seq<nat>, d: seq<nat>)
    ensures (a + b) + [] + c + d == a + b + c + d
  {
    assert (a + b) + [] == a + b;
  }

  lemma PassOrder(pm: bool, cfg: EndpointConfig, ep: Endpoint, h: History, t: nat, env: DrainEnv)
    requires cfg.Valid() && ep.credits >= 0 && InOrder(pm, ep, None, h)
    ensures var r := Pass(cfg, ep, h, t, env); InOrder(pm, r.ep, ThreadPhase(r.mine), r.h)
  {
    DrainTopKeepsOrder(cfg, ep, env);
    var g := DrainTop(cfg, ep, env);
    assert Class(pm, ep.txQueue) == Class(pm, g.taken) + Class(pm, g.ep.txQueue);
    ShiftBack(Class(pm, h.handed), Class(pm, g.taken), Class(pm, g.ep.txQueue));
  }

  /** Adding to both at the end. */
  lemma BehindAll(p: seq<nat>, q: seq<nat>, x: seq<nat>, a: seq<nat>)
    ensures |p + (q + x)| - |a + x| == |p + q| - |a|
    ensures p + (q + x) == a + x <==> p + q == a
  {
    Assoc(p, q, x);
    if (p + q) + x == a + x {
      assert |p + q| == |a|;
      assert p + q == ((p + q) + x)[..|a|] == a;
    }
  }

  /** What gets in front of `q` is not what comes last. */
  lemma InFront(p: seq<nat>, x: seq<nat>, q: seq<nat>, a: seq<nat>)
    requires forall n | n in q :: n !in x
    ensures |p + (x + q)| - |a + x| == |p + q| - |a|
    ensures p + (x + q) == a + x <==> p + q == a && (x == [] || q == [])
  {
    if x != [] && q != [] {
      assert (p + (x + q))[|p + (x + q)| - 1] == q[|q| - 1] && q[|q| - 1] in q;
      assert (a + x)[|a + x| - 1] == x[|x| - 1] && x[|x| - 1] in x;
    } else {
      assert x + q == q + x;
      BehindAll(p, q, x, a);
    }
  }

  lemma {:induction false} NetbufsAreIds(q: seq<TxPacket>, n: nat)
    requires n in Netbufs(q)
    ensures Ids(q)[n] > 0
  {
    if q[0].netbuf != n {
      NetbufsAreIds(q[1..], n);
    }
  }

  lemma ClassIsIds(pm: bool, q: seq<TxPacket>, n: nat)
    requires n in Class(pm, q)
    ensures Ids(q)[n] > 0
  {
    NetbufsAreIds(if pm then Pm(q) else NonPm(q), n);
    PmSplit(q);
  }

  lemma NodropOvertakes(pm: bool, ep: Endpoint, ph: Option<Phase>, h: History, admitted: seq<TxPacket>)
    requires forall x :: ExactlyOnce(x, Queued(ep, admitted, true), ph, h)
    ensures forall n | n in Class(pm, ep.txQueue) :: n !in Class(pm, admitted)
  {
    forall n | n in Class(pm, ep.txQueue) ensures n !in Class(pm, admitted) {
      ClassIsIds(pm, ep.txQueue, n);
      IdsConcat(admitted, ep.txQueue);
      assert ExactlyOnce(n, Queued(ep, admitted, true), ph, h);
      if n in Class(pm, admitted) {
        ClassIsIds(pm, admitted, n);
      }
    }
  }

  /** Queueing keeps the order of a class, unless nodrop packets get in front of others of it. */
  lemma QueuedOrder(pm: bool, ep: Endpoint, ph: Option<Phase>, h: History, admitted: seq<TxPacket>, nodrop: bool)
    requires InOrder(pm, ep, ph, h) && forall x :: ExactlyOnce(x, Queued(ep, admitted, nodrop), ph, h)
    ensures InOrder(pm, Queued(ep, admitted, nodrop), ph, Accepted(h, ep.txQueue, admitted, nodrop))
  {
    var x, q, a := Class(pm, admitted), Class(pm, ep.txQueue), Class(pm, h.accepted);
    var p := Class(pm, h.handed) + Class(pm, InSend(ph)) + Class(pm, InHand(ph));
    ClassConcat(pm, h.accepted, admitted);
    if nodrop {
      ClassConcat(pm, admitted, ep.txQueue);
      NodropOvertakes(pm, ep, ph, h, admitted);
      InFront(p, x, q, a);
    } else {
      ClassConcat(pm, ep.txQueue, admitted);
      BehindAll(p, q, x, a);
    }
  }

  lemma SendOrder(pm: bool, ep: Endpoint, phase: Phase, h: History, e: Event)
    requires CanSend(phase, e) && InOrder(pm, ep, Some(phase), h)
    ensures var r := SendStep(ep, phase, h, e); InOrder(pm, r.ep, ThreadPhase(r.mine), r.h)
  {
    match e
    case Record(t) => RecordOrder(pm, ep, phase, h, e);
    case HifAccepts(t) => HifAcceptsOrder(pm, ep, phase, h, e);
    case HifRefuses(t) => HifRefusesOrder(pm, ep, phase, h, e);
  }

  lemma HifAcceptsOrder(pm: bool, ep: Endpoint, phase: Phase, h: History, e: Event)
    requires CanSend(phase, e) && e.HifAccepts? && InOrder(pm, ep, Some(phase), h)
    ensures var r := SendStep(ep, phase, h, e); InOrder(pm, r.ep, ThreadPhase(r.mine), r.h)
  {
    ClassConcat(pm, h.handed, [phase.packet]);
    ShiftOut(Class(pm, h.handed), Class(pm, [phase.packet]), Class(pm, phase.queue), Class(pm, ep.txQueue));
  }

  /** The line is the same whether HIF works on a packet or the drainer still holds it. */
  lemma LineHolds(pm: bool, ep: Endpoint, p: TxPacket, rest: seq<TxPacket>, h: History)
    ensures InLine(pm, ep, Some(Issuing([p] + rest)), h) == InLine(pm, ep, Some(Sending(p, rest)), h)
    ensures InLine(pm, ep, Some(Failed([p] + rest, true)), h) == InLine(pm, ep, Some(Sending(p, rest)), h)
  {
    ClassConcat(pm, [p], rest);
    Shift(Class(pm, h.handed), Class(pm, [p]), Class(pm, rest), Class(pm, ep.txQueue));
  }

  lemma RecordOrder(pm: bool, ep: Endpoint, phase: Phase, h: History, e: Event)
    requires CanSend(phase, e) && e.Record? && InOrder(pm, ep, Some(phase), h)
    ensures var r := SendStep(ep, phase, h, e); InOrder(pm, r.ep, ThreadPhase(r.mine), r.h)
  {
    var p, rest := phase.queue[0], phase.queue[1..];
    assert phase == Issuing([p] + rest);
    LineHolds(pm, ep, p, rest, h);
    assert InLine(pm, RecordSend(ep, p), Some(Sending(p, rest)), h) == InLine(pm, ep, Some(Sending(p, rest)), h);
  }

  lemma HifRefusesOrder(pm: bool, ep: Endpoint, phase: Phase, h: History, e: Event)
    requires CanSend(phase, e) && e.HifRefuses? && InOrder(pm, ep, Some(phase), h)
    ensures var r := SendStep(ep, phase, h, e); InOrder(pm, r.ep, ThreadPhase(r.mine), r.h)
  {
    var held := [phase.packet] + phase.queue;
    LineHolds(pm, ep, phase.packet, phase.queue, h);
    assert InLine(pm, TakeBack(ep, held), Some(Failed(held, true)), h) == InLine(pm, ep, Some(Failed(held, true)), h);
  }

  /** A lost packet is missing from its class, and its class alone. */
  lemma LostOrder(pm: bool, ep: Endpoint, phase: Phase, h: History, e: Event)
    requires CanFail(phase, e) && e.IssueFails? && e.error == HeaderMissing && InOrder(pm, ep, Some(phase), h)
    ensures var r := FailStep(ep, phase, h, e); InOrder(pm, r.ep, ThreadPhase(r.mine), r.h)
  {
    var q := phase.queue;
    ClassConcat(pm, [q[0]], q[1..]);
    assert q == [q[0]] + q[1..];
    assert |Class(pm, q)| == |Class(pm, [q[0]])| + |Class(pm, q[1..])|;
    assert Class(pm, [q[0]]) == [] ==> Class(pm, q) == Class(pm, q[1..]);
  }

  lemma FailOrder(pm: bool, ep: Endpoint, phase: Phase, h: History, e: Event)
    requires CanFail(phase, e) && InOrder(pm, ep, Some(phase), h)
    ensures var r := FailStep(ep, phase, h, e); InOrder(pm, r.ep, ThreadPhase(r.mine), r.h)
  {
    if e.PutBack? {
      ClassConcat(pm, phase.queue, ep.txQueue);
      ShiftBack(Class(pm, h.handed), Class(pm, phase.queue), Class(pm, ep.txQueue));
    } else if e.error == HeaderMissing {
      LostOrder(pm, ep, phase, h, e);
    }
  }

  lemma OutsideOrder(pm: bool, ep: Endpoint, ph: Option<Phase>, h: History, e: Event)
    requires !OfDrainer(e) && !e.TrySend? && !e.TrySendNull? && InOrder(pm, ep, ph, h)
    ensures InOrder(pm, OutsideStep(ep, h, e).ep, ph, OutsideStep(ep, h, e).h)
  {
    if e.FlushTxQueue? {
      assert |InLine(pm, ep, ph, h)| == |InLine(pm, OutsideStep(ep, h, e).ep, ph, h)| + |Class(pm, ep.txQueue)|;
      assert Class(pm, ep.txQueue) == [] ==> InLine(pm, OutsideStep(ep, h, e).ep, ph, h) == InLine(pm, ep, ph, h);
    }
  }

  // ---------- asking for credits ----------

  lemma {:induction false} FlagsTellMore(cfg: EndpointConfig, q: seq<TxPacket>, left: int, left': int)
    requires FlagsTell(cfg, q, left) && left <= left'
    ensures FlagsTell(cfg, q, left')
  {
    if q != [] {
      FlagsTellMore(cfg, q[1..], left, left');
    }
  }

  lemma {:induction false} FlagsExactTell(cfg: EndpointConfig, q: seq<TxPacket>, left: int)
    requires FlagsExact(cfg, q, left)
    ensures FlagsTell(cfg, q, left)
  {
    if q != [] {
      FlagsExactTell(cfg, q[1..], left);
    }
  }

  /** What one drain pass takes tells of the credits it leaves. */
  lemma DrainTopFlags(cfg: EndpointConfig, ep: Endpoint, env: DrainEnv)
    requires cfg.Valid() && ep.credits >= 0 && cfg.creditFlow && !cfg.isEndpoint0
    ensures var g := DrainTop(cfg, ep, env); FlagsTell(cfg, g.taken, g.ep.credits)
  {
    if ep.txQueue != [] {
      var pm := Extracted(cfg, ep.txQueue);
      GrabFlags(cfg, if pm == [] then ep.txQueue else pm, ep.credits, pm == [], env.pmGood);
      var g := DrainTop(cfg, ep, env);
      FlagsExactTell(cfg, g.taken, g.ep.credits);
    }
  }

  lemma ResumeSignals(cfg: EndpointConfig, ep: Endpoint, g: Got, h: History, t: nat)
    requires FlagsTell(cfg, g.taken, g.ep.credits) && g.ep.credits + Cost(g.taken) == ep.credits
    requires Signalled(cfg, ep, None, h)
    ensures var r := Resume(t, g, h); Signalled(cfg, r.ep, ThreadPhase(r.mine), r.h)
  {
    assert [] + g.taken == g.taken;
  }

  lemma PassSignals(cfg: EndpointConfig, ep: Endpoint, h: History, t: nat, env: DrainEnv)
    requires cfg.Valid() && ep.credits >= 0 && Signalled(cfg, ep, None, h)
    ensures var r := Pass(cfg, ep, h, t, env); Signalled(cfg, r.ep, ThreadPhase(r.mine), r.h)
  {
    DrainTopCredits(cfg, ep, env);
    if cfg.creditFlow && !cfg.isEndpoint0 {
      DrainTopFlags(cfg, ep, env);
      ResumeSignals(cfg, ep, DrainTop(cfg, ep, env), h, t);
    }
  }

  lemma SendSignals(cfg: EndpointConfig, ep: Endpoint, phase: Phase, h: History, e: Event)
    requires CanSend(phase, e) && Signalled(cfg, ep, Some(phase), h)
    ensures var r := SendStep(ep, phase, h, e); Signalled(cfg, r.ep, ThreadPhase(r.mine), r.h)
  {
    match e
    case Record(t) => RecordSignals(cfg, ep, phase, h, e);
    case HifAccepts(t) => HifAcceptsSignals(cfg, ep, phase, h, e);
    case HifRefuses(t) => HifRefusesSignals(cfg, ep, phase, h, e);
  }

  lemma RecordSignals(cfg: EndpointConfig, ep: Endpoint, phase: Phase, h: History, e: Event)
    requires CanSend(phase, e) && e.Record? && Signalled(cfg, ep, Some(phase), h)
    ensures var r := SendStep(ep, phase, h, e); Signalled(cfg, r.ep, ThreadPhase(r.mine), r.h)
  {
    var q := phase.queue;
    assert [] + q == q == [q[0]] + q[1..];
    assert Cost([q[0]]) == q[0].creditsUsed;
  }

  lemma HifAcceptsSignals(cfg: EndpointConfig, ep: Endpoint, phase: Phase, h: History, e: Event)
    requires CanSend(phase, e) && e.HifAccepts? && Signalled(cfg, ep, Some(phase), h)
    ensures var r := SendStep(ep, phase, h, e); Signalled(cfg, r.ep, ThreadPhase(r.mine), r.h)
  {
    var q := phase.queue;
    assert [] + q == q && ([phase.packet] + q)[1..] == q;
  }

  lemma HifRefusesSignals(cfg: EndpointConfig, ep: Endpoint, phase: Phase, h: History, e: Event)
    requires CanSend(phase, e) && e.HifRefuses? && Signalled(cfg, ep, Some(phase), h)
    ensures var r := SendStep(ep, phase, h, e); Signalled(cfg, r.ep, ThreadPhase(r.mine), r.h)
  {
    CostConcat([phase.packet], phase.queue);
  }

  lemma FailSignals(cfg: EndpointConfig, ep: Endpoint, phase: Phase, h: History, e: Event)
    requires CanFail(phase, e) && Signalled(cfg, ep, Some(phase), h)
    ensures var r := FailStep(ep, phase, h, e); Signalled(cfg, r.ep, ThreadPhase(r.mine), r.h)
  {
  }

  lemma OutsideSignals(cfg: EndpointConfig, ep: Endpoint, ph: Option<Phase>, h: History, e: Event)
    requires !OfDrainer(e) && !e.TrySend? && !e.TrySendNull?
    requires Signalled(cfg, ep, ph, h)
    ensures Signalled(cfg, OutsideStep(ep, h, e).ep, ph, OutsideStep(ep, h, e).h)
  {
    if e.CreditReport? && cfg.creditFlow && !cfg.isEndpoint0 && ph.Some? && !ph.value.Failed? {
      FlagsTellMore(cfg, InSend(ph) + InHand(ph), ep.credits, ep.credits + e.credits);
    }
  }

  // ---------- runtime PM ----------

  lemma {:induction false} PmDueWithout(q: seq<TxPacket>, netbuf: nat)
    ensures var k := Find(q, netbuf);
      PmDue(q) == PmDue(Without(q, netbuf)) + if k < |q| && q[k].tag != AutoPm then 1 else 0
  {
    if q != [] && q[0].netbuf != netbuf {
      PmDueWithout(q[1..], netbuf);
      assert Without(q, netbuf)[1..] == Without(q[1..], netbuf);
    }
  }

  lemma {:induction false} MemberCounts(q: seq<TxPacket>, p: TxPacket)
    requires p in q
    ensures p.netbuf in Ids(q)
  {
    if q[0] != p {
      MemberCounts(q[1..], p);
    }
  }

  /** A netbuf that occurs once leads to its packet. */
  lemma {:induction false} FindMember(q: seq<TxPacket>, p: TxPacket)
    requires p in q && Ids(q)[p.netbuf] <= 1
    ensures Find(q, p.netbuf) < |q| && q[Find(q, p.netbuf)] == p
  {
    if q[0] == p {
    } else if q[0].netbuf == p.netbuf {
      MemberCounts(q[1..], p);
    } else {
      FindMember(q[1..], p);
    }
  }

  lemma DrainTopPm(cfg: EndpointConfig, ep: Endpoint, env: DrainEnv)
    requires cfg.Valid() && ep.credits >= 0
    requires !cfg.isWmiControl ==> Pm(ep.txQueue) == []
    ensures var g := DrainTop(cfg, ep, env);
      && g.ep.pmRefs == ep.pmRefs + PmDue(g.taken)
      && (!cfg.isWmiControl ==> Pm(g.taken) == [] && Pm(g.ep.txQueue) == [])
  {
    if ep.txQueue != [] {
      var pm := Extracted(cfg, ep.txQueue);
      var source := if pm == [] then ep.txQueue else pm;
      GrabTakesPrefix(cfg, source, ep.credits, pm == [], env.pmGood);
      GrabByResourceTakesPrefix(source, env.resources, pm == [], env.pmGood);
      var g := if cfg.creditFlow then Grab(cfg, source, ep.credits, pm == [], env.pmGood)
               else GrabByResource(source, env.resources, pm == [], env.pmGood);
      PmSplitTwice(ep.txQueue);
      DequeuedByTag(source, g.taken, g.rest);
      PmDueSplit(g.taken);
    }
  }

  lemma PassPm(cfg: EndpointConfig, ep: Endpoint, h: History, t: nat, env: DrainEnv)
    requires cfg.Valid() && ep.credits >= 0 && PmBalanced(cfg, ep, None, h)
    ensures var r := Pass(cfg, ep, h, t, env); PmBalanced(cfg, r.ep, ThreadPhase(r.mine), r.h)
  {
    DrainTopPm(cfg, ep, env);
    DrainTopCredits(cfg, ep, env);
  }

  lemma SendPm(cfg: EndpointConfig, ep: Endpoint, phase: Phase, h: History, e: Event)
    requires CanSend(phase, e) && PmBalanced(cfg, ep, Some(phase), h)
    requires phase.Sending? ==> phase.packet in ep.lookup && Ids(ep.lookup)[phase.packet.netbuf] <= 1
    ensures var r := SendStep(ep, phase, h, e); PmBalanced(cfg, r.ep, ThreadPhase(r.mine), r.h)
  {
    var q := phase.queue;
    match e
    case Record(t) =>
      PmDueConcat(ep.lookup, [q[0]]);
      PmDueConcat([q[0]], q[1..]);
      PmConcat([q[0]], q[1..]);
      assert q == [q[0]] + q[1..];
    case HifAccepts(t) =>
    case HifRefuses(t) =>
      FindMember(ep.lookup, phase.packet);
      PmDueWithout(ep.lookup, phase.packet.netbuf);
      PmConcat([phase.packet], q);
      PmDueConcat([phase.packet], q);
  }

  lemma FailPm(cfg: EndpointConfig, ep: Endpoint, phase: Phase, h: History, e: Event)
    requires CanFail(phase, e) && PmBalanced(cfg, ep, Some(phase), h)
    ensures var r := FailStep(ep, phase, h, e); PmBalanced(cfg, r.ep, ThreadPhase(r.mine), r.h)
  {
    var q := phase.queue;
    if e.PutBack? {
      PmConcat(q, ep.txQueue);
      PmDueSplit(q);
    } else if e.error == HeaderMissing {
      PmDueConcat([q[0]], q[1..]);
      PmConcat([q[0]], q[1..]);
      assert q == [q[0]] + q[1..];
    }
  }

  lemma OutsidePm(cfg: EndpointConfig, ep: Endpoint, ph: Option<Phase>, h: History, e: Event)
    requires !OfDrainer(e) && !e.TrySend? && !e.TrySendNull?
    requires PmBalanced(cfg, ep, ph, h)
    ensures PmBalanced(cfg, OutsideStep(ep, h, e).ep, ph, OutsideStep(ep, h, e).h)
  {
    if e.HifCompletes? {
      PmDueWithout(ep.lookup, e.netbuf);
    }
  }

  // ---------- lost wakeups ----------

  lemma PassDrains(cfg: EndpointConfig, ep: Endpoint, h: History, t: nat, env: DrainEnv)
    requires cfg.Valid() && ep.credits >= 0
    ensures var r := Pass(cfg, ep, h, t, env); r.mine.None? ==> Drained(cfg, r.ep, r.h)
  {
    if ep.txQueue != [] && cfg.creditFlow {
      var pm := Extracted(cfg, ep.txQueue);
      var source := if pm == [] then ep.txQueue else pm;
      GrabTakesPrefix(cfg, source, ep.credits, pm == [], env.pmGood);
    }
  }

  // ---------- all invariants together ----------

  lemma {:induction false} KeptPm(q: seq<TxPacket>, keep: set<nat>)
    requires Pm(q) == []
    ensures Pm(Kept(q, keep)) == []
  {
    if q != [] {
      KeptPm(q[1..], keep);
      assert Kept(q, keep) != Kept(q[1..], keep) ==> Kept(q, keep)[1..] == Kept(q[1..], keep);
    }
  }

  lemma AdmittedPm(cfg: EndpointConfig, offered: seq<TxPacket>, depth1: nat, depth2: nat, keep: set<nat>)
    requires Pm(offered) == []
    ensures Pm(Admit(cfg, offered, depth1, depth2, keep).admitted) == []
  {
    var room := Room(cfg, |offered|, depth1, depth2);
    assert offered == offered[..room] + offered[room..];
    PmConcat(offered[..room], offered[room..]);
    PmConcat(offered[..room], Kept(offered[room..], keep));
    KeptPm(offered[room..], keep);
  }

  /** Queueing accepted packets keeps the invariants; `h` already counts the offer. */
  lemma QueuedCore(cfg: EndpointConfig, initial: nat, ep: Endpoint, ph: Option<Phase>, h0: History, h: History,
                   admitted: seq<TxPacket>, nodrop: bool)
    requires CoreInv(cfg, initial, ep, ph, h0)
    requires h == h0.(offered := h.offered, refused := h.refused)
    requires forall x :: ExactlyOnce(x, Queued(ep, admitted, nodrop), ph, h)
    requires !cfg.isWmiControl ==> Pm(admitted) == []
    ensures CoreInv(cfg, initial, Queued(ep, admitted, nodrop), ph, Accepted(h, ep.txQueue, admitted, nodrop))
  {
    var queued, h' := Queued(ep, admitted, nodrop), Accepted(h, ep.txQueue, admitted, nodrop);
    forall x ensures ExactlyOnce(x, queued, ph, h') && LookupFollowsHif(x, queued, ph, h') {
      assert ExactlyOnce(x, queued, ph, h) && LookupFollowsHif(x, ep, ph, h0);
    }
    assert InOrder(true, ep, ph, h) && InOrder(false, ep, ph, h);
    QueuedOrder(true, ep, ph, h, admitted, nodrop);
    QueuedOrder(false, ep, ph, h, admitted, nodrop);
    PmConcat(ep.txQueue, admitted);
    PmConcat(admitted, ep.txQueue);
  }

  lemma AttemptIdle(cfg: EndpointConfig, initial: nat, ep: Endpoint, h: History, t: nat, admitted: seq<TxPacket>,
                    nodrop: bool, env: DrainEnv)
    requires cfg.Valid() && CountsDrainer(ep, None)
    requires CoreInv(cfg, initial, Queued(ep, admitted, nodrop), None, Accepted(h, ep.txQueue, admitted, nodrop))
    ensures var r := Attempt(cfg, ep, h, t, admitted, nodrop, env);
      && CoreInv(cfg, initial, r.ep, ThreadPhase(r.mine), r.h)
      && (r.mine.None? ==> Drained(cfg, r.ep, r.h))
  {
    var queued, h' := Queued(ep, admitted, nodrop), Accepted(h, ep.txQueue, admitted, nodrop);
    PassCore(cfg, initial, queued, h', t, env);
    AttemptIsPass(cfg, ep, h, t, admitted, nodrop, env);
  }

  lemma AttemptIsPass(cfg: EndpointConfig, ep: Endpoint, h: History, t: nat, admitted: seq<TxPacket>, nodrop: bool,
                      env: DrainEnv)
    requires cfg.Valid() && CountsDrainer(ep, None)
    ensures Attempt(cfg, ep, h, t, admitted, nodrop, env)
            == Pass(cfg, Queued(ep, admitted, nodrop), Accepted(h, ep.txQueue, admitted, nodrop), t, env)
  {
  }

  lemma AttemptIsBusy(cfg: EndpointConfig, ep: Endpoint, ph: Option<Phase>, h: History, t: nat,
                      admitted: seq<TxPacket>, nodrop: bool, env: DrainEnv)
    requires cfg.Valid() && CountsDrainer(ep, ph) && ph.Some?
    ensures var queued := Queued(ep, admitted, nodrop);
      Attempt(cfg, ep, h, t, admitted, nodrop, env)
      == Outcome(queued.(processCount := queued.processCount - 1), None, Accepted(h, ep.txQueue, admitted, nodrop))
  {
  }

  /** The first lock region of htc_try_send: a pass over the longer queue, or none if someone else
      drains. */
  lemma AttemptCore(cfg: EndpointConfig, initial: nat, ep: Endpoint, ph: Option<Phase>, h0: History, h: History,
                    t: nat, admitted: seq<TxPacket>, nodrop: bool, env: DrainEnv)
    requires cfg.Valid() && CountsDrainer(ep, ph)
    requires CoreInv(cfg, initial, ep, ph, h0)
    requires h == h0.(offered := h.offered, refused := h.refused)
    requires forall x :: ExactlyOnce(x, Queued(ep, admitted, nodrop), ph, h)
    requires !cfg.isWmiControl ==> Pm(admitted) == []
    ensures var r := Attempt(cfg, ep, h, t, admitted, nodrop, env);
      && CoreInv(cfg, initial, r.ep, PhaseEntered(ph, r), r.h)
      && (ph.None? && r.mine.None? ==> Drained(cfg, r.ep, r.h))
  {
    var queued, h' := Queued(ep, admitted, nodrop), Accepted(h, ep.txQueue, admitted, nodrop);
    QueuedCore(cfg, initial, ep, ph, h0, h, admitted, nodrop);
    if ph.None? {
      AttemptIdle(cfg, initial, ep, h, t, admitted, nodrop, env);
    } else {
      SameCore(cfg, initial, queued, queued.(processCount := queued.processCount - 1), ph, h');
      AttemptIsBusy(cfg, ep, ph, h, t, admitted, nodrop, env);
    }
  }

  /** The count of drainers is no part of the core. */
  lemma SameCore(cfg: EndpointConfig, initial: nat, ep: Endpoint, ep': Endpoint, ph: Option<Phase>, h: History)
    requires CoreInv(cfg, initial, ep, ph, h) && ep' == ep.(processCount := ep'.processCount)
    ensures CoreInv(cfg, initial, ep', ph, h)
  {
    forall x ensures ExactlyOnce(x, ep', ph, h) && LookupFollowsHif(x, ep', ph, h) {
      assert ExactlyOnce(x, ep, ph, h) && LookupFollowsHif(x, ep, ph, h);
    }
  }

  /** Queueing nothing moves no packet. */
  lemma QueuedNone(ep: Endpoint, ph: Option<Phase>, h: History, nodrop: bool)
    ensures forall x :: ExactlyOnce(x, ep, ph, h) <==> ExactlyOnce(x, Queued(ep, [], nodrop), ph, h)
  {
    assert ep.txQueue + [] == ep.txQueue == [] + ep.txQueue;
  }

  lemma DropCore(cfg: EndpointConfig, initial: nat, ep: Endpoint, ph: Option<Phase>, h: History,
                 offered: seq<TxPacket>, leftover: seq<TxPacket>)
    requires CoreInv(cfg, initial, ep, ph, h)
    requires forall x :: ExactlyOnce(x, ep, ph, Offered(h, offered, leftover))
    ensures CoreInv(cfg, initial, ep, ph, Offered(h, offered, leftover))
  {
    forall x ensures LookupFollowsHif(x, ep, ph, Offered(h, offered, leftover)) {
      assert LookupFollowsHif(x, ep, ph, h);
    }
  }

  lemma EnterCore(cfg: EndpointConfig, initial: nat, ep: Endpoint, ph: Option<Phase>, h: History, e: Event)
    requires cfg.Valid() && CountsDrainer(ep, ph) && CoreInv(cfg, initial, ep, ph, h)
    requires (e.TrySend? && Fresh(cfg, h, e.offered)) || e.TrySendNull?
    ensures var r := EnterStep(cfg, ep, h, e);
      && CoreInv(cfg, initial, r.ep, PhaseEntered(ph, r), r.h)
      && (ph.None? && r.mine.None? ==>
            Drained(cfg, r.ep, r.h) || (e.TrySend? && r.ep == ep && r.h.stalled == h.stalled))
  {
    match e
    case TrySend(t, offered, depth1, depth2, keep, nodrop, env) =>
      var a := Admit(cfg, offered, depth1, depth2, keep);
      OfferedOnce(cfg, ep, ph, h, offered, a, depth1, depth2, keep, nodrop);
      if a.drop {
        QueuedNone(ep, ph, Offered(h, offered, a.leftover), nodrop);
        DropCore(cfg, initial, ep, ph, h, offered, a.leftover);
      } else {
        if !cfg.isWmiControl {
          AdmittedPm(cfg, offered, depth1, depth2, keep);
        }
        AttemptCore(cfg, initial, ep, ph, h, Offered(h, offered, a.leftover), t, a.admitted, nodrop, env);
      }
    case TrySendNull(t, env) =>
      QueuedNone(ep, ph, h, false);
      AttemptCore(cfg, initial, ep, ph, h, h, t, [], false, env);
  }

  lemma OfferedOnceAt(x: nat, ep: Endpoint, ph: Option<Phase>, h: History, offered: seq<TxPacket>,
                      admitted: seq<TxPacket>, leftover: seq<TxPacket>, nodrop: bool)
    requires ExactlyOnce(x, ep, ph, h) && Ids(admitted)[x] + Ids(leftover)[x] == Ids(offered)[x] <= 1
    requires Ids(offered)[x] == 1 ==> Free(h, x)
    ensures ExactlyOnce(x, Queued(ep, admitted, nodrop), ph, Offered(h, offered, leftover))
  {
    IdsConcat(ep.txQueue, admitted);
    IdsConcat(admitted, ep.txQueue);
    var queued, h' := Queued(ep, admitted, nodrop), Offered(h, offered, leftover);
    assert Held(x, queued, ph) == Held(x, ep, ph) + Ids(admitted)[x];
    assert GivenBack(h', x) == GivenBack(h, x) + Ids(leftover)[x];
  }

  lemma OfferedOnce(cfg: EndpointConfig, ep: Endpoint, ph: Option<Phase>, h: History, offered: seq<TxPacket>,
                    a: Admission, depth1: nat, depth2: nat, keep: set<nat>, nodrop: bool)
    requires a == Admit(cfg, offered, depth1, depth2, keep) && Fresh(cfg, h, offered)
    requires forall x :: ExactlyOnce(x, ep, ph, h)
    ensures forall x :: ExactlyOnce(x, Queued(ep, a.admitted, nodrop), ph, Offered(h, offered, a.leftover))
  {
    AdmitSplits(cfg, offered, depth1, depth2, keep);
    forall x ensures ExactlyOnce(x, Queued(ep, a.admitted, nodrop), ph, Offered(h, offered, a.leftover)) {
      assert ExactlyOnce(x, ep, ph, h);
      assert (Ids(a.admitted) + Ids(a.leftover))[x] == Ids(offered)[x];
      OfferedOnceAt(x, ep, ph, h, offered, a.admitted, a.leftover, nodrop);
    }
  }

  lemma PassCore(cfg: EndpointConfig, initial: nat, ep: Endpoint, h: History, t: nat, env: DrainEnv)
    requires cfg.Valid() && CoreInv(cfg, initial, ep, None, h)
    ensures var r := Pass(cfg, ep, h, t, env);
      && CoreInv(cfg, initial, r.ep, ThreadPhase(r.mine), r.h)
      && (r.mine.None? ==> Drained(cfg, r.ep, r.h))
  {
    var r := Pass(cfg, ep, h, t, env);
    PassCredits(cfg, initial, ep, h, t, env);
    forall x ensures ExactlyOnce(x, r.ep, ThreadPhase(r.mine), r.h) {
      PassOnce(x, cfg, ep, h, t, env);
    }
    PassHif(0, cfg, ep, h, t, env);
    forall x ensures LookupFollowsHif(x, r.ep, ThreadPhase(r.mine), r.h) {
      PassHif(x, cfg, ep, h, t, env);
    }
    PassOrder(true, cfg, ep, h, t, env);
    PassOrder(false, cfg, ep, h, t, env);
    PassSignals(cfg, ep, h, t, env);
    PassPm(cfg, ep, h, t, env);
    PassDrains(cfg, ep, h, t, env);
  }

  lemma SendCore(cfg: EndpointConfig, initial: nat, ep: Endpoint, phase: Phase, h: History, e: Event)
    requires CanSend(phase, e) && CoreInv(cfg, initial, ep, Some(phase), h)
    ensures var r := SendStep(ep, phase, h, e); CoreInv(cfg, initial, r.ep, ThreadPhase(r.mine), r.h)
  {
    var r := SendStep(ep, phase, h, e);
    if phase.Sending? {
      SendingNotInHif(ep, Some(phase), h);
      MemberCounts(ep.lookup, phase.packet);
    }
    SendCredits(initial, ep, phase, h, e);
    forall x ensures ExactlyOnce(x, r.ep, ThreadPhase(r.mine), r.h) {
      SendOnce(x, ep, phase, h, e);
    }
    forall x ensures LookupFollowsHif(x, r.ep, ThreadPhase(r.mine), r.h) {
      SendHif(x, ep, phase, h, e);
    }
    SendOutstanding(ep, phase, h, e);
    SendOrder(true, ep, phase, h, e);
    SendOrder(false, ep, phase, h, e);
    SendSignals(cfg, ep, phase, h, e);
    SendPm(cfg, ep, phase, h, e);
  }

  lemma FailCore(cfg: EndpointConfig, initial: nat, ep: Endpoint, phase: Phase, h: History, e: Event)
    requires CanFail(phase, e) && CoreInv(cfg, initial, ep, Some(phase), h)
    ensures var r := FailStep(ep, phase, h, e); CoreInv(cfg, initial, r.ep, ThreadPhase(r.mine), r.h)
  {
    var r := FailStep(ep, phase, h, e);
    FailCredits(initial, ep, phase, h, e);
    forall x ensures ExactlyOnce(x, r.ep, ThreadPhase(r.mine), r.h) {
      FailOnce(x, ep, phase, h, e);
    }
    forall x
      ensures LookupFollowsHif(x, r.ep, ThreadPhase(r.mine), r.h)
      ensures OutstandingExact(r.ep, ThreadPhase(r.mine), r.h)
    {
      FailHif(x, ep, phase, h, e);
    }
    FailOrder(true, ep, phase, h, e);
    FailOrder(false, ep, phase, h, e);
    FailSignals(cfg, ep, phase, h, e);
    FailPm(cfg, ep, phase, h, e);
  }

  lemma OutsideCore(cfg: EndpointConfig, initial: nat, ep: Endpoint, ph: Option<Phase>, h: History, e: Event)
    requires !OfDrainer(e) && !e.TrySend? && !e.TrySendNull? && CoreInv(cfg, initial, ep, ph, h)
    requires e.HifCompletes? ==> e.netbuf in h.inHif
    requires e.FlushLookupQueue? ==> ph.None?
    ensures var r := OutsideStep(ep, h, e); CoreInv(cfg, initial, r.ep, ph, r.h)
  {
    var r := OutsideStep(ep, h, e);
    if ph.Some? && ph.value.Sending? {
      SendingNotInHif(ep, ph, h);
    }
    OutsideCredits(initial, ep, ph, h, e);
    forall x ensures ExactlyOnce(x, r.ep, ph, r.h) {
      OutsideOnce(x, ep, ph, h, e);
    }
    forall x ensures LookupFollowsHif(x, r.ep, ph, r.h) {
      OutsideHif(x, ep, ph, h, e);
    }
    OutsideOutstanding(ep, ph, h, e);
    OutsideOrder(true, ep, ph, h, e);
    OutsideOrder(false, ep, ph, h, e);
    OutsideSignals(cfg, ep, ph, h, e);
    OutsidePm(cfg, ep, ph, h, e);
  }

  // ---------- the threads ----------

  lemma DrainerIsTheDrainer(cfg: EndpointConfig, s: System, e: Event)
    requires cfg.Valid() && SingleDrainer(s) && Enabled(cfg, s, e) && OfDrainer(e)
    ensures PhaseOf(s) == Some(Mine(s, e).value.phase) && s.hist.drainer == Some(e.t)
  {
  }

  lemma DrainerThreads(cfg: EndpointConfig, s: System, e: Event)
    requires cfg.Valid() && SingleDrainer(s) && Enabled(cfg, s, e) && OfDrainer(e)
    ensures var r := DrainerStep(cfg, s.ep, Mine(s, e).value.phase, s.hist, e);
      SingleDrainer(Next(cfg, s, e)) && PhaseOf(Next(cfg, s, e)) == ThreadPhase(r.mine)
  {
    DrainerIsTheDrainer(cfg, s, e);
    DrainerCount(cfg, s.ep, Mine(s, e).value.phase, s.hist, e);
    var r := DrainerStep(cfg, s.ep, Mine(s, e).value.phase, s.hist, e);
    assert Next(cfg, s, e) == System(r.ep, Place(s.threads, e, r.mine), r.h);
    var threads' := Place(s.threads, e, r.mine);
    assert forall u | u in threads' && u != e.t :: u in s.threads && threads'[u] == s.threads[u];
  }

  /** A thread that entered either became the drainer or left. */
  lemma EnteredThreads(s: System, t: nat, r: Outcome, s': System)
    requires SingleDrainer(s) && (t in s.threads ==> s.threads[t].Kick?)
    requires s' == System(r.ep, if r.mine.Some? then s.threads[t := r.mine.value] else s.threads - {t}, r.h)
    requires CountsDrainer(r.ep, PhaseEntered(PhaseOf(s), r))
    requires r.mine.Some? ==> r.mine.value.Drain? && PhaseOf(s).None? && r.h.drainer == Some(t)
    requires r.mine.None? ==> r.h.drainer == s.hist.drainer || (r.h.drainer.None? && PhaseOf(s).None?)
    ensures SingleDrainer(s') && PhaseOf(s') == PhaseEntered(PhaseOf(s), r)
  {
    assert forall u | u in s'.threads && u != t :: u in s.threads && s'.threads[u] == s.threads[u];
  }

  lemma EnterThreads(cfg: EndpointConfig, s: System, e: Event)
    requires cfg.Valid() && SingleDrainer(s) && Enabled(cfg, s, e) && (e.TrySend? || e.TrySendNull?)
    ensures var r := EnterStep(cfg, s.ep, s.hist, e);
      SingleDrainer(Next(cfg, s, e)) && PhaseOf(Next(cfg, s, e)) == PhaseEntered(PhaseOf(s), r)
  {
    EnterCount(cfg, s.ep, PhaseOf(s), s.hist, e);
    EnteredThreads(s, e.t, EnterStep(cfg, s.ep, s.hist, e), Next(cfg, s, e));
  }

  lemma OutsideThreads(cfg: EndpointConfig, s: System, e: Event)
    requires cfg.Valid() && SingleDrainer(s) && Enabled(cfg, s, e) && !OfDrainer(e) && !e.TrySend? && !e.TrySendNull?
    ensures SingleDrainer(Next(cfg, s, e)) && PhaseOf(Next(cfg, s, e)) == PhaseOf(s)
    ensures e.FlushLookupQueue? ==> PhaseOf(s).None?
  {
    OutsideCount(s.ep, PhaseOf(s), s.hist, e);
    var r := OutsideStep(s.ep, s.hist, e);
    assert Next(cfg, s, e) == System(r.ep, Place(s.threads, e, r.mine), r.h);
    var threads' := Place(s.threads, e, r.mine);
    assert forall u | u in threads' && ThreadOf(e) != Some(u) :: u in s.threads && threads'[u] == s.threads[u];
  }

  lemma OutsideDrained(cfg: EndpointConfig, initial: nat, s: System, e: Event)
    requires cfg.Valid() && Inv(cfg, initial, s) && Enabled(cfg, s, e)
    requires !OfDrainer(e) && !e.TrySend? && !e.TrySendNull?
    requires PhaseOf(s).None? && !Kicking(Next(cfg, s, e))
    ensures Drained(cfg, Next(cfg, s, e).ep, Next(cfg, s, e).hist)
  {
    var r := OutsideStep(s.ep, s.hist, e);
    var s' := Next(cfg, s, e);
    assert s' == System(r.ep, Place(s.threads, e, r.mine), r.h);
    assert s'.threads == s.threads;
    assert !Kicking(s);
  }

  /** A drainer with an empty queue holds nothing. */
  lemma EmptyHandedCore(cfg: EndpointConfig, initial: nat, ep: Endpoint, h: History)
    requires CoreInv(cfg, initial, ep, Some(Issuing([])), h)
    ensures CoreInv(cfg, initial, ep, None, h)
  {
    forall x ensures ExactlyOnce(x, ep, None, h) && LookupFollowsHif(x, ep, None, h) {
      assert ExactlyOnce(x, ep, Some(Issuing([])), h) && LookupFollowsHif(x, ep, Some(Issuing([])), h);
    }
  }

  lemma DrainerInv(cfg: EndpointConfig, initial: nat, s: System, e: Event)
    requires cfg.Valid() && Inv(cfg, initial, s) && Enabled(cfg, s, e) && OfDrainer(e)
    ensures Inv(cfg, initial, Next(cfg, s, e))
  {
    var phase := Mine(s, e).value.phase;
    DrainerIsTheDrainer(cfg, s, e);
    DrainerThreads(cfg, s, e);
    if e.Continue? {
      EmptyHandedCore(cfg, initial, s.ep, s.hist);
      PassCore(cfg, initial, s.ep, s.hist, e.t, e.env);
    } else if Failing(e) {
      FailCore(cfg, initial, s.ep, phase, s.hist, e);
    } else {
      SendCore(cfg, initial, s.ep, phase, s.hist, e);
    }
  }

  lemma NextEnters(cfg: EndpointConfig, s: System, e: Event)
    requires cfg.Valid() && Enabled(cfg, s, e) && (e.TrySend? || e.TrySendNull?)
    ensures var r := EnterStep(cfg, s.ep, s.hist, e);
      && Next(cfg, s, e)
         == System(r.ep, if r.mine.Some? then s.threads[e.t := r.mine.value] else s.threads - {e.t}, r.h)
      && (e.TrySend? ==> Fresh(cfg, s.hist, e.offered))
  {
  }

  lemma EnterInv(cfg: EndpointConfig, initial: nat, s: System, e: Event)
    requires cfg.Valid() && Inv(cfg, initial, s) && Enabled(cfg, s, e) && (e.TrySend? || e.TrySendNull?)
    ensures Inv(cfg, initial, Next(cfg, s, e))
  {
    EnterThreads(cfg, s, e);
    NextEnters(cfg, s, e);
    EnterCore(cfg, initial, s.ep, PhaseOf(s), s.hist, e);
    EnteredDrained(cfg, s, e.t, EnterStep(cfg, s.ep, s.hist, e), Next(cfg, s, e));
  }

  /** A thread that was refused left everything as it was; any other drained what it could. */
  lemma EnteredDrained(cfg: EndpointConfig, s: System, t: nat, r: Outcome, s': System)
    requires cfg.Valid() && SingleDrainer(s)
    requires s' == System(r.ep, if r.mine.Some? then s.threads[t := r.mine.value] else s.threads - {t}, r.h)
    requires PhaseOf(s') == PhaseEntered(PhaseOf(s), r)
    requires r.mine.Some? ==> r.mine.value.Drain?
    requires PhaseOf(s).None? && !Kicking(s) ==> Drained(cfg, s.ep, s.hist)
    requires PhaseOf(s).None? && r.mine.None? ==>
      Drained(cfg, r.ep, r.h) || (t !in s.threads && r.ep == s.ep && r.h.stalled == s.hist.stalled)
    ensures PhaseOf(s').None? && !Kicking(s') ==> Drained(cfg, s'.ep, s'.hist)
  {
    if PhaseOf(s').None? && !Drained(cfg, r.ep, r.h) {
      assert s'.threads == s.threads;
    }
  }

  /** Every event keeps every invariant, whatever the interleaving. */
  lemma InvStep(cfg: EndpointConfig, initial: nat, s: System, e: Event)
    requires cfg.Valid() && Inv(cfg, initial, s) && Enabled(cfg, s, e)
    ensures Inv(cfg, initial, Next(cfg, s, e))
  {
    if OfDrainer(e) {
      DrainerInv(cfg, initial, s, e);
    } else if e.TrySend? || e.TrySendNull? {
      EnterInv(cfg, initial, s, e);
    } else {
      OutsideThreads(cfg, s, e);
      OutsideCore(cfg, initial, s.ep, PhaseOf(s), s.hist, e);
      if PhaseOf(Next(cfg, s, e)).None? && !Kicking(Next(cfg, s, e)) {
        OutsideDrained(cfg, initial, s, e);
      }
    }
  }
}
