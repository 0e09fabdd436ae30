// What every run of the transmit engine has, for any interleaving of callers, credit
// reports, HIF answers and flushes.

module TxTheorems {
  import opened Common
  import opened TxTypes
  import opened TxSpec
  import opened TxEngine
  import opened TxInvariants

  /** Every event of the run can happen where it stands. */
  ghost predicate Legal(cfg: EndpointConfig, s: System, run: seq<Event>)
    requires cfg.Valid()
    decreases |run|, 0
  {
    run != [] ==>
      Legal(cfg, s, run[..|run| - 1]) && Enabled(cfg, Exec(cfg, s, run[..|run| - 1]), run[|run| - 1])
  }

  ghost function Exec(cfg: EndpointConfig, s: System, run: seq<Event>): System
    requires cfg.Valid() && Legal(cfg, s, run)
    decreases |run|, 1
  {
    if run == [] then s else Next(cfg, Exec(cfg, s, run[..|run| - 1]), run[|run| - 1])
  }

  lemma Snoc(cfg: EndpointConfig, s: System, run: seq<Event>, e: Event)
    requires cfg.Valid() && Legal(cfg, s, run) && Enabled(cfg, Exec(cfg, s, run), e)
    ensures Legal(cfg, s, run + [e]) && Exec(cfg, s, run + [e]) == Next(cfg, Exec(cfg, s, run), e)
  {
    assert (run + [e])[..|run|] == run;
  }

  /** The state a run from a freshly connected endpoint ends in. */
  ghost function After(cfg: EndpointConfig, initial: nat, run: seq<Event>): System
    requires cfg.Valid() && Legal(cfg, Init(initial), run)
  {
    Exec(cfg, Init(initial), run)
  }

  lemma {:induction false} ExecInv(cfg: EndpointConfig, initial: nat, s: System, run: seq<Event>)
    requires cfg.Valid() && Legal(cfg, s, run) && Inv(cfg, initial, s)
    ensures Inv(cfg, initial, Exec(cfg, s, run))
    decreases |run|
  {
    if run != [] {
      var front := run[..|run| - 1];
      ExecInv(cfg, initial, s, front);
      InvStep(cfg, initial, Exec(cfg, s, front), run[|run| - 1]);
    }
  }

  lemma RunInv(cfg: EndpointConfig, initial: nat, run: seq<Event>)
    requires cfg.Valid() && Legal(cfg, Init(initial), run)
    ensures Inv(cfg, initial, After(cfg, initial, run))
  {
    ExecInv(cfg, initial, Init(initial), run);
  }

  // ---------- mutual exclusion ----------

  function Drainers(s: System): set<nat> {
    set t | t in s.threads && s.threads[t].Drain?
  }

  /** TxProcessCount is the number of threads inside the drain section, and that is at most one. */
  lemma AtMostOneDrainer(cfg: EndpointConfig, initial: nat, run: seq<Event>)
    requires cfg.Valid() && Legal(cfg, Init(initial), run)
    ensures var s := After(cfg, initial, run); s.ep.processCount == |Drainers(s)| <= 1
  {
    RunInv(cfg, initial, run);
    var s := After(cfg, initial, run);
    if s.hist.drainer.Some? {
      assert Drainers(s) == {s.hist.drainer.value};
    } else {
      assert Drainers(s) == {};
    }
  }

  // ---------- credits ----------

  /** Every credit is on the endpoint, on a packet the drainer holds, on a packet HIF took, or
      leaked; the endpoint never owes credits. */
  lemma CreditsAreConserved(cfg: EndpointConfig, initial: nat, run: seq<Event>)
    requires cfg.Valid() && Legal(cfg, Init(initial), run)
    ensures var s := After(cfg, initial, run);
      && s.ep.credits >= 0
      && initial + s.hist.reported == s.ep.credits + Charged(PhaseOf(s)) + Cost(s.hist.handed) + s.hist.leaked
  {
    RunInv(cfg, initial, run);
  }

  /** The target never holds more unreported credits than the endpoint was given; and if it
      never reports more than it was sent, the host never has more than it was given. */
  lemma TargetNotOversubscribed(cfg: EndpointConfig, initial: nat, run: seq<Event>)
    requires cfg.Valid() && Legal(cfg, Init(initial), run)
    ensures var s := After(cfg, initial, run);
      && Cost(s.hist.handed) - s.hist.reported <= initial
      && (s.hist.reported <= Cost(s.hist.handed) ==> s.ep.credits <= initial)
  {
    RunInv(cfg, initial, run);
  }

  // ---------- exactly-once ----------

  /** A netbuf is held in at most one place, and every time it was offered it is still held or
      was given back once. */
  lemma EveryPacketExactlyOnce(cfg: EndpointConfig, initial: nat, run: seq<Event>, x: nat)
    requires cfg.Valid() && Legal(cfg, Init(initial), run)
    ensures var s := After(cfg, initial, run);
      && Held(x, s.ep, PhaseOf(s)) <= 1
      && s.hist.offered[x] == Held(x, s.ep, PhaseOf(s)) + GivenBack(s.hist, x)
  {
    RunInv(cfg, initial, run);
    var s := After(cfg, initial, run);
    assert ExactlyOnce(x, s.ep, PhaseOf(s), s.hist);
  }

  /** A HIF completion finds its packet exactly unless a flush released it while HIF held it,
      and ul_outstanding_cnt is exactly what HIF has yet to answer for. */
  lemma CompletionFindsPacket(cfg: EndpointConfig, initial: nat, run: seq<Event>, netbuf: nat)
    requires cfg.Valid() && Legal(cfg, Init(initial), run)
    ensures var s := After(cfg, initial, run);
      && (netbuf in s.hist.inHif ==> (Find(s.ep.lookup, netbuf) < |s.ep.lookup| <==> netbuf !in s.hist.orphans))
      && s.ep.outstanding == |s.hist.inHif| + |InSend(PhaseOf(s))|
  {
    RunInv(cfg, initial, run);
    var s := After(cfg, initial, run);
    assert ExactlyOnce(netbuf, s.ep, PhaseOf(s), s.hist) && LookupFollowsHif(netbuf, s.ep, PhaseOf(s), s.hist);
    IdsWithout(netbuf, s.ep.lookup, netbuf);
  }

  // ---------- order ----------

  /** A step that lets a packet of the class overtake another or drops one: a nodrop insertion in
      front of others, a flush, or a packet lost for want of a header address. */
  predicate Disturbs(pm: bool, cfg: EndpointConfig, s: System, e: Event) {
    match e
    case TrySend(_, offered, depth1, depth2, keep, nodrop, _) =>
      var a := Admit(cfg, offered, depth1, depth2, keep);
      nodrop && !a.drop && Class(pm, a.admitted) != [] && Class(pm, s.ep.txQueue) != []
    case FlushTxQueue => Class(pm, s.ep.txQueue) != []
    case IssueFails(_, error) => error == HeaderMissing && Class(pm, First(InHand(ThreadPhase(Mine(s, e))))) != []
    case _ => false
  }

  function First(q: seq<TxPacket>): seq<TxPacket> {
    if q == [] then [] else [q[0]]
  }

  /** Some step of the run disturbs the order of the class. */
  ghost predicate EverDisturbed(pm: bool, cfg: EndpointConfig, s: System, run: seq<Event>)
    requires cfg.Valid() && Legal(cfg, s, run)
    decreases |run|
  {
    run != [] &&
    (EverDisturbed(pm, cfg, s, run[..|run| - 1]) || Disturbs(pm, cfg, Exec(cfg, s, run[..|run| - 1]), run[|run| - 1]))
  }

  lemma AttemptOrdered(pm: bool, cfg: EndpointConfig, ep: Endpoint, h: History, t: nat, admitted: seq<TxPacket>,
                       nodrop: bool, env: DrainEnv)
    requires cfg.Valid()
    ensures pm in Attempt(cfg, ep, h, t, admitted, nodrop, env).h.disturbed
            <==> pm in h.disturbed || (nodrop && Class(pm, admitted) != [] && Class(pm, ep.txQueue) != [])
  {
  }

  lemma EnterOrdered(pm: bool, cfg: EndpointConfig, s: System, e: Event)
    requires cfg.Valid() && (e.TrySend? || e.TrySendNull?)
    ensures pm in EnterStep(cfg, s.ep, s.hist, e).h.disturbed <==> pm in s.hist.disturbed || Disturbs(pm, cfg, s, e)
  {
    if e.TrySend? {
      var a := Admit(cfg, e.offered, e.depth1, e.depth2, e.keep);
      AttemptOrdered(pm, cfg, s.ep, Offered(s.hist, e.offered, a.leftover), e.t, a.admitted, e.nodrop, e.env);
    } else {
      AttemptOrdered(pm, cfg, s.ep, s.hist, e.t, [], false, e.env);
    }
  }

  lemma OrderStep(pm: bool, cfg: EndpointConfig, s: System, e: Event)
    requires cfg.Valid() && Enabled(cfg, s, e)
    ensures pm in Next(cfg, s, e).hist.disturbed <==> pm in s.hist.disturbed || Disturbs(pm, cfg, s, e)
  {
    if e.TrySend? || e.TrySendNull? {
      EnterOrdered(pm, cfg, s, e);
    }
  }

  lemma {:induction false} DisturbedIff(pm: bool, cfg: EndpointConfig, s: System, run: seq<Event>)
    requires cfg.Valid() && Legal(cfg, s, run)
    ensures pm in Exec(cfg, s, run).hist.disturbed <==> pm in s.hist.disturbed || EverDisturbed(pm, cfg, s, run)
    decreases |run|
  {
    if run != [] {
      var front := run[..|run| - 1];
      DisturbedIff(pm, cfg, s, front);
      OrderStep(pm, cfg, Exec(cfg, s, front), run[|run| - 1]);
    }
  }

  /** The packets accepted and not flushed or lost, those HIF took first. */
  ghost function Line(s: System): seq<TxPacket> {
    s.hist.handed + InSend(PhaseOf(s)) + InHand(PhaseOf(s)) + s.ep.txQueue
  }

  lemma LineIsInLine(pm: bool, s: System)
    ensures Class(pm, Line(s)) == InLine(pm, s.ep, PhaseOf(s), s.hist)
  {
    var ph := PhaseOf(s);
    ClassConcat(pm, s.hist.handed, InSend(ph));
    ClassConcat(pm, s.hist.handed + InSend(ph), InHand(ph));
    ClassConcat(pm, s.hist.handed + InSend(ph) + InHand(ph), s.ep.txQueue);
  }

  /** Through any pattern of send failures and requeues, AUTO_PM packets keep their order among
      themselves and so do all others, exactly unless a step of the run disturbs their class. */
  lemma OrderKeptIff(cfg: EndpointConfig, initial: nat, run: seq<Event>, pm: bool)
    requires cfg.Valid() && Legal(cfg, Init(initial), run)
    ensures var s := After(cfg, initial, run);
      Class(pm, Line(s)) == Class(pm, s.hist.accepted) <==> !EverDisturbed(pm, cfg, Init(initial), run)
  {
    RunInv(cfg, initial, run);
    DisturbedIff(pm, cfg, Init(initial), run);
    LineIsInLine(pm, After(cfg, initial, run));
  }

  lemma {:induction false} NetbufsLength(q: seq<TxPacket>)
    ensures |Netbufs(q)| == |q|
  {
    if q != [] {
      NetbufsLength(q[1..]);
    }
  }

  /** With no AUTO_PM packet accepted the engine is first in, first out, exactly unless a step of
      the run disturbs the order. */
  lemma FirstInFirstOutIff(cfg: EndpointConfig, initial: nat, run: seq<Event>)
    requires cfg.Valid() && Legal(cfg, Init(initial), run)
    requires Pm(After(cfg, initial, run).hist.accepted) == []
    ensures var s := After(cfg, initial, run);
      Netbufs(Line(s)) == Netbufs(s.hist.accepted) <==> !EverDisturbed(false, cfg, Init(initial), run)
  {
    var s := After(cfg, initial, run);
    OrderKeptIff(cfg, initial, run, false);
    RunInv(cfg, initial, run);
    LineIsInLine(true, s);
    assert InOrder(true, s.ep, PhaseOf(s), s.hist);
    NetbufsLength(Pm(Line(s)));
    PmDueSplit(Line(s));
    PmDueSplit(s.hist.accepted);
  }

  // ---------- wakeups ----------

  /** No stranded packet: when nobody drains and no credit report is about to kick, and the
      last drain did not end on an error, the head of the TX queue is out of credits. */
  lemma NoStrandedPacket(cfg: EndpointConfig, initial: nat, run: seq<Event>)
    requires cfg.Valid() && cfg.creditFlow && Legal(cfg, Init(initial), run)
    ensures var s := After(cfg, initial, run);
      s.threads == map[] && !s.hist.stalled ==> s.ep.txQueue == [] || Blocked(cfg, s.ep.txQueue[0], s.ep.credits)
  {
    RunInv(cfg, initial, run);
  }

  // ---------- asking for credits ----------

  /** TxCreditsPerMaxMsg as htc_connect_service computes it. */
  function CreditsPerMaxMsg(maxMsgLength: nat, creditSize: nat): nat
    requires creditSize > 0
  {
    maxMsgLength / creditSize + if maxMsgLength % creditSize != 0 then 1 else 0
  }

  /** A message never needs more than one credit beyond TxCreditsPerMaxMsg. */
  lemma MessageNeeds(cfg: EndpointConfig, p: TxPacket, maxMsgLength: nat)
    requires cfg.Valid() && !cfg.isEndpoint0
    requires p.length <= maxMsgLength && cfg.headerLength <= cfg.creditSize
    ensures CreditsRequired(cfg, p) <= CreditsPerMaxMsg(maxMsgLength, cfg.creditSize) + 1
  {
    var m, c := CreditsPerMaxMsg(maxMsgLength, cfg.creditSize), cfg.creditSize;
    assert maxMsgLength == maxMsgLength / c * c + maxMsgLength % c;
    assert m * c >= maxMsgLength;
    assert (m + 1) * c == m * c + c;
    CreditsRequiredIsLeast(cfg, p, m + 1);
  }

  /** If the head of the TX queue waits for credits, nobody drains and no credit leaked, then
      the last packet HIF took told the target that credits are needed. */
  lemma StarvationIsSignalled(cfg: EndpointConfig, initial: nat, run: seq<Event>, maxMsgLength: nat)
    requires cfg.Valid() && cfg.creditFlow && !cfg.isEndpoint0
    requires cfg.headerLength <= cfg.creditSize
    requires cfg.creditsPerMaxMsg == CreditsPerMaxMsg(maxMsgLength, cfg.creditSize)
    requires Legal(cfg, Init(initial), run)
    ensures var s := After(cfg, initial, run);
      PhaseOf(s).None? && s.hist.leaked == 0 && s.hist.handed != []
      && s.ep.txQueue != [] && s.ep.txQueue[0].length <= maxMsgLength && Blocked(cfg, s.ep.txQueue[0], s.ep.credits)
      ==> s.hist.handed[|s.hist.handed| - 1].needCreditUpdate
  {
    RunInv(cfg, initial, run);
    var s := After(cfg, initial, run);
    if s.ep.txQueue != [] && s.ep.txQueue[0].length <= maxMsgLength {
      MessageNeeds(cfg, s.ep.txQueue[0], maxMsgLength);
    }
  }
}
