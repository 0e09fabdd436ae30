// When the transmit engine loses credits or runtime-PM references: the exits that do it, and
// what a run has lost as a matter of whether it ever took one.

module TxLosses {
  import opened Common
  import opened TxTypes
  import opened TxSpec
  import opened TxEngine
  import opened TxTheorems

  // ---------- runtime PM ----------

  /** Runtime-PM references held against packets in flight: exact up to the listed terms. */
  lemma PmReferences(cfg: EndpointConfig, initial: nat, run: seq<Event>)
    requires cfg.Valid() && Legal(cfg, Init(initial), run)
    ensures var s := After(cfg, initial, run); var h := s.hist;
      s.ep.pmRefs == PmDue(InHand(PhaseOf(s))) + PmDue(s.ep.lookup) + h.pmForgotten - h.pmOver - h.pmEarly
  {
    RunInv(cfg, initial, run);
  }

  // ---------- the exits that lose something ----------

  datatype Exit =
    | Leak       // packets are put back or lost without reclaiming what they were charged
    | OverPut    // a failed drain puts a reference for each AUTO_PM packet it puts back
    | EarlyPut   // a RUNTIME_PUT packet gives its reference back when sent and again when completed
    | Forgotten  // a lost packet or a lookup flush keeps its references

  /** The failure was a refusal by HIF, which reclaims credits. */
  predicate GaveUpReclaimed(ph: Option<Phase>) {
    ph.Some? && ph.value.Failed? && ph.value.reclaimed
  }

  predicate Charges(q: seq<TxPacket>) {
    q != [] && q[0].creditsUsed > 0
  }

  predicate Takes(s: System, e: Event, exit: Exit) {
    match exit
    case Leak =>
      || (e.PutBack? && !GaveUpReclaimed(ThreadPhase(Mine(s, e))) && Cost(InHand(ThreadPhase(Mine(s, e)))) > 0)
      || (e.IssueFails? && e.error == HeaderMissing && Charges(InHand(ThreadPhase(Mine(s, e)))))
    case OverPut => e.PutBack? && Pm(InHand(ThreadPhase(Mine(s, e)))) != []
    case EarlyPut => e.HifAccepts? && exists p | p in InSend(ThreadPhase(Mine(s, e))) :: p.tag == RuntimePut
    case Forgotten =>
      || (e.FlushLookupQueue? && PmDue(s.ep.lookup) > 0)
      || (e.IssueFails? && e.error == HeaderMissing && InHand(ThreadPhase(Mine(s, e))) != []
          && InHand(ThreadPhase(Mine(s, e)))[0].tag != AutoPm)
  }

  /** Some step of the run takes the exit. */
  ghost predicate Ever(cfg: EndpointConfig, s: System, run: seq<Event>, exit: Exit)
    requires cfg.Valid() && Legal(cfg, s, run)
    decreases |run|
  {
    run != [] && (Ever(cfg, s, run[..|run| - 1], exit) || Takes(Exec(cfg, s, run[..|run| - 1]), run[|run| - 1], exit))
  }

  function Ledger(h: History, exit: Exit): nat {
    match exit
    case Leak => h.leaked
    case OverPut => h.pmOver
    case EarlyPut => h.pmEarly
    case Forgotten => h.pmForgotten
  }

  lemma AttemptLedger(cfg: EndpointConfig, ep: Endpoint, h: History, t: nat, admitted: seq<TxPacket>, nodrop: bool,
                      env: DrainEnv, exit: Exit)
    requires cfg.Valid()
    ensures Ledger(Attempt(cfg, ep, h, t, admitted, nodrop, env).h, exit) == Ledger(h, exit)
  {
  }

  lemma EnterLedger(cfg: EndpointConfig, ep: Endpoint, h: History, e: Event, exit: Exit)
    requires cfg.Valid() && (e.TrySend? || e.TrySendNull?)
    ensures Ledger(EnterStep(cfg, ep, h, e).h, exit) == Ledger(h, exit)
  {
    if e.TrySend? {
      var a := Admit(cfg, e.offered, e.depth1, e.depth2, e.keep);
      AttemptLedger(cfg, ep, Offered(h, e.offered, a.leftover), e.t, a.admitted, e.nodrop, e.env, exit);
    } else {
      AttemptLedger(cfg, ep, h, e.t, [], false, e.env, exit);
    }
  }

  lemma StepLedger(cfg: EndpointConfig, s: System, e: Event, exit: Exit)
    requires cfg.Valid() && Enabled(cfg, s, e)
    ensures Ledger(Next(cfg, s, e).hist, exit) >= Ledger(s.hist, exit)
    ensures Ledger(Next(cfg, s, e).hist, exit) > Ledger(s.hist, exit) <==> Takes(s, e, exit)
  {
    if e.TrySend? || e.TrySendNull? {
      EnterLedger(cfg, s.ep, s.hist, e, exit);
    } else if e.IssueFails? && e.error == HeaderMissing {
      var q := Mine(s, e).value.phase.queue;
      assert PmDue([q[0]]) == if q[0].tag == AutoPm then 0 else 1;
    }
  }

  lemma {:induction false} RunLedger(cfg: EndpointConfig, s: System, run: seq<Event>, exit: Exit)
    requires cfg.Valid() && Legal(cfg, s, run)
    ensures Ledger(Exec(cfg, s, run).hist, exit) >= Ledger(s.hist, exit)
    ensures Ledger(Exec(cfg, s, run).hist, exit) > Ledger(s.hist, exit) <==> Ever(cfg, s, run, exit)
    decreases |run|
  {
    if run != [] {
      var front := run[..|run| - 1];
      RunLedger(cfg, s, front, exit);
      StepLedger(cfg, Exec(cfg, s, front), run[|run| - 1], exit);
    }
  }

  /** References are held for exactly the packets in flight. */
  ghost predicate PmExact(s: System) {
    s.ep.pmRefs == PmDue(InHand(PhaseOf(s))) + PmDue(s.ep.lookup)
  }

  /** In a run that forgets no reference, gets and puts balance exactly when no failed drain
      ever put back an AUTO_PM packet and no RUNTIME_PUT packet was ever sent. */
  lemma PmBalancedIff(cfg: EndpointConfig, initial: nat, run: seq<Event>)
    requires cfg.Valid() && Legal(cfg, Init(initial), run)
    requires !Ever(cfg, Init(initial), run, Forgotten)
    ensures PmExact(After(cfg, initial, run)) <==>
      !Ever(cfg, Init(initial), run, OverPut) && !Ever(cfg, Init(initial), run, EarlyPut)
  {
    PmReferences(cfg, initial, run);
    RunLedger(cfg, Init(initial), run, OverPut);
    RunLedger(cfg, Init(initial), run, EarlyPut);
    RunLedger(cfg, Init(initial), run, Forgotten);
  }

  /** In a run without puts too many, they balance exactly when no reference was forgotten. */
  lemma PmForgottenIff(cfg: EndpointConfig, initial: nat, run: seq<Event>)
    requires cfg.Valid() && Legal(cfg, Init(initial), run)
    requires !Ever(cfg, Init(initial), run, OverPut) && !Ever(cfg, Init(initial), run, EarlyPut)
    ensures PmExact(After(cfg, initial, run)) <==> !Ever(cfg, Init(initial), run, Forgotten)
  {
    PmReferences(cfg, initial, run);
    RunLedger(cfg, Init(initial), run, OverPut);
    RunLedger(cfg, Init(initial), run, EarlyPut);
    RunLedger(cfg, Init(initial), run, Forgotten);
  }

  // ---------- when credits leak ----------

  /** Credits have leaked exactly if some step leaked them. */
  lemma LeakedIff(cfg: EndpointConfig, initial: nat, run: seq<Event>)
    requires cfg.Valid() && Legal(cfg, Init(initial), run)
    ensures After(cfg, initial, run).hist.leaked > 0 <==> Ever(cfg, Init(initial), run, Leak)
  {
    RunLedger(cfg, Init(initial), run, Leak);
  }

  /** Only an endpoint with credit flow other than endpoint 0 charges its packets. */
  predicate Pays(cfg: EndpointConfig) {
    cfg.creditFlow && !cfg.isEndpoint0
  }

  /** Every packet was charged, or none was. */
  predicate Billed(pays: bool, q: seq<TxPacket>) {
    q == [] || ((q[0].creditsUsed > 0) == pays && Billed(pays, q[1..]))
  }

  predicate PhaseBilled(pays: bool, phase: Phase) {
    Billed(pays, phase.queue) && (phase.Sending? ==> (phase.packet.creditsUsed > 0) == pays)
  }

  /** What any drainer holds was charged as its endpoint charges. */
  ghost predicate AllBilled(pays: bool, s: System) {
    forall t | t in s.threads && s.threads[t].Drain? :: PhaseBilled(pays, s.threads[t].phase)
  }

  lemma {:induction false} GrabBilled(cfg: EndpointConfig, q: seq<TxPacket>, credits: int, doPmGet: bool, pmGood: nat)
    requires cfg.Valid()
    ensures Billed(!cfg.isEndpoint0, Grab(cfg, q, credits, doPmGet, pmGood).taken)
  {
    if !(doPmGet && pmGood == 0) && q != [] && !Blocked(cfg, q[0], credits) {
      var need, left := CreditsRequired(cfg, q[0]), if doPmGet then pmGood - 1 else pmGood;
      if !cfg.isEndpoint0 {
        CreditsRequiredIsLeast(cfg, q[0], 1);
      }
      GrabBilled(cfg, q[1..], credits - need, doPmGet, left);
      var rest := Grab(cfg, q[1..], credits - need, doPmGet, left).taken;
      assert Grab(cfg, q, credits, doPmGet, pmGood).taken[1..] == rest;
    }
  }

  lemma {:induction false} GrabByResourceBilled(q: seq<TxPacket>, resources: int, doPmGet: bool, pmGood: nat)
    ensures Billed(false, GrabByResource(q, resources, doPmGet, pmGood).taken)
  {
    if resources > 0 && !(doPmGet && pmGood == 0) && q != [] {
      var left := if doPmGet then pmGood - 1 else pmGood;
      GrabByResourceBilled(q[1..], resources - q[0].fragments, doPmGet, left);
      var rest := GrabByResource(q[1..], resources - q[0].fragments, doPmGet, left).taken;
      assert GrabByResource(q, resources, doPmGet, pmGood).taken[1..] == rest;
    }
  }

  lemma DrainTopBilled(cfg: EndpointConfig, ep: Endpoint, env: DrainEnv)
    requires cfg.Valid()
    ensures Billed(Pays(cfg), DrainTop(cfg, ep, env).taken)
  {
    var pm := Extracted(cfg, ep.txQueue);
    var source := if pm == [] then ep.txQueue else pm;
    GrabBilled(cfg, source, ep.credits, pm == [], env.pmGood);
    GrabByResourceBilled(source, env.resources, pm == [], env.pmGood);
  }

  /** A step keeps the stepping thread's packets billed. */
  lemma MineBilled(cfg: EndpointConfig, ep: Endpoint, mine: Option<Thread>, h: History, e: Event)
    requires cfg.Valid() && CanStep(cfg, mine, h, e)
    requires mine.Some? && mine.value.Drain? ==> PhaseBilled(Pays(cfg), mine.value.phase)
    ensures var r := Step(cfg, ep, mine, h, e);
      r.mine.Some? && r.mine.value.Drain? ==> PhaseBilled(Pays(cfg), r.mine.value.phase)
  {
    if e.TrySend? {
      var a := Admit(cfg, e.offered, e.depth1, e.depth2, e.keep);
      DrainTopBilled(cfg, Queued(ep, a.admitted, e.nodrop), e.env);
    } else if e.TrySendNull? {
      DrainTopBilled(cfg, Queued(ep, [], false), e.env);
    } else if e.Continue? {
      DrainTopBilled(cfg, ep, e.env);
    } else if e.HifRefuses? {
      assert ([mine.value.phase.packet] + mine.value.phase.queue)[1..] == mine.value.phase.queue;
    }
  }

  lemma BilledStep(cfg: EndpointConfig, s: System, e: Event)
    requires cfg.Valid() && Enabled(cfg, s, e) && AllBilled(Pays(cfg), s)
    ensures AllBilled(Pays(cfg), Next(cfg, s, e))
  {
    MineBilled(cfg, s.ep, Mine(s, e), s.hist, e);
    OthersStay(s.threads, e, Step(cfg, s.ep, Mine(s, e), s.hist, e).mine);
  }

  lemma {:induction false} BilledRun(cfg: EndpointConfig, s: System, run: seq<Event>)
    requires cfg.Valid() && Legal(cfg, s, run) && AllBilled(Pays(cfg), s)
    ensures AllBilled(Pays(cfg), Exec(cfg, s, run))
    decreases |run|
  {
    if run != [] {
      var front := run[..|run| - 1];
      BilledRun(cfg, s, front);
      BilledStep(cfg, Exec(cfg, s, front), run[|run| - 1]);
    }
  }

  /** htc_issue_packets failed without HIF refusing, and a packet was put back or lost by it. */
  predicate GivesUp(s: System, e: Event) {
    var ph := ThreadPhase(Mine(s, e));
    (e.PutBack? && !GaveUpReclaimed(ph) && InHand(ph) != []) || (e.IssueFails? && e.error == HeaderMissing)
  }

  ghost predicate EverGaveUp(cfg: EndpointConfig, s: System, run: seq<Event>)
    requires cfg.Valid() && Legal(cfg, s, run)
    decreases |run|
  {
    run != [] && (EverGaveUp(cfg, s, run[..|run| - 1]) || GivesUp(Exec(cfg, s, run[..|run| - 1]), run[|run| - 1]))
  }

  lemma {:induction false} BilledCosts(pays: bool, q: seq<TxPacket>)
    requires Billed(pays, q)
    ensures Cost(q) > 0 <==> pays && q != []
    ensures Charges(q) <==> pays && q != []
  {
    if q != [] {
      BilledCosts(pays, q[1..]);
    }
  }

  lemma LeakIsGivingUp(cfg: EndpointConfig, s: System, e: Event)
    requires cfg.Valid() && Enabled(cfg, s, e) && AllBilled(Pays(cfg), s)
    ensures Takes(s, e, Leak) <==> Pays(cfg) && GivesUp(s, e)
  {
    if OfDrainer(e) {
      BilledCosts(Pays(cfg), Mine(s, e).value.phase.queue);
    }
  }

  lemma {:induction false} EverLeaksIff(cfg: EndpointConfig, s: System, run: seq<Event>)
    requires cfg.Valid() && Legal(cfg, s, run) && AllBilled(Pays(cfg), s)
    ensures Ever(cfg, s, run, Leak) <==> Pays(cfg) && EverGaveUp(cfg, s, run)
    decreases |run|
  {
    if run != [] {
      var front := run[..|run| - 1];
      EverLeaksIff(cfg, s, front);
      BilledRun(cfg, s, front);
      LeakIsGivingUp(cfg, Exec(cfg, s, front), run[|run| - 1]);
    }
  }

  /** Credits have leaked exactly if the endpoint charges its packets and htc_issue_packets ever
      gave up on one for want of padding credit, a header address or a mapping. */
  lemma LeakedIffGaveUp(cfg: EndpointConfig, initial: nat, run: seq<Event>)
    requires cfg.Valid() && Legal(cfg, Init(initial), run)
    ensures After(cfg, initial, run).hist.leaked > 0 <==> Pays(cfg) && EverGaveUp(cfg, Init(initial), run)
  {
    LeakedIff(cfg, initial, run);
    EverLeaksIff(cfg, Init(initial), run);
  }
}
