// The transmit engine of one endpoint under concurrency (htc/htc_send.c).
//
// Each region that runs under the TX lock is one atomic event; the work a drainer does
// between two regions touches only its own queue and belongs to the event that ends it.
// HIF, runtime PM, the target and the callers choose the events and their arguments.
// The state covers one endpoint without async_update and without bundling.

module TxEngine {
  import opened Common
  import opened TxTypes
  import opened TxSpec

  /** Where the drainer is inside htc_try_send, with its local send queue. */
  datatype Phase =
    | Issuing(queue: seq<TxPacket>)                 // about to take the next packet
    | Sending(packet: TxPacket, queue: seq<TxPacket>) // packet recorded for lookup, hif_send_head running
    | Failed(queue: seq<TxPacket>, reclaimed: bool) // htc_issue_packets returned an error

  /** A thread that is between two lock-held regions. */
  datatype Thread =
    | Kick                 // a credit report released the lock and is about to call htc_try_send
    | Drain(phase: Phase)  // inside the section only one thread may enter

  /** What happened so far.  No event is guarded by it, except that packets are offered
      afresh and HIF completes only what it holds. */
  datatype History = History(
    accepted: seq<TxPacket>,   // packets queued, in lock order
    handed: seq<TxPacket>,     // packets HIF took, in order
    reported: nat,             // credits the target reported
    leaked: nat,               // credits charged to packets that were requeued or lost without reclaim
    offered: multiset<nat>,    // netbufs of all packets callers offered
    refused: multiset<nat>,    // left with the caller
    completed: multiset<nat>,  // given back by a HIF completion
    cancelled: multiset<nat>,  // given back by a TX queue flush
    released: multiset<nat>,   // given back or freed by a lookup queue flush
    lost: multiset<nat>,       // dropped because the frame header had no address
    inHif: multiset<nat>,      // taken by HIF and not completed
    orphans: multiset<nat>,    // in HIF while a flush already released the packet
    pmOver: nat,               // runtime-PM puts made for AUTO_PM packets of a failed issue
    pmEarly: nat,              // runtime-PM puts made on sending a RUNTIME_PUT packet
    pmForgotten: nat,          // references of lost and released packets
    stalled: bool,             // the last drain ended on a failed runtime-PM get or issue error
    disturbed: set<bool>,      // classes of packets whose order a nodrop insertion, a flush or a loss disturbed
    drainer: Option<nat>)      // the thread that found TxProcessCount at zero

  datatype System = System(ep: Endpoint, threads: map<nat, Thread>, hist: History)

  datatype IssueError = PaddingAbsent | HeaderMissing | MapFailed

  datatype Event =
    | TrySend(t: nat, offered: seq<TxPacket>, depth1: nat, depth2: nat, keep: set<nat>, nodrop: bool, env: DrainEnv)
    | TrySendNull(t: nat, env: DrainEnv)
    | Continue(t: nat, env: DrainEnv)
    | IssueFails(t: nat, error: IssueError)
    | Record(t: nat)
    | HifAccepts(t: nat)
    | HifRefuses(t: nat)
    | PutBack(t: nat)
    | CreditReport(t: nat, credits: nat)
    | HifCompletes(netbuf: nat)
    | FlushTxQueue
    | FlushLookupQueue

  function Init(initialCredits: nat): System {
    System(
      Endpoint([], [], initialCredits, 0, 0, 0), map[],
      History([], [], 0, 0, multiset{}, multiset{}, multiset{}, multiset{}, multiset{}, multiset{},
              multiset{}, multiset{}, 0, 0, 0, false, {}, None))
  }

  /** How often netbuf `x` was given back to a caller, or lost. */
  function GivenBack(h: History, x: nat): nat {
    h.refused[x] + h.completed[x] + h.cancelled[x] + h.released[x] + h.lost[x]
  }

  /** Netbuf `x` has been given back as often as it was offered, and HIF does not hold it. */
  predicate Free(h: History, x: nat) {
    h.offered[x] == GivenBack(h, x) && h.orphans[x] == 0
  }

  /** Callers hand over packets that neither HTC nor HIF holds, each once; only the WMI endpoint
      has AUTO_PM packets.  A netbuf given back may be offered again. */
  predicate Fresh(cfg: EndpointConfig, h: History, offered: seq<TxPacket>) {
    && (forall x | x in Ids(offered) :: Ids(offered)[x] == 1 && Free(h, x))
    && (!cfg.isWmiControl ==> Pm(offered) == [])
  }

  function ThreadOf(e: Event): Option<nat> {
    match e
    case HifCompletes(_) => None
    case FlushTxQueue => None
    case FlushLookupQueue => None
    case _ => Some(e.t)
  }

  /** Events a drainer takes inside the section. */
  predicate OfDrainer(e: Event) {
    e.Continue? || e.IssueFails? || e.Record? || e.HifAccepts? || e.HifRefuses? || e.PutBack?
  }

  predicate Failing(e: Event) {
    e.IssueFails? || e.PutBack?
  }

  /** What a thread at `phase` of the section may do next. */
  predicate CanDrain(cfg: EndpointConfig, phase: Phase, e: Event) {
    match e
    case Continue(_, _) => phase == Issuing([])
    case IssueFails(_, error) =>
      && phase.Issuing?
      && (error == PaddingAbsent ==> cfg.hasPaddingCallback)
      && (error != PaddingAbsent ==> cfg.creditFlow && phase.queue != [])
    case Record(_) => phase.Issuing? && phase.queue != []
    case HifAccepts(_) => phase.Sending?
    case HifRefuses(_) => phase.Sending?
    case PutBack(_) => phase.Failed?
    case _ => false
  }

  /** What thread `mine` may do; None is a thread that is not inside HTC. */
  predicate CanStep(cfg: EndpointConfig, mine: Option<Thread>, h: History, e: Event) {
    match e
    case TrySend(_, offered, _, _, _, _, _) => mine.None? && Fresh(cfg, h, offered)
    case TrySendNull(_, _) => mine.Some? ==> mine.value.Kick?
    case CreditReport(_, credits) => mine.None? && credits < 256
    case HifCompletes(netbuf) => netbuf in h.inHif
    case FlushTxQueue => true
    case FlushLookupQueue => true
    case _ => mine.Some? && mine.value.Drain? && CanDrain(cfg, mine.value.phase, e)
  }

  /** The shared state, the stepping thread and the history after a step. */
  datatype Outcome = Outcome(ep: Endpoint, mine: Option<Thread>, h: History)

  /** The end of a pass over the drain loop: on with the packets dequeued, or out. */
  function Resume(t: nat, g: Got, h: History): Outcome {
    if g.taken == [] then Outcome(g.ep, None, h.(stalled := g.pmFailed, drainer := None))
    else Outcome(g.ep, Some(Drain(Issuing(g.taken))), h.(drainer := Some(t)))
  }

  /** One pass of the drain loop by thread `t`. */
  function Pass(cfg: EndpointConfig, ep: Endpoint, h: History, t: nat, env: DrainEnv): Outcome
    requires cfg.Valid()
  {
    Resume(t, DrainTop(cfg, ep, env), h)
  }

  /** The packets of `q` in one class, the AUTO_PM packets or the others, by netbuf. */
  function Class(pm: bool, q: seq<TxPacket>): seq<nat> {
    Netbufs(if pm then Pm(q) else NonPm(q))
  }

  /** The classes that have a packet in `q`. */
  function Classes(q: seq<TxPacket>): set<bool> {
    set pm: bool | Class(pm, q) != []
  }

  /** Packets are accepted into the TX queue `q`; nodrop packets overtake those of their class. */
  function Accepted(h: History, q: seq<TxPacket>, admitted: seq<TxPacket>, nodrop: bool): History {
    h.(accepted := h.accepted + admitted,
       disturbed := h.disturbed + if nodrop then Classes(admitted) * Classes(q) else {})
  }

  /** htc_try_send from the TX lock on, once the admitted packets are known. */
  function Attempt(cfg: EndpointConfig, ep: Endpoint, h: History, t: nat, admitted: seq<TxPacket>, nodrop: bool,
                   env: DrainEnv): Outcome
    requires cfg.Valid()
  {
    var r := Enter(cfg, ep, admitted, nodrop, env);
    var h' := Accepted(h, ep.txQueue, admitted, nodrop);
    if r.busy then Outcome(r.ep, None, h')
    else Resume(t, Got(r.ep, r.taken, r.pmFailed), h')
  }

  function Offered(h: History, offered: seq<TxPacket>, leftover: seq<TxPacket>): History {
    h.(offered := h.offered + Ids(offered), refused := h.refused + Ids(leftover))
  }

  /** A caller, a kick or any other thread enters htc_try_send. */
  function EnterStep(cfg: EndpointConfig, ep: Endpoint, h: History, e: Event): Outcome
    requires cfg.Valid() && (e.TrySend? || e.TrySendNull?)
  {
    match e
    case TrySend(t, offered, depth1, depth2, keep, nodrop, env) =>
      var a := Admit(cfg, offered, depth1, depth2, keep);
      var h' := Offered(h, offered, a.leftover);
      if a.drop then Outcome(ep, None, h') else Attempt(cfg, ep, h', t, a.admitted, nodrop, env)
    case TrySendNull(t, env) =>
      Attempt(cfg, ep, h, t, [], false, env)
  }

  /** The drainer moves packets to HIF. */
  function SendStep(ep: Endpoint, phase: Phase, h: History, e: Event): Outcome
    requires e.Record? ==> phase.Issuing? && phase.queue != []
    requires e.HifAccepts? || e.HifRefuses? ==> phase.Sending?
    requires OfDrainer(e) && !e.Continue? && !Failing(e)
  {
    var q := phase.queue;
    match e
    case Record(_) =>
      Outcome(RecordSend(ep, q[0]), Some(Drain(Sending(q[0], q[1..]))), h)
    case HifAccepts(_) =>
      var early := if phase.packet.tag == RuntimePut then 1 else 0;
      Outcome(ep.(pmRefs := ep.pmRefs - early), Some(Drain(Issuing(q))),
              h.(handed := h.handed + [phase.packet], inHif := h.inHif + multiset{phase.packet.netbuf},
                 pmEarly := h.pmEarly + early))
    case HifRefuses(_) =>
      Outcome(TakeBack(ep, [phase.packet] + q), Some(Drain(Failed([phase.packet] + q, true))), h)
  }

  /** The drainer runs into an error of its own, or puts its packets back after one. */
  function FailStep(ep: Endpoint, phase: Phase, h: History, e: Event): Outcome
    requires Failing(e)
    requires e.IssueFails? && e.error == HeaderMissing ==> phase.queue != []
    requires e.PutBack? ==> phase.Failed?
  {
    var q := phase.queue;
    match e
    case IssueFails(_, error) =>
      if error == HeaderMissing then
        Outcome(ep, Some(Drain(Failed(q[1..], false))),
                h.(lost := h.lost + multiset{q[0].netbuf}, leaked := h.leaked + q[0].creditsUsed,
                   pmForgotten := h.pmForgotten + PmDue([q[0]]), disturbed := h.disturbed + Classes([q[0]])))
      else
        Outcome(ep, Some(Drain(Failed(q, false))), h)
    case PutBack(_) =>
      Outcome(Requeue(ep, q), None,
              h.(leaked := h.leaked + if phase.reclaimed then 0 else Cost(q),
                 pmOver := h.pmOver + |Pm(q)|, stalled := true, drainer := None))
  }

  function DrainerStep(cfg: EndpointConfig, ep: Endpoint, phase: Phase, h: History, e: Event): Outcome
    requires cfg.Valid() && OfDrainer(e) && CanDrain(cfg, phase, e)
  {
    if e.Continue? then Pass(cfg, ep, h, e.t, e.env)
    else if Failing(e) then FailStep(ep, phase, h, e)
    else SendStep(ep, phase, h, e)
  }

  /** The target, HIF or a flush acts. */
  function OutsideStep(ep: Endpoint, h: History, e: Event): Outcome
    requires !OfDrainer(e) && !e.TrySend? && !e.TrySendNull?
  {
    match e
    case CreditReport(_, credits) =>
      var ep' := ep.(credits := ep.credits + credits);
      Outcome(ep', if ep'.credits != 0 && ep'.txQueue != [] then Some(Kick) else None,
              h.(reported := h.reported + credits))
    case HifCompletes(netbuf) =>
      Outcome(Complete(ep, netbuf), None,
              if Find(ep.lookup, netbuf) < |ep.lookup|
              then h.(inHif := h.inHif - multiset{netbuf}, completed := h.completed + multiset{netbuf})
              else h.(inHif := h.inHif - multiset{netbuf}, orphans := h.orphans - multiset{netbuf}))
    case FlushTxQueue =>
      Outcome(ep.(txQueue := []), None,
              h.(cancelled := h.cancelled + Ids(ep.txQueue), disturbed := h.disturbed + Classes(ep.txQueue)))
    case FlushLookupQueue =>
      Outcome(ep.(lookup := []), None,
              h.(released := h.released + Ids(ep.lookup), orphans := h.orphans + Ids(ep.lookup),
                 pmForgotten := h.pmForgotten + PmDue(ep.lookup)))
  }

  function Step(cfg: EndpointConfig, ep: Endpoint, mine: Option<Thread>, h: History, e: Event): Outcome
    requires cfg.Valid() && CanStep(cfg, mine, h, e)
  {
    if OfDrainer(e) then DrainerStep(cfg, ep, mine.value.phase, h, e)
    else if e.TrySend? || e.TrySendNull? then EnterStep(cfg, ep, h, e)
    else OutsideStep(ep, h, e)
  }

  function Mine(s: System, e: Event): Option<Thread> {
    var t := ThreadOf(e);
    if t.Some? && t.value in s.threads then Some(s.threads[t.value]) else None
  }

  /** The lookup queue is flushed only while nobody drains. */
  predicate Enabled(cfg: EndpointConfig, s: System, e: Event) {
    && CanStep(cfg, Mine(s, e), s.hist, e)
    && (e.FlushLookupQueue? ==> forall t | t in s.threads :: !s.threads[t].Drain?)
  }

  function Place(threads: map<nat, Thread>, e: Event, mine: Option<Thread>): map<nat, Thread> {
    match ThreadOf(e)
    case None => threads
    case Some(t) => if mine.Some? then threads[t := mine.value] else threads - {t}
  }

  function Next(cfg: EndpointConfig, s: System, e: Event): System
    requires cfg.Valid() && Enabled(cfg, s, e)
  {
    var r := Step(cfg, s.ep, Mine(s, e), s.hist, e);
    System(r.ep, Place(s.threads, e, r.mine), r.h)
  }

  /** A step changes no thread but its own. */
  lemma OthersStay(threads: map<nat, Thread>, e: Event, mine: Option<Thread>)
    ensures forall t | t in Place(threads, e, mine) && ThreadOf(e) != Some(t) ::
      t in threads && Place(threads, e, mine)[t] == threads[t]
    ensures forall t | t in threads && ThreadOf(e) != Some(t) :: t in Place(threads, e, mine)
    ensures forall t | t in Place(threads, e, mine) && ThreadOf(e) == Some(t) ::
      mine.Some? && Place(threads, e, mine)[t] == mine.value
  {
  }

  // ---------- the invariants ----------

  function ThreadPhase(mine: Option<Thread>): Option<Phase> {
    if mine.Some? && mine.value.Drain? then Some(mine.value.phase) else None
  }

  /** The drainer's phase. */
  function PhaseOf(s: System): Option<Phase> {
    match s.hist.drainer
    case None => None
    case Some(t) => if t in s.threads then ThreadPhase(Some(s.threads[t])) else None
  }

  /** Packets in the drainer's local queue. */
  function InHand(ph: Option<Phase>): seq<TxPacket> {
    if ph.None? then [] else ph.value.queue
  }

  /** The packet hif_send_head is working on. */
  function InSend(ph: Option<Phase>): seq<TxPacket> {
    if ph.Some? && ph.value.Sending? then [ph.value.packet] else []
  }

  predicate IsSending(ph: Option<Phase>, netbuf: nat) {
    ph.Some? && ph.value.Sending? && ph.value.packet.netbuf == netbuf
  }

  /** Credits charged to packets the drainer holds. */
  function Charged(ph: Option<Phase>): nat {
    if ph.Some? && ph.value.Failed? && ph.value.reclaimed then 0
    else Cost(InSend(ph)) + Cost(InHand(ph))
  }

  /** Mutual exclusion: the count says whether someone drains, and the drainer is the one
      thread in the section. */
  ghost predicate SingleDrainer(s: System) {
    && s.ep.processCount == (if s.hist.drainer.Some? then 1 else 0)
    && (s.hist.drainer.Some? ==> PhaseOf(s).Some?)
    && (forall t | t in s.threads && s.threads[t].Drain? :: s.hist.drainer == Some(t))
  }

  ghost predicate CreditsConserved(initial: nat, ep: Endpoint, ph: Option<Phase>, h: History) {
    && ep.credits >= 0
    && initial + h.reported == ep.credits + Charged(ph) + Cost(h.handed) + h.leaked
  }

  /** How many places of HTC hold netbuf `x`. */
  function Held(x: nat, ep: Endpoint, ph: Option<Phase>): nat {
    Ids(ep.txQueue)[x] + Ids(InHand(ph))[x] + Ids(ep.lookup)[x]
  }

  /** A netbuf is in at most one place, HIF's orphans included, and every offer of it is still
      held or was answered. */
  ghost predicate ExactlyOnce(x: nat, ep: Endpoint, ph: Option<Phase>, h: History) {
    && Held(x, ep, ph) + h.orphans[x] <= 1
    && h.offered[x] == Held(x, ep, ph) + GivenBack(h, x)
  }

  /** The lookup queue holds what HIF holds, except what a flush released. */
  ghost predicate LookupFollowsHif(x: nat, ep: Endpoint, ph: Option<Phase>, h: History) {
    && h.orphans[x] <= h.released[x]
    && Ids(ep.lookup)[x] + h.orphans[x] == h.inHif[x] + (if IsSending(ph, x) then 1 else 0)
  }

  /** ul_outstanding_cnt counts what HIF holds, and the packet being sent can be looked up. */
  ghost predicate OutstandingExact(ep: Endpoint, ph: Option<Phase>, h: History) {
    && ep.outstanding == |h.inHif| + |InSend(ph)|
    && (ph.Some? && ph.value.Sending? ==> ph.value.packet in ep.lookup)
  }

  /** The packets of one class that HIF took, the drainer holds or the TX queue holds, in the order
      in which HIF took them or will be given them. */
  function InLine(pm: bool, ep: Endpoint, ph: Option<Phase>, h: History): seq<nat> {
    Class(pm, h.handed) + Class(pm, InSend(ph)) + Class(pm, InHand(ph)) + Class(pm, ep.txQueue)
  }

  /** These are the accepted packets of the class in order, exactly unless that was disturbed. */
  ghost predicate InOrder(pm: bool, ep: Endpoint, ph: Option<Phase>, h: History) {
    && |InLine(pm, ep, ph, h)| <= |Class(pm, h.accepted)|
    && (InLine(pm, ep, ph, h) == Class(pm, h.accepted) <==> pm !in h.disturbed)
  }

  /** Packets of `q` without the credit-request flag left enough credits for any message. */
  predicate FlagsTell(cfg: EndpointConfig, q: seq<TxPacket>, left: int) {
    q == [] ||
    ((q[0].needCreditUpdate || left + Cost(q[1..]) > cfg.creditsPerMaxMsg) && FlagsTell(cfg, q[1..], left))
  }

  /** If the last packet HIF took did not ask for credits, then the credits at hand, those
      the drainer holds and those leaked still exceed a maximum message. */
  ghost predicate Signalled(cfg: EndpointConfig, ep: Endpoint, ph: Option<Phase>, h: History) {
    cfg.creditFlow && !cfg.isEndpoint0 ==>
      && (ph.Some? && !ph.value.Failed? ==> FlagsTell(cfg, InSend(ph) + InHand(ph), ep.credits))
      && (h.handed != [] && !h.handed[|h.handed| - 1].needCreditUpdate ==>
            ep.credits + Charged(ph) + h.leaked > cfg.creditsPerMaxMsg)
  }

  /** Runtime-PM references are held for the packets in flight, up to the puts that had no
      get and the gets that got no put. */
  ghost predicate PmBalanced(cfg: EndpointConfig, ep: Endpoint, ph: Option<Phase>, h: History) {
    && (!cfg.isWmiControl ==> Pm(ep.txQueue) == [] && Pm(InHand(ph)) == [] && Pm(InSend(ph)) == [])
    && ep.pmRefs + h.pmOver + h.pmEarly == PmDue(InHand(ph)) + PmDue(ep.lookup) + h.pmForgotten
  }

  /** A drain that ended well left nothing it could have sent. */
  ghost predicate Drained(cfg: EndpointConfig, ep: Endpoint, h: History)
    requires cfg.Valid()
  {
    cfg.creditFlow && !h.stalled ==> ep.txQueue == [] || Blocked(cfg, ep.txQueue[0], ep.credits)
  }

  ghost predicate Kicking(s: System) {
    exists t :: t in s.threads && s.threads[t].Kick?
  }

  /** All that holds of the endpoint, the drainer's phase and the history. */
  ghost predicate CoreInv(cfg: EndpointConfig, initial: nat, ep: Endpoint, ph: Option<Phase>, h: History) {
    && CreditsConserved(initial, ep, ph, h)
    && (forall x :: ExactlyOnce(x, ep, ph, h))
    && (forall x :: LookupFollowsHif(x, ep, ph, h))
    && OutstandingExact(ep, ph, h)
    && InOrder(true, ep, ph, h) && InOrder(false, ep, ph, h)
    && Signalled(cfg, ep, ph, h)
    && PmBalanced(cfg, ep, ph, h)
  }

  ghost predicate Inv(cfg: EndpointConfig, initial: nat, s: System)
    requires cfg.Valid()
  {
    && SingleDrainer(s)
    && CoreInv(cfg, initial, s.ep, PhaseOf(s), s.hist)
    && (PhaseOf(s).None? && !Kicking(s) ==> Drained(cfg, s.ep, s.hist))
  }
}
