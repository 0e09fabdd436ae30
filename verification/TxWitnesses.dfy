// Legal runs that show where the transmit engine falls short: leaked credits, and runtime-PM
// references that are put too often.

module TxWitnesses {
  import opened Common
  import opened TxTypes
  import opened TxSpec
  import opened TxEngine
  import opened TxTheorems

  const WITNESS := EndpointConfig(false, true, true, 100, 1, 8, 10, false, false)
  const PLENTY := DrainEnv(0, 10)

  lemma AdmitOne(p: TxPacket)
    ensures Admit(WITNESS, [p], 0, 0, {}) == Admission([p], [], false)
  {
    assert [p][..1] == [p] && [p][1..] == [] && [p] + [] == [p];
  }

  function ChargedOne(p: TxPacket, left: int): TxPacket {
    p.(creditsUsed := 1, needCreditUpdate := left <= 1)
  }

  /** The drain of a queue that holds just `p`. */
  lemma DrainOne(ep: Endpoint, p: TxPacket)
    requires ep.txQueue == [p] && p.length == 10 && ep.credits >= 1
    ensures DrainTop(WITNESS, ep, PLENTY)
            == Got(ep.(txQueue := [], credits := ep.credits - 1,
                       pmRefs := ep.pmRefs + if p.tag == AutoPm then 0 else 1),
                   [ChargedOne(p, ep.credits - 1)], false)
  {
    assert Pm([p]) == (if p.tag == AutoPm then [p] else []) && NonPm([p]) == (if p.tag == AutoPm then [] else [p]);
    assert CreditsRequired(WITNESS, p) == 1;
    assert Grab(WITNESS, [p], ep.credits, p.tag != AutoPm, 10)
           == Grabbed([ChargedOne(p, ep.credits - 1)], [], ep.credits - 1, false);
  }

  /** The endpoint after it took the lone packet `p` up for sending. */
  function TookUp(ep: Endpoint, p: TxPacket): Endpoint {
    ep.(txQueue := [], credits := ep.credits - 1, processCount := 1,
        pmRefs := ep.pmRefs + if p.tag == AutoPm then 0 else 1)
  }

  /** An idle endpoint takes up the only packet its TX queue then holds. */
  lemma AttemptOne(ep: Endpoint, h: History, admitted: seq<TxPacket>, p: TxPacket)
    requires ep.txQueue + admitted == [p] && ep.processCount == 0 && ep.credits >= 1 && p.length == 10
    ensures Attempt(WITNESS, ep, h, 0, admitted, false, PLENTY)
            == Outcome(TookUp(ep, p), Some(Drain(Issuing([ChargedOne(p, ep.credits - 1)]))),
                       h.(accepted := h.accepted + admitted, drainer := Some(0)))
  {
    DrainOne(Queued(ep, admitted, false), p);
  }

  ghost predicate Idle(s: System) {
    s.threads == map[] && s.ep.processCount == 0 && s.ep.credits >= 1
  }

  /** The state after a lone packet was offered to an idle endpoint. */
  function OfferedOne(s: System, p: TxPacket): System {
    System(TookUp(s.ep, p), map[0 := Drain(Issuing([ChargedOne(p, s.ep.credits - 1)]))],
           s.hist.(offered := s.hist.offered + multiset{p.netbuf}, accepted := s.hist.accepted + [p],
                   drainer := Some(0)))
  }

  lemma OfferOne(s: System, p: TxPacket)
    requires Idle(s) && s.ep.txQueue == [] && p.length == 10 && Free(s.hist, p.netbuf)
    ensures var e := TrySend(0, [p], 0, 0, {}, false, PLENTY);
      Enabled(WITNESS, s, e) && Next(WITNESS, s, e) == OfferedOne(s, p)
  {
    assert Ids([p]) == multiset{p.netbuf} && [] + [p] == [p];
    AdmitOne(p);
    var h := Offered(s.hist, [p], []);
    assert h == s.hist.(offered := s.hist.offered + multiset{p.netbuf});
    AttemptOne(s.ep, h, [p], p);
  }

  ghost predicate Holding(s: System, p: TxPacket) {
    && s.threads == map[0 := Drain(Issuing([p]))]
    && s.ep.txQueue == []
  }

  /** After the drainer of a lone packet failed to map it and put it back. */
  function PutBackOne(s: System, p: TxPacket): System {
    System(s.ep.(txQueue := [p], processCount := 0, pmRefs := s.ep.pmRefs - 1), map[],
           s.hist.(leaked := s.hist.leaked + p.creditsUsed, pmOver := s.hist.pmOver + |Pm([p])|,
                   stalled := true, drainer := None))
  }

  /** The run leads from `s0` to `s`. */
  ghost predicate Leads(s0: System, run: seq<Event>, s: System) {
    Legal(WITNESS, s0, run) && Exec(WITNESS, s0, run) == s
  }

  lemma Onwards(s0: System, run: seq<Event>, s: System, e: Event)
    requires Leads(s0, run, s) && Enabled(WITNESS, s, e)
    ensures Leads(s0, run + [e], Next(WITNESS, s, e))
  {
    Snoc(WITNESS, s0, run, e);
  }

  lemma MapFailed1(s: System, p: TxPacket)
    requires Holding(s, p)
    ensures var e := IssueFails(0, MapFailed);
      Enabled(WITNESS, s, e) && Next(WITNESS, s, e) == System(s.ep, map[0 := Drain(Failed([p], false))], s.hist)
  {
  }

  lemma PutBack1(s: System, p: TxPacket)
    requires Holding(s, p)
    ensures var s1 := System(s.ep, map[0 := Drain(Failed([p], false))], s.hist);
      Enabled(WITNESS, s1, PutBack(0)) && Next(WITNESS, s1, PutBack(0)) == PutBackOne(s, p)
  {
    assert [p] + [] == [p];
    assert Cost([p]) == p.creditsUsed;
  }

  lemma MapFailsOne(s0: System, run: seq<Event>, s: System, p: TxPacket) returns (more: seq<Event>)
    requires Leads(s0, run, s) && Holding(s, p)
    ensures Leads(s0, more, PutBackOne(s, p))
  {
    MapFailed1(s, p);
    Onwards(s0, run, s, IssueFails(0, MapFailed));
    more := run + [IssueFails(0, MapFailed)];
    PutBack1(s, p);
    Onwards(s0, more, System(s.ep, map[0 := Drain(Failed([p], false))], s.hist), PutBack(0));
    more := more + [PutBack(0)];
  }

  /** The reference a RUNTIME_PUT packet gives back when sent. */
  function Early(p: TxPacket): nat {
    if p.tag == RuntimePut then 1 else 0
  }

  /** After the drainer of a lone packet handed it to HIF and left. */
  function SentOne(s: System, p: TxPacket): System {
    System(RecordSend(s.ep, p).(processCount := 0, pmRefs := s.ep.pmRefs - Early(p)), map[],
           s.hist.(handed := s.hist.handed + [p], inHif := s.hist.inHif + multiset{p.netbuf},
                   pmEarly := s.hist.pmEarly + Early(p), stalled := false, drainer := None))
  }

  function RecordedOne(s: System, p: TxPacket): System {
    System(RecordSend(s.ep, p), map[0 := Drain(Sending(p, []))], s.hist)
  }

  function TakenOne(s: System, p: TxPacket): System {
    System(RecordSend(s.ep, p).(pmRefs := s.ep.pmRefs - Early(p)), map[0 := Drain(Issuing([]))],
           s.hist.(handed := s.hist.handed + [p], inHif := s.hist.inHif + multiset{p.netbuf},
                   pmEarly := s.hist.pmEarly + Early(p)))
  }

  lemma Record1(s: System, p: TxPacket)
    requires Holding(s, p)
    ensures Enabled(WITNESS, s, Record(0)) && Next(WITNESS, s, Record(0)) == RecordedOne(s, p)
  {
    assert [p][1..] == [];
  }

  lemma HifAccepts1(s: System, p: TxPacket)
    requires Holding(s, p)
    ensures Enabled(WITNESS, RecordedOne(s, p), HifAccepts(0))
    ensures Next(WITNESS, RecordedOne(s, p), HifAccepts(0)) == TakenOne(s, p)
  {
  }

  lemma Continue1(s: System, p: TxPacket)
    requires Holding(s, p)
    ensures Enabled(WITNESS, TakenOne(s, p), Continue(0, PLENTY))
    ensures Next(WITNESS, TakenOne(s, p), Continue(0, PLENTY)) == SentOne(s, p)
  {
  }

  lemma SendsOne(s0: System, run: seq<Event>, s: System, p: TxPacket) returns (more: seq<Event>)
    requires Leads(s0, run, s) && Holding(s, p)
    ensures Leads(s0, more, SentOne(s, p))
  {
    Record1(s, p);
    Onwards(s0, run, s, Record(0));
    more := run + [Record(0)];
    HifAccepts1(s, p);
    Onwards(s0, more, RecordedOne(s, p), HifAccepts(0));
    more := more + [HifAccepts(0)];
    Continue1(s, p);
    Onwards(s0, more, TakenOne(s, p), Continue(0, PLENTY));
    more := more + [Continue(0, PLENTY)];
  }

  /** One failed map of an AUTO_PM packet leaves a runtime-PM put without a get. */
  lemma FailedPmSendOverPuts() returns (run: seq<Event>)
    ensures Legal(WITNESS, Init(1), run)
    ensures var s := After(WITNESS, 1, run);
      s.threads == map[] && s.ep.lookup == [] && s.ep.pmRefs == -1
  {
    var p := TxPacket(1, 10, AutoPm, 1, 0, false);
    var offer := TrySend(0, [p], 0, 0, {}, false, PLENTY);
    OfferOne(Init(1), p);
    Onwards(Init(1), [], Init(1), offer);
    run := MapFailsOne(Init(1), [] + [offer], OfferedOne(Init(1), p), ChargedOne(p, 0));
  }

  lemma Completes1(s: System, p: TxPacket)
    requires s.ep.lookup == [p] && p.netbuf in s.hist.inHif && p.tag != AutoPm
    ensures var e := HifCompletes(p.netbuf);
      && Enabled(WITNESS, s, e)
      && Next(WITNESS, s, e).ep == s.ep.(lookup := [], outstanding := s.ep.outstanding - 1, pmRefs := s.ep.pmRefs - 1)
      && Next(WITNESS, s, e).threads == s.threads
  {
    assert [p][1..] == [];
  }

  /** One RUNTIME_PUT packet, sent and completed without any failure, leaves a put without a
      get: it gives its reference back when sent and again when completed. */
  lemma RuntimePutPutsTwice() returns (run: seq<Event>)
    ensures Legal(WITNESS, Init(1), run)
    ensures var s := After(WITNESS, 1, run);
      s.threads == map[] && s.ep.lookup == [] && s.ep.pmRefs == -1
  {
    var p := TxPacket(1, 10, RuntimePut, 1, 0, false);
    var offer := TrySend(0, [p], 0, 0, {}, false, PLENTY);
    OfferOne(Init(1), p);
    Onwards(Init(1), [], Init(1), offer);
    run := SendsOne(Init(1), [] + [offer], OfferedOne(Init(1), p), ChargedOne(p, 0));
    var sent := SentOne(OfferedOne(Init(1), p), ChargedOne(p, 0));
    Completes1(sent, ChargedOne(p, 0));
    Onwards(Init(1), run, sent, HifCompletes(1));
    run := run + [HifCompletes(1)];
  }

  /** A kick with one packet queued makes that packet the drainer's. */
  lemma RetryOne(s: System, p: TxPacket)
    requires Idle(s) && s.ep.txQueue == [p] && p.length == 10
    ensures var e := TrySendNull(0, PLENTY);
      && Enabled(WITNESS, s, e)
      && Next(WITNESS, s, e)
         == System(TookUp(s.ep, p), map[0 := Drain(Issuing([ChargedOne(p, s.ep.credits - 1)]))],
                   s.hist.(drainer := Some(0)))
  {
    assert [p] + [] == [p] && s.hist.accepted + [] == s.hist.accepted;
    AttemptOne(s.ep, s.hist, [], p);
  }

  /** A leaked credit can hide starvation: with three credits, one packet sent and one that
      fails to map twice, the head of the TX queue waits for a credit although the target was
      never asked for one, and no thread is left that would ask. */
  lemma LeakHidesStarvation() returns (run: seq<Event>)
    ensures Legal(WITNESS, Init(3), run)
    ensures var s := After(WITNESS, 3, run);
      && s.threads == map[] && s.hist.leaked > 0 && s.hist.handed != []
      && s.ep.txQueue != [] && Blocked(WITNESS, s.ep.txQueue[0], s.ep.credits)
      && !s.hist.handed[|s.hist.handed| - 1].needCreditUpdate
  {
    var p, q := TxPacket(1, 10, Ordinary, 1, 0, false), TxPacket(2, 10, Ordinary, 1, 0, false);
    var offerP, offerQ := TrySend(0, [p], 0, 0, {}, false, PLENTY), TrySend(0, [q], 0, 0, {}, false, PLENTY);
    var retry := TrySendNull(0, PLENTY);
    OfferOne(Init(3), p);
    Onwards(Init(3), [], Init(3), offerP);
    run := SendsOne(Init(3), [] + [offerP], OfferedOne(Init(3), p), ChargedOne(p, 2));
    var sent := SentOne(OfferedOne(Init(3), p), ChargedOne(p, 2));

    OfferOne(sent, q);
    Onwards(Init(3), run, sent, offerQ);
    run := MapFailsOne(Init(3), run + [offerQ], OfferedOne(sent, q), ChargedOne(q, 1));
    var failed := PutBackOne(OfferedOne(sent, q), ChargedOne(q, 1));

    RetryOne(failed, ChargedOne(q, 1));
    Onwards(Init(3), run, failed, retry);
    run := MapFailsOne(Init(3), run + [retry], Next(WITNESS, failed, retry), ChargedOne(q, 0));
  }
}
