// How the target's credits are divided among services and reach endpoints: the credit part of
// htc_wait_target, htc_setup_target_buffer_assignments and htc_get_credit_allocation of
// htc/htc.c, and the endpoint set-up of htc_connect_service of htc/htc_services.c.

module CreditAllocation {
  import opened Common
  import opened TxTypes
  import opened TxSpec
  import opened TxEngine
  import TxTheorems

  const HTC_MAX_SERVICE_ALLOC_ENTRIES := 8

  /** An entry of ServiceTxAllocTable. */
  datatype AllocEntry = AllocEntry(service: nat, credits: nat)

  /** The part of HTC_ENDPOINT that connecting a service writes; service 0 is an unused one. */
  datatype Slot = Slot(service: nat, txCredits: nat, maxMsgLength: nat, creditsPerMaxMsg: nat)

  /** What a uint8_t keeps of a number. */
  function Uint8(n: nat): nat { n % 256 }

  // ---------- the allocation table ----------

  /** The credits of the last entry for the service. */
  function AllocationOf(table: seq<AllocEntry>, service: nat): nat {
    if table == [] then 0
    else if table[|table| - 1].service == service then table[|table| - 1].credits
    else AllocationOf(table[..|table| - 1], service)
  }

  lemma {:induction false} LastMatchWins(table: seq<AllocEntry>, service: nat, k: nat)
    requires k < |table| && table[k].service == service
    requires forall i | k < i < |table| :: table[i].service != service
    ensures AllocationOf(table, service) == table[k].credits
  {
    if k < |table| - 1 {
      LastMatchWins(table[..|table| - 1], service, k);
    }
  }

  lemma {:induction false} NoMatchNoCredits(table: seq<AllocEntry>, service: nat)
    requires forall i | 0 <= i < |table| :: table[i].service != service
    ensures AllocationOf(table, service) == 0
  {
    if table != [] {
      NoMatchNoCredits(table[..|table| - 1], service);
    }
  }

  /** All the credits the table holds. */
  function TableSum(table: seq<AllocEntry>): nat {
    if table == [] then 0 else TableSum(table[..|table| - 1]) + table[|table| - 1].credits
  }

  /** The table without the entries of a service. */
  function Erase(table: seq<AllocEntry>, service: nat): seq<AllocEntry> {
    if table == [] then []
    else
      var last := table[|table| - 1];
      Erase(table[..|table| - 1], service) + [if last.service == service then AllocEntry(0, 0) else last]
  }

  /** What a service is given comes out of its own entries. */
  lemma {:induction false} EraseSplits(table: seq<AllocEntry>, service: nat, other: nat)
    requires other != service && other != 0
    ensures TableSum(Erase(table, service)) + AllocationOf(table, service) <= TableSum(table)
    ensures AllocationOf(Erase(table, service), other) == AllocationOf(table, other)
  {
    if table != [] {
      var front := table[..|table| - 1];
      EraseSplits(front, service, other);
      EraseSum(front, service);
      assert Erase(table, service)[..|Erase(front, service)|] == Erase(front, service);
    }
  }

  lemma {:induction false} EraseSum(table: seq<AllocEntry>, service: nat)
    ensures TableSum(Erase(table, service)) <= TableSum(table)
  {
    if table != [] {
      var front := table[..|table| - 1];
      EraseSum(front, service);
      assert Erase(table, service)[..|Erase(front, service)|] == Erase(front, service);
    }
  }

  /** `table` gives each of `services` its share and has no other entry. */
  ghost predicate Shares(table: seq<AllocEntry>, services: seq<nat>, share: nat) {
    && |services| < |table|
    && forall i | 0 <= i < |table| ::
         table[i] == if 1 <= i <= |services| then AllocEntry(services[i - 1], share) else AllocEntry(0, 0)
  }

  /** A service of the table gets the share, every other service gets nothing. */
  lemma ShareOf(table: seq<AllocEntry>, services: seq<nat>, share: nat, service: nat)
    requires Shares(table, services, share) && service != 0
    ensures AllocationOf(table, service) == if service in services then share else 0
  {
    if service in services {
      var k := LastIndex(services, service);
      LastMatchWins(table, service, k + 1);
    } else {
      NoMatchNoCredits(table, service);
    }
  }

  lemma {:induction false} LastIndex(s: seq<nat>, x: nat) returns (k: nat)
    requires x in s
    ensures k < |s| && s[k] == x && forall i | k < i < |s| :: s[i] != x
  {
    if s[|s| - 1] == x {
      k := |s| - 1;
    } else {
      k := LastIndex(s[..|s| - 1], x);
    }
  }

  /** The shares of n services never exceed what was divided, whatever the truncation. */
  lemma SharesFit(total: nat, n: nat)
    requires n > 0
    ensures n * Uint8(total / n) <= total
  {
    var q := total / n;
    assert total == q * n + total % n;
    MulMono(Uint8(q), q, n);
  }

  /** A table of shares holds one share for each service. */
  lemma {:induction false} SharesSum(table: seq<AllocEntry>, services: seq<nat>, share: nat, n: nat)
    requires Shares(table, services, share) && n <= |table|
    ensures TableSum(table[..n]) == (if n == 0 then 0 else if n <= |services| then n - 1 else |services|) * share
  {
    if n > 0 {
      SharesSum(table, services, share, n - 1);
      assert table[..n][..n - 1] == table[..n - 1];
      if 1 < n <= |services| + 1 {
        assert (n - 1) * share == (n - 2) * share + share;
      }
    }
  }

  /** The table after it was set up for `services`: rows beyond them stay as they were. */
  ghost function Assigned(table: seq<AllocEntry>, services: seq<nat>, share: nat): seq<AllocEntry> {
    seq(|table|, i requires 0 <= i < |table| =>
      if 1 <= i <= |services| then AllocEntry(services[i - 1], share) else table[i])
  }

  /** Where no row was set up beyond the services, the rows are the shares and nothing else. */
  lemma AssignedShares(table: seq<AllocEntry>, services: seq<nat>, share: nat)
    requires |services| < |table|
    requires forall i | 0 <= i < |table| && !(1 <= i <= |services|) :: table[i] == AllocEntry(0, 0)
    ensures Shares(Assigned(table, services, share), services, share)
  {
  }

  // ---------- endpoints ----------

  /** The credits of an endpoint in use; a reset endpoint keeps a number nobody uses. */
  function Usable(slot: Slot): nat {
    if slot.service == 0 then 0 else slot.txCredits
  }

  function Given(eps: seq<Slot>): nat {
    if eps == [] then 0 else Usable(eps[0]) + Given(eps[1..])
  }

  ghost function Elements(s: seq<nat>): set<nat> {
    set x | x in s
  }

  /** How many endpoints serve one of the services. */
  function Serving(eps: seq<Slot>, services: set<nat>): nat {
    if eps == [] then 0 else (if eps[0].service in services then 1 else 0) + Serving(eps[1..], services)
  }

  /** Every endpoint in use got its credits from the table, the control endpoint none. */
  ghost predicate Connected(eps: seq<Slot>, table: seq<AllocEntry>, control: nat) {
    forall i | 0 <= i < |eps| && eps[i].service != 0 ::
      eps[i].txCredits == if eps[i].service == control then 0 else AllocationOf(table, eps[i].service)
  }

  /** The endpoints were given one share for each endpoint that serves a WMI service. */
  lemma {:induction false} EndpointCreditsExact(eps: seq<Slot>, table: seq<AllocEntry>, control: nat,
                                                services: seq<nat>, share: nat)
    requires Connected(eps, table, control) && Shares(table, services, share)
    requires 0 !in services && control !in services
    ensures Given(eps) == Serving(eps, Elements(services)) * share
  {
    if eps != [] {
      EndpointCreditsExact(eps[1..], table, control, services, share);
      var n := Serving(eps[1..], Elements(services));
      if eps[0].service in services {
        ShareOf(table, services, share, eps[0].service);
        assert (n + 1) * share == n * share + share;
      } else if eps[0].service != 0 {
        ShareOf(table, services, share, eps[0].service);
      }
    }
  }

  ghost predicate ConnectedOnce(eps: seq<Slot>) {
    eps != [] ==>
      && (eps[0].service != 0 ==> forall i | 1 <= i < |eps| :: eps[i].service != eps[0].service)
      && ConnectedOnce(eps[1..])
  }

  /** However services are connected, if each is connected once then the endpoints are given
      at most what the table holds. */
  lemma {:induction false} GivenWithinTable(eps: seq<Slot>, table: seq<AllocEntry>, control: nat)
    requires Connected(eps, table, control) && ConnectedOnce(eps)
    ensures Given(eps) <= TableSum(table)
  {
    if eps != [] {
      var s := eps[0].service;
      if s == 0 || s == control {
        GivenWithinTable(eps[1..], table, control);
      } else {
        forall i | 0 <= i < |eps[1..]| && eps[1..][i].service != 0
          ensures AllocationOf(Erase(table, s), eps[1..][i].service) == AllocationOf(table, eps[1..][i].service)
        {
          assert eps[1..][i] == eps[i + 1];
          EraseSplits(table, s, eps[i + 1].service);
        }
        GivenWithinTable(eps[1..], Erase(table, s), control);
        EraseSplits(table, s, s + 1);
      }
    }
  }

  /** No service has two entries, and only a service has credits. */
  ghost predicate OneRowEach(table: seq<AllocEntry>, control: nat) {
    && (forall i | 0 <= i < |table| :: table[i].service != control && (table[i].service == 0 ==> table[i].credits == 0))
    && (forall i, j | 0 <= i < j < |table| :: table[i].service != 0 ==> table[j].service != table[i].service)
  }

  /** One endpoint for each entry of the table. */
  function Everyone(table: seq<AllocEntry>): seq<Slot> {
    if table == [] then []
    else [Slot(table[|table| - 1].service, table[|table| - 1].credits, 1, 1)] + Everyone(table[..|table| - 1])
  }

  lemma {:induction false} EveryoneAt(table: seq<AllocEntry>, i: nat)
    requires i < |table|
    ensures |Everyone(table)| == |table|
    ensures Everyone(table)[i] == Slot(table[|table| - 1 - i].service, table[|table| - 1 - i].credits, 1, 1)
  {
    if |table| > 1 {
      EveryoneAt(table[..|table| - 1], if i > 0 then i - 1 else 0);
    }
  }

  lemma {:induction false} EveryoneTakesAll(table: seq<AllocEntry>, control: nat)
    requires OneRowEach(table, control)
    ensures Given(Everyone(table)) == TableSum(table) && ConnectedOnce(Everyone(table))
  {
    if table != [] {
      var front, eps := table[..|table| - 1], Everyone(table);
      EveryoneTakesAll(front, control);
      forall i | 1 <= i < |eps| && eps[0].service != 0
        ensures eps[i].service != eps[0].service
      {
        EveryoneAt(front, 0);
        EveryoneAt(table, i);
      }
    }
  }

  lemma EveryoneConnected(table: seq<AllocEntry>, control: nat)
    requires OneRowEach(table, control)
    ensures Connected(Everyone(table), table, control)
  {
    var eps := Everyone(table);
    forall i | 0 <= i < |eps| && eps[i].service != 0
      ensures eps[i].txCredits == if eps[i].service == control then 0 else AllocationOf(table, eps[i].service)
    {
      if table != [] {
        EveryoneAt(table, 0);
        EveryoneAt(table, i);
        LastMatchWins(table, eps[i].service, |table| - 1 - i);
      }
    }
  }

  /** Services connected once are sure to stay within a total exactly if the table does. */
  lemma EndpointsFitIff(table: seq<AllocEntry>, control: nat, total: nat)
    requires OneRowEach(table, control)
    ensures TableSum(table) <= total
            <==> forall eps | Connected(eps, table, control) && ConnectedOnce(eps) :: Given(eps) <= total
  {
    EveryoneTakesAll(table, control);
    EveryoneConnected(table, control);
    forall eps | Connected(eps, table, control) && ConnectedOnce(eps)
      ensures Given(eps) <= TableSum(table)
    {
      GivenWithinTable(eps, table, control);
    }
  }

  /** With the shares htc_setup_target_buffer_assignments computes they do. */
  lemma EndpointsFit(eps: seq<Slot>, table: seq<AllocEntry>, control: nat, services: seq<nat>, total: nat)
    requires services != [] && Shares(table, services, Uint8(total / |services|))
    requires Connected(eps, table, control) && ConnectedOnce(eps)
    ensures Given(eps) <= total
  {
    GivenWithinTable(eps, table, control);
    SharesSum(table, services, Uint8(total / |services|), |table|);
    assert table[..|table|] == table;
    SharesFit(total, |services|);
  }

  // ---------- the credits outstanding at the target ----------

  /** Each endpoint runs from the credits it was given. */
  ghost predicate Running(cfgs: seq<EndpointConfig>, eps: seq<Slot>, runs: seq<seq<Event>>) {
    && |cfgs| == |eps| == |runs|
    && forall i | 0 <= i < |eps| :: cfgs[i].Valid() && TxTheorems.Legal(cfgs[i], Init(Usable(eps[i])), runs[i])
  }

  /** What the runs of all endpoints sent and the target did not report back. */
  ghost function Outstanding(cfgs: seq<EndpointConfig>, eps: seq<Slot>, runs: seq<seq<Event>>): int
    requires Running(cfgs, eps, runs)
  {
    if eps == [] then 0
    else
      var h := TxTheorems.After(cfgs[0], Usable(eps[0]), runs[0]).hist;
      Cost(h.handed) - h.reported + Outstanding(cfgs[1..], eps[1..], runs[1..])
  }

  lemma {:induction false} OutstandingWithin(cfgs: seq<EndpointConfig>, eps: seq<Slot>, runs: seq<seq<Event>>)
    requires Running(cfgs, eps, runs)
    ensures Outstanding(cfgs, eps, runs) <= Given(eps)
  {
    if eps != [] {
      TxTheorems.TargetNotOversubscribed(cfgs[0], Usable(eps[0]), runs[0]);
      OutstandingWithin(cfgs[1..], eps[1..], runs[1..]);
    }
  }

  /** However the senders, completions and reports of all endpoints interleave, the target is
      never sent more than the credits it announced. */
  lemma TargetCreditsSuffice(cfgs: seq<EndpointConfig>, eps: seq<Slot>, runs: seq<seq<Event>>,
                             table: seq<AllocEntry>, control: nat, services: seq<nat>, total: nat)
    requires Running(cfgs, eps, runs)
    requires services != [] && Shares(table, services, Uint8(total / |services|))
    requires Connected(eps, table, control) && ConnectedOnce(eps)
    ensures Outstanding(cfgs, eps, runs) <= total
  {
    OutstandingWithin(cfgs, eps, runs);
    EndpointsFit(eps, table, control, services, total);
  }

  // ---------- the largest message ----------

  /** TxCreditsPerMaxMsg is the least number of credits that covers a maximum message. */
  lemma CreditsPerMaxMsgIsLeast(maxMsgLength: nat, creditSize: nat, m: nat)
    requires creditSize > 0
    ensures m >= TxTheorems.CreditsPerMaxMsg(maxMsgLength, creditSize) <==> m * creditSize >= maxMsgLength
  {
    var c, n := creditSize, TxTheorems.CreditsPerMaxMsg(maxMsgLength, creditSize);
    assert maxMsgLength == maxMsgLength / c * c + maxMsgLength % c;
    assert n * c >= maxMsgLength && (n >= 1 ==> (n - 1) * c < maxMsgLength) by {
      assert (maxMsgLength / c + 1) * c == maxMsgLength / c * c + c;
      if n >= 1 && maxMsgLength % c == 0 {
        assert (n - 1) * c == n * c - c;
      }
    }
    if m < n {
      MulMono(m, n - 1, c);
    } else {
      MulMono(n, m, c);
    }
  }

  // ---------- the target object ----------

  datatype ConnectResult = Attached(endpoint: nat) | Rejected

  /** What the target answers to a connect request. */
  datatype Response = Response(endpoint: nat, maxMsgSize: nat)

  class Target {
    const wmiServices: seq<nat>    // svc_id
    const control: nat             // HTC_CTRL_RSVD_SVC
    const controlLength: nat       // HTC_MAX_CONTROL_MESSAGE_LENGTH
    var wmiEpCount: nat
    var totalTransmitCredits: nat
    var targetCreditSize: nat
    const allocTable: array<AllocEntry>
    const endpoints: array<Slot>

    ghost predicate Valid()
      reads this
    {
      && allocTable.Length == HTC_MAX_SERVICE_ALLOC_ENTRIES && endpoints.Length > 0
      && 0 < |wmiServices| < HTC_MAX_SERVICE_ALLOC_ENTRIES
      && 0 !in wmiServices && control !in wmiServices && control != 0 && controlLength > 0
    }

    /** The services the table is set up for. */
    ghost function Services(): seq<nat>
      reads this
    {
      if 0 < wmiEpCount <= |wmiServices| then wmiServices[..wmiEpCount] else []
    }

    /** What one of these services is given. */
    ghost function Share(): nat
      reads this
    {
      if Services() == [] then 0 else Uint8(totalTransmitCredits / |Services()|)
    }

    ghost predicate AllUnused()
      reads endpoints
    {
      forall i | 0 <= i < endpoints.Length :: endpoints[i].service == 0
    }

    /** htc_create: a zeroed target whose endpoints are unused. */
    constructor (wmiServices: seq<nat>, control: nat, controlLength: nat, endpointMax: nat)
      requires 0 < |wmiServices| < HTC_MAX_SERVICE_ALLOC_ENTRIES && endpointMax > 0 && controlLength > 0
      requires 0 !in wmiServices && control !in wmiServices && control != 0
      ensures Valid() && fresh(allocTable) && fresh(endpoints)
      ensures this.wmiServices == wmiServices && this.control == control && this.controlLength == controlLength
      ensures endpoints.Length == endpointMax && wmiEpCount == 1 && AllUnused()
      ensures forall i | 0 <= i < allocTable.Length :: allocTable[i] == AllocEntry(0, 0)
    {
      this.wmiServices, this.control, this.controlLength := wmiServices, control, controlLength;
      wmiEpCount, totalTransmitCredits, targetCreditSize := 1, 0, 0;
      allocTable := new AllocEntry[HTC_MAX_SERVICE_ALLOC_ENTRIES](_ => AllocEntry(0, 0));
      endpoints := new Slot[endpointMax](_ => Slot(0, 0, 0, 0));
    }

    /** htc_set_wmi_endpoint_count. */
    method SetWmiEndpointCount(count: nat)
      modifies this`wmiEpCount
      ensures wmiEpCount == count
    {
      wmiEpCount := count;
    }

    /** reset_endpoint_states: the endpoints are unused again but keep their credits. */
    method ResetEndpointStates()
      modifies endpoints
      ensures AllUnused()
      ensures forall i | 0 <= i < endpoints.Length ::
        endpoints[i] == old(endpoints[i]).(service := 0, maxMsgLength := 0)
    {
      for i := 0 to endpoints.Length
        invariant forall k | 0 <= k < endpoints.Length ::
          endpoints[k] == if k < i then old(endpoints[k]).(service := 0, maxMsgLength := 0) else old(endpoints[k])
      {
        endpoints[i] := endpoints[i].(service := 0, maxMsgLength := 0);
      }
    }

    static lemma {:induction false} UnusedOnce(eps: seq<Slot>)
      requires forall i | 0 <= i < |eps| :: eps[i].service == 0
      ensures ConnectedOnce(eps)
    {
      if eps != [] {
        UnusedOnce(eps[1..]);
      }
    }

    /** htc_setup_target_buffer_assignments, not in epping mode. */
    method SetupAssignments() returns (ok: bool)
      requires Valid()
      modifies allocTable
      ensures ok <==> 0 < wmiEpCount <= |wmiServices|
      ensures allocTable[..] == Assigned(old(allocTable[..]), Services(), Share())
    {
      var entry := 0;
      if wmiEpCount == 0 || wmiEpCount > |wmiServices| {
        return false;
      }
      var credits := totalTransmitCredits / wmiEpCount;
      for i := 0 to wmiEpCount
        invariant entry == i
        invariant forall k | 0 <= k < allocTable.Length ::
          allocTable[k] == if 1 <= k <= i then AllocEntry(wmiServices[k - 1], Uint8(credits)) else old(allocTable[k])
      {
        entry := entry + 1;
        allocTable[entry] := AllocEntry(wmiServices[i], Uint8(credits));
      }
      ok := true;
    }

    /** With such a table and every service connected once, the endpoints stay within the total. */
    lemma StartedFits()
      requires Valid() && Shares(allocTable[..], Services(), Share())
      requires Connected(endpoints[..], allocTable[..], control) && ConnectedOnce(endpoints[..])
      ensures Given(endpoints[..]) <= totalTransmitCredits
    {
      if Services() == [] {
        GivenWithinTable(endpoints[..], allocTable[..], control);
        SharesSum(allocTable[..], [], 0, allocTable.Length);
        assert allocTable[..][..allocTable.Length] == allocTable[..];
      } else {
        EndpointsFit(endpoints[..], allocTable[..], control, Services(), totalTransmitCredits);
      }
    }

    /** htc_get_credit_allocation. */
    method GetCreditAllocation(service: nat) returns (allocation: nat)
      requires Valid()
      ensures allocation == AllocationOf(allocTable[..], service)
    {
      allocation := 0;
      for i := 0 to HTC_MAX_SERVICE_ALLOC_ENTRIES
        invariant allocation == AllocationOf(allocTable[..i], service)
      {
        assert allocTable[..i + 1][..i] == allocTable[..i];
        if allocTable[i].service == service {
          allocation := allocTable[i].credits;
        }
      }
      assert allocTable[..HTC_MAX_SERVICE_ALLOC_ENTRIES] == allocTable[..];
    }

    /** The endpoint a connect request sets up. */
    ghost function NewSlot(service: nat, maxMsgSize: nat): Slot
      requires targetCreditSize > 0
      reads this, allocTable
    {
      Slot(service, if service == control then 0 else AllocationOf(allocTable[..], service), maxMsgSize,
           TxTheorems.CreditsPerMaxMsg(maxMsgSize, targetCreditSize))
    }

    /** The answer to a connect request; the control service is not asked for. */
    function Answered(service: nat, response: Option<Response>): Option<Response> {
      if service == control then Some(Response(0, controlLength)) else response
    }

    /** The request gets an endpoint that is there and unused. */
    predicate Taken(service: nat, response: Option<Response>)
      reads endpoints
    {
      var r := Answered(service, response);
      r.Some? && r.value.endpoint < endpoints.Length && r.value.maxMsgSize != 0
      && endpoints[r.value.endpoint].service == 0
    }

    /** htc_connect_service: `response` is the target's answer, absent if the exchange fails;
        `piped` says whether HIF maps the service to a pipe.  An endpoint whose service cannot be
        mapped stays set up. */
    method ConnectService(service: nat, response: Option<Response>, piped: bool) returns (result: ConnectResult)
      requires Valid() && service != 0 && targetCreditSize > 0
      modifies endpoints
      ensures var e := Answered(service, response);
        && (result == if old(Taken(service, response)) && piped then Attached(e.value.endpoint) else Rejected)
        && endpoints[..] ==
           if old(Taken(service, response))
           then old(endpoints[..])[e.value.endpoint := NewSlot(service, e.value.maxMsgSize)]
           else old(endpoints[..])
    {
      var assignedEndpoint, maxMsgSize, txAlloc := endpoints.Length, 0, 0;
      if service == control {
        assignedEndpoint, maxMsgSize, txAlloc := 0, controlLength, 0;
      } else {
        txAlloc := GetCreditAllocation(service);
        if response.None? {
          return Rejected;
        }
        assignedEndpoint, maxMsgSize := response.value.endpoint, response.value.maxMsgSize;
      }
      if assignedEndpoint >= endpoints.Length || maxMsgSize == 0 || endpoints[assignedEndpoint].service != 0 {
        return Rejected;
      }
      var perMaxMsg := maxMsgSize / targetCreditSize;
      if maxMsgSize % targetCreditSize != 0 {
        perMaxMsg := perMaxMsg + 1;
      }
      endpoints[assignedEndpoint] := Slot(service, txAlloc, maxMsgSize, perMaxMsg);
      result := if piped then Attached(assignedEndpoint) else Rejected;
    }

    /** An endpoint set up for a service not connected so far keeps services connected once. */
    static lemma {:induction false} StillOnce(eps: seq<Slot>, k: nat, slot: Slot)
      requires ConnectedOnce(eps) && k < |eps| && forall i | 0 <= i < |eps| :: eps[i].service != slot.service
      ensures ConnectedOnce(eps[k := slot])
    {
      if k > 0 {
        StillOnce(eps[1..], k - 1, slot);
        assert eps[k := slot][1..] == eps[1..][k - 1 := slot];
      } else {
        assert eps[k := slot][1..] == eps[1..];
      }
    }

    /** The credit part of htc_wait_target: `configured` caps what the target announces.  The
        result of the assignments is not looked at. */
    method WaitTarget(announced: nat, creditSize: nat, configured: nat, piped: bool) returns (ok: bool)
      requires Valid()
      modifies this`totalTransmitCredits, this`targetCreditSize, allocTable, endpoints
      ensures targetCreditSize == creditSize
      ensures totalTransmitCredits == if configured == 0 || announced < configured then announced else configured
      ensures ok <==> announced > 0 && creditSize > 0 && old(endpoints[0]).service == 0 && piped
      ensures allocTable[..]
              == if announced > 0 && creditSize > 0
                 then Assigned(old(allocTable[..]), Services(), Share()) else old(allocTable[..])
      ensures endpoints[..]
              == if announced > 0 && creditSize > 0 && old(endpoints[0]).service == 0
                 then old(endpoints[..])[0 := NewSlot(control, controlLength)] else old(endpoints[..])
    {
      totalTransmitCredits := announced;
      if configured != 0 && configured < totalTransmitCredits {
        totalTransmitCredits := configured;
      }
      targetCreditSize := creditSize;
      if totalTransmitCredits == 0 || targetCreditSize == 0 {
        return false;
      }
      var _ := SetupAssignments();
      var result := ConnectService(control, None, piped);
      ok := result.Attached?;
    }
  }

  // ---------- from creation to the last connected service ----------

  /** A service a driver connects, with what target and HIF answer. */
  datatype Request = Request(service: nat, response: Option<Response>, piped: bool)

  ghost predicate DistinctRequests(requests: seq<Request>, control: nat) {
    && (forall i | 0 <= i < |requests| :: requests[i].service != 0 && requests[i].service != control)
    && (forall i, j | 0 <= i < j < |requests| :: requests[i].service != requests[j].service)
  }

  /** The endpoints in use serve the control service or a request handled so far, each once. */
  ghost predicate Handled(eps: seq<Slot>, control: nat, requests: seq<Request>, n: nat) {
    && ConnectedOnce(eps)
    && forall k | 0 <= k < |eps| ::
         || eps[k].service == 0 || eps[k].service == control
         || exists j | 0 <= j < n && j < |requests| :: requests[j].service == eps[k].service
  }

  /** Handling the next request. */
  lemma HandleNext(eps: seq<Slot>, table: seq<AllocEntry>, control: nat, requests: seq<Request>, n: nat, k: nat,
                   slot: Slot)
    requires Handled(eps, control, requests, n) && DistinctRequests(requests, control) && Connected(eps, table, control)
    requires n < |requests| && k < |eps| && slot.service == requests[n].service
    requires slot.txCredits == AllocationOf(table, slot.service)
    ensures Handled(eps, control, requests, n + 1)
    ensures Handled(eps[k := slot], control, requests, n + 1) && Connected(eps[k := slot], table, control)
  {
    Target.StillOnce(eps, k, slot);
    assert requests[n].service == slot.service;
  }

  /** Connects services one after the other. */
  method ConnectAll(t: Target, requests: seq<Request>)
    requires t.Valid() && t.targetCreditSize > 0 && DistinctRequests(requests, t.control)
    requires Connected(t.endpoints[..], t.allocTable[..], t.control) && Handled(t.endpoints[..], t.control, requests, 0)
    modifies t.endpoints
    ensures Connected(t.endpoints[..], t.allocTable[..], t.control) && ConnectedOnce(t.endpoints[..])
  {
    ghost var table := t.allocTable[..];
    for i := 0 to |requests|
      invariant t.allocTable[..] == table
      invariant Connected(t.endpoints[..], table, t.control) && Handled(t.endpoints[..], t.control, requests, i)
    {
      var r := requests[i];
      ghost var k := if r.response.Some? && r.response.value.endpoint < t.endpoints.Length
                     then r.response.value.endpoint else 0;
      ghost var slot := t.NewSlot(r.service, if r.response.Some? then r.response.value.maxMsgSize else 0);
      HandleNext(t.endpoints[..], table, t.control, requests, i, k, slot);
      var result := t.ConnectService(r.service, r.response, r.piped);
    }
  }

  /** A new target is started and services are connected one after the other, each asked for
      once: whatever target and HIF answer, and however the endpoints then run, the target is
      never sent more than the credits it announced. */
  method StartTarget(wmiServices: seq<nat>, control: nat, controlLength: nat, endpointMax: nat, count: nat,
                     announced: nat, creditSize: nat, configured: nat, requests: seq<Request>)
    returns (t: Target, ok: bool)
    requires 0 < |wmiServices| < HTC_MAX_SERVICE_ALLOC_ENTRIES && endpointMax > 0 && controlLength > 0
    requires 0 !in wmiServices && control !in wmiServices && control != 0
    requires DistinctRequests(requests, control)
    ensures fresh(t) && fresh(t.endpoints) && (ok <==> announced > 0 && creditSize > 0)
    ensures ok ==> t.totalTransmitCredits <= announced
    ensures ok ==> forall cfgs, runs | Running(cfgs, t.endpoints[..], runs) ::
                     Outstanding(cfgs, t.endpoints[..], runs) <= t.totalTransmitCredits
  {
    t := new Target(wmiServices, control, controlLength, endpointMax);
    t.SetWmiEndpointCount(count);
    ghost var unset, unused := t.allocTable[..], t.endpoints[..];
    ok := t.WaitTarget(announced, creditSize, configured, true);
    if !ok {
      return;
    }
    AssignedShares(unset, t.Services(), t.Share());
    Target.UnusedOnce(unused);
    Target.StillOnce(unused, 0, t.endpoints[0]);
    ConnectAll(t, requests);
    t.StartedFits();
    forall cfgs, runs | Running(cfgs, t.endpoints[..], runs)
      ensures Outstanding(cfgs, t.endpoints[..], runs) <= t.totalTransmitCredits
    {
      OutstandingWithin(cfgs, t.endpoints[..], runs);
    }
  }

  /** A service connected twice can be given more than the target has. */
  method TwiceConnectedOversubscribes() returns (t: Target)
    ensures fresh(t) && Given(t.endpoints[..]) > t.totalTransmitCredits
  {
    t := new Target([7], 1, 100, 3);
    ghost var unset := t.allocTable[..];
    var ok := t.WaitTarget(10, 100, 0, true);
    AssignedShares(unset, t.Services(), t.Share());
    ShareOf(t.allocTable[..], [7], 10, 7);
    var first := t.ConnectService(7, Some(Response(1, 100)), true);
    var second := t.ConnectService(7, Some(Response(2, 100)), true);
    GivenThree(t.endpoints[..]);
  }

  lemma GivenThree(eps: seq<Slot>)
    requires |eps| == 3
    ensures Given(eps) == Usable(eps[0]) + Usable(eps[1]) + Usable(eps[2])
    ensures eps[0].service != eps[1].service && eps[0].service != eps[2].service && eps[1].service != eps[2].service
            ==> ConnectedOnce(eps)
  {
    assert eps[1..][1..] == eps[2..] && eps[2..][1..] == [];
    assert Given(eps[2..]) == Usable(eps[2]) + Given(eps[2..][1..]);
    assert Given(eps[1..]) == Usable(eps[1]) + Given(eps[2..]);
    assert ConnectedOnce([]) && ConnectedOnce(eps[2..]);
    assert eps[1].service != eps[2].service ==> ConnectedOnce(eps[1..]);
  }

  /** The table after a start with two WMI services and a restart with one. */
  lemma StaleRow(unset: seq<AllocEntry>)
    requires |unset| == HTC_MAX_SERVICE_ALLOC_ENTRIES && forall i | 0 <= i < |unset| :: unset[i] == AllocEntry(0, 0)
    ensures var table := Assigned(Assigned(unset, [7, 8], 5), [7], 10);
      AllocationOf(table, 7) == 10 && AllocationOf(table, 8) == 5
  {
    var table := Assigned(Assigned(unset, [7, 8], 5), [7], 10);
    LastMatchWins(table, 7, 1);
    LastMatchWins(table, 8, 2);
  }

  method ConnectTwo(t: Target)
    requires t.Valid() && t.control == 1 && t.endpoints.Length == 3 && t.targetCreditSize > 0
    requires t.endpoints[0].service == 1 && t.endpoints[0].txCredits == 0
    requires t.endpoints[1].service == 0 && t.endpoints[2].service == 0
    requires AllocationOf(t.allocTable[..], 7) == 10 && AllocationOf(t.allocTable[..], 8) == 5
    modifies t.endpoints
    ensures ConnectedOnce(t.endpoints[..]) && Given(t.endpoints[..]) == 15
  {
    var first := t.ConnectService(7, Some(Response(1, 100)), true);
    var second := t.ConnectService(8, Some(Response(2, 100)), true);
    GivenThree(t.endpoints[..]);
  }

  /** A target with two WMI services, started and stopped again. */
  method StartAndStop() returns (t: Target, ghost unset: seq<AllocEntry>)
    ensures fresh(t) && fresh(t.endpoints) && fresh(t.allocTable) && t.Valid()
    ensures t.wmiServices == [7, 8] && t.control == 1 && t.endpoints.Length == 3 && t.AllUnused()
    ensures |unset| == HTC_MAX_SERVICE_ALLOC_ENTRIES && forall i | 0 <= i < |unset| :: unset[i] == AllocEntry(0, 0)
    ensures t.allocTable[..] == Assigned(unset, [7, 8], 5)
  {
    t := new Target([7, 8], 1, 100, 3);
    unset := t.allocTable[..];
    t.SetWmiEndpointCount(2);
    var started := t.WaitTarget(10, 100, 0, true);
    assert t.Services() == [7, 8];
    t.ResetEndpointStates();
  }

  /** So can a restart with fewer WMI endpoints: the rows of the services no longer counted
      keep what they were given before. */
  method FewerEndpointsOversubscribe() returns (t: Target)
    ensures fresh(t) && ConnectedOnce(t.endpoints[..]) && Given(t.endpoints[..]) > t.totalTransmitCredits
  {
    ghost var unset;
    t, unset := StartAndStop();
    StaleRow(unset);
    t.SetWmiEndpointCount(1);
    var restarted := t.WaitTarget(10, 100, 0, true);
    assert t.Services() == [7];
    ConnectTwo(t);
  }
}
