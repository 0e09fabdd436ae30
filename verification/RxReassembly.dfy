// Scatter-gather reassembly of received frames: the reassembly part of
// htc_rx_completion_handler, and rx_sg_to_single_netbuf, of htc/htc_recv.c.

module RxReassembly {
  import opened Common
  import Trailers

  type byte = Trailers.byte

  /** HTC_FRAME_HDR: its length, and how its fields are read. */
  datatype Format = Format(
    headerLength: nat,
    endpointMax: nat,
    payloadLength: seq<byte> -> nat,
    endpoint: seq<byte> -> nat)
  {
    ghost predicate Valid() {
      0 < headerLength < 0x1_0000 && forall h {:trigger payloadLength(h)} :: payloadLength(h) < 0x1_0000
    }
  }

  /** RxSgQueue and the length it waits for, or no frame in progress. */
  datatype Sg = Idle | Gathering(queue: seq<seq<byte>>, expected: nat)

  /** What becomes of a netbuf: queued, passed on as a frame, or dropped. */
  datatype Outcome = Queued | Delivered(frame: seq<byte>) | BadEndpoint | NoBuffer

  function Total(pieces: seq<seq<byte>>): nat {
    if pieces == [] then 0 else |pieces[0]| + Total(pieces[1..])
  }

  lemma {:induction false} JoinLength(pieces: seq<seq<byte>>)
    ensures |Flatten(pieces)| == Total(pieces)
  {
    if pieces != [] {
      JoinLength(pieces[1..]);
    }
  }

  lemma {:induction false} JoinConcat(a: seq<seq<byte>>, b: seq<seq<byte>>)
    ensures Flatten(a + b) == Flatten(a) + Flatten(b)
    ensures Total(a + b) == Total(a) + Total(b)
  {
    if a == [] {
      assert a + b == b;
    } else {
      JoinConcat(a[1..], b);
      assert (a + b)[1..] == a[1..] + b;
      Assoc(a[0], Flatten(a[1..]), Flatten(b));
    }
  }

  lemma JoinOne(p: seq<byte>)
    ensures Flatten([p]) == p && Total([p]) == |p|
  {
    assert [p][1..] == [];
  }

  // ---------- what the handler computes ----------

  /** The header the handler sees: a netbuf shorter than the header is read past its end. */
  function Header(fmt: Format, netbuf: seq<byte>, beyond: seq<byte>): seq<byte>
    requires |netbuf| + |beyond| >= fmt.headerLength
  {
    (netbuf + beyond)[..fmt.headerLength]
  }

  function Expected(fmt: Format, header: seq<byte>): nat {
    fmt.payloadLength(header) + fmt.headerLength
  }

  /** A netbuf outside reassembly, or the one reassembly made. */
  function Examine(fmt: Format, netbuf: seq<byte>, beyond: seq<byte>): (Sg, Outcome)
    requires |netbuf| + |beyond| >= fmt.headerLength
  {
    var h := Header(fmt, netbuf, beyond);
    if fmt.endpoint(h) >= fmt.endpointMax then (Idle, BadEndpoint)
    else if |netbuf| < Expected(fmt, h) then (Gathering([netbuf], Expected(fmt, h)), Queued)
    else (Idle, Delivered(netbuf))
  }

  /** While a frame is in progress something is queued, and it is not yet complete. */
  predicate Sound(fmt: Format, sg: Sg) {
    sg.Gathering? ==> sg.queue != [] && sg.expected >= fmt.headerLength && Total(sg.queue) != sg.expected
  }

  /** A netbuf that arrives: its bytes, the memory behind it, and whether a reassembly buffer
      could be had. */
  datatype Arrival = Arrival(netbuf: seq<byte>, beyond: seq<byte>, alloc: bool)

  predicate Readable(fmt: Format, a: Arrival) {
    |a.beyond| >= fmt.headerLength
  }

  function Receive(fmt: Format, sg: Sg, a: Arrival): (Sg, Outcome)
    requires Sound(fmt, sg) && Readable(fmt, a)
  {
    match sg
    case Idle => Examine(fmt, a.netbuf, a.beyond)
    case Gathering(queue, expected) =>
      if Total(queue) + |a.netbuf| != expected then (Gathering(queue + [a.netbuf], expected), Queued)
      else if !a.alloc then (Idle, NoBuffer)
      else
        JoinConcat(queue, [a.netbuf]);
        JoinLength(queue + [a.netbuf]);
        Examine(fmt, Flatten(queue + [a.netbuf]), [])
  }

  lemma ReceiveSound(fmt: Format, sg: Sg, a: Arrival)
    requires Sound(fmt, sg) && Readable(fmt, a)
    ensures Sound(fmt, Receive(fmt, sg, a).0)
  {
    JoinOne(a.netbuf);
    if sg.Gathering? {
      JoinConcat(sg.queue, [a.netbuf]);
      JoinLength(sg.queue + [a.netbuf]);
      JoinOne(Flatten(sg.queue + [a.netbuf]));
    }
  }

  predicate AllReadable(fmt: Format, run: seq<Arrival>) {
    run == [] || (Readable(fmt, run[0]) && AllReadable(fmt, run[1..]))
  }

  /** The state and the outcomes of a run of arrivals. */
  function Run(fmt: Format, sg: Sg, run: seq<Arrival>): (Sg, seq<Outcome>)
    requires Sound(fmt, sg) && AllReadable(fmt, run)
    decreases |run|
  {
    if run == [] then (sg, [])
    else
      ReceiveSound(fmt, sg, run[0]);
      var r := Receive(fmt, sg, run[0]);
      var more := Run(fmt, r.0, run[1..]);
      (more.0, [r.1] + more.1)
  }

  // ---------- when a frame comes out ----------

  function Netbufs(run: seq<Arrival>): seq<seq<byte>> {
    if run == [] then [] else [run[0].netbuf] + Netbufs(run[1..])
  }

  predicate AllQueued(outcomes: seq<Outcome>) {
    outcomes == [] || (outcomes[0].Queued? && AllQueued(outcomes[1..]))
  }

  predicate AllAllocate(run: seq<Arrival>) {
    run == [] || (run[0].alloc && AllAllocate(run[1..]))
  }

  /** With `total` bytes queued, some arrival brings the total to exactly `expected`. */
  predicate Hits(total: nat, expected: nat, run: seq<Arrival>)
    decreases |run|
  {
    run != [] && (total + |run[0].netbuf| == expected || Hits(total + |run[0].netbuf|, expected, run[1..]))
  }

  /** While the expected length is missed, every netbuf is queued. */
  lemma {:induction false} MissedStaysQueued(fmt: Format, sg: Sg, run: seq<Arrival>)
    requires Sound(fmt, sg) && sg.Gathering? && AllReadable(fmt, run) && !Hits(Total(sg.queue), sg.expected, run)
    ensures Run(fmt, sg, run).0 == Gathering(sg.queue + Netbufs(run), sg.expected) && AllQueued(Run(fmt, sg, run).1)
    decreases |run|
  {
    if run == [] {
      assert sg.queue + [] == sg.queue;
    } else {
      var p := run[0].netbuf;
      JoinConcat(sg.queue, [p]);
      JoinOne(p);
      Assoc(sg.queue, [p], Netbufs(run[1..]));
      ReceiveSound(fmt, sg, run[0]);
      MissedStaysQueued(fmt, Gathering(sg.queue + [p], sg.expected), run[1..]);
    }
  }

  lemma {:induction false} NoHitBeyond(total: nat, expected: nat, run: seq<Arrival>)
    requires total > expected
    ensures !Hits(total, expected, run)
    decreases |run|
  {
    if run != [] {
      NoHitBeyond(total + |run[0].netbuf|, expected, run[1..]);
    }
  }

  /** A frame that has grown past its expected length is never delivered: it swallows every
      netbuf that follows, at least until 4 GiB are queued and the 32-bit total wraps. */
  lemma OvershootSwallowsAll(fmt: Format, sg: Sg, run: seq<Arrival>)
    requires Sound(fmt, sg) && sg.Gathering? && Total(sg.queue) > sg.expected && AllReadable(fmt, run)
    requires Total(sg.queue) + Total(Netbufs(run)) < UINT32
    ensures Run(fmt, sg, run).0 == Gathering(sg.queue + Netbufs(run), sg.expected) && AllQueued(Run(fmt, sg, run).1)
  {
    NoHitBeyond(Total(sg.queue), sg.expected, run);
    MissedStaysQueued(fmt, sg, run);
  }

  /** A netbuf that holds its whole frame passes through untouched. */
  lemma WholeFramePasses(fmt: Format, a: Arrival)
    requires Readable(fmt, a) && |a.netbuf| >= fmt.headerLength
    requires fmt.endpoint(a.netbuf[..fmt.headerLength]) < fmt.endpointMax
    requires |a.netbuf| >= Expected(fmt, a.netbuf[..fmt.headerLength])
    ensures Receive(fmt, Idle, a) == (Idle, Delivered(a.netbuf))
  {
    assert (a.netbuf + a.beyond)[..fmt.headerLength] == a.netbuf[..fmt.headerLength];
  }

  // ---------- splitting is transparent ----------

  /** A frame as the target sends it. */
  predicate Proper(fmt: Format, frame: seq<byte>) {
    && |frame| >= fmt.headerLength && |frame| == Expected(fmt, frame[..fmt.headerLength])
    && fmt.endpoint(frame[..fmt.headerLength]) < fmt.endpointMax
  }

  /** The pieces are queued and the last one completes the frame, byte for byte. */
  predicate Reassembled(fmt: Format, sg: Sg, run: seq<Arrival>, frame: seq<byte>)
    requires Sound(fmt, sg) && AllReadable(fmt, run)
    decreases |run|
  {
    run != [] &&
    var r := Receive(fmt, sg, run[0]);
    ReceiveSound(fmt, sg, run[0]);
    if |run| == 1 then r == (Idle, Delivered(frame))
    else r.1 == Queued && Reassembled(fmt, r.0, run[1..], frame)
  }

  lemma {:induction false} HitsItsTotal(total: nat, run: seq<Arrival>)
    requires run != []
    ensures Hits(total, total + Total(Netbufs(run)), run)
    decreases |run|
  {
    JoinOne(run[0].netbuf);
    if |run| > 1 {
      HitsItsTotal(total + |run[0].netbuf|, run[1..]);
    } else {
      assert Netbufs(run)[1..] == [];
    }
  }

  lemma {:induction false} LastNotEmpty(run: seq<Arrival>)
    requires run != [] && run[|run| - 1].netbuf != []
    ensures Total(Netbufs(run)) > 0
  {
    if |run| > 1 {
      LastNotEmpty(run[1..]);
    }
  }

  /** A netbuf that holds the header but not all of its frame is gathered again. */
  lemma EarlyHit(fmt: Format, j: seq<byte>, more: seq<byte>, frame: seq<byte>)
    requires Proper(fmt, frame) && frame == j + more && |j| >= fmt.headerLength && more != []
    ensures Examine(fmt, j, []) == (Gathering([j], |frame|), Queued)
    ensures Flatten([j]) == j && Total([j]) == |j| && Sound(fmt, Gathering([j], |frame|))
  {
    assert Header(fmt, j, []) == frame[..fmt.headerLength];
    JoinOne(j);
  }

  /** After one more piece: what is queued and what is to come are still the frame. */
  lemma OnePieceOn(fmt: Format, sg: Sg, run: seq<Arrival>, frame: seq<byte>)
    requires Sound(fmt, sg) && sg.Gathering? && AllReadable(fmt, run) && run != []
    requires frame == Flatten(sg.queue) + Flatten(Netbufs(run))
    ensures var queue := sg.queue + [run[0].netbuf];
      && Total(queue) == Total(sg.queue) + |run[0].netbuf| == |Flatten(queue)|
      && frame == Flatten(queue) + Flatten(Netbufs(run[1..]))
    ensures |run| > 1 && run[|run| - 1].netbuf != [] ==> Flatten(Netbufs(run[1..])) != []
  {
    JoinConcat(sg.queue, [run[0].netbuf]);
    JoinOne(run[0].netbuf);
    JoinLength(sg.queue + [run[0].netbuf]);
    JoinLength(Netbufs(run[1..]));
    Assoc(Flatten(sg.queue), run[0].netbuf, Flatten(Netbufs(run[1..])));
    if |run| > 1 && run[|run| - 1].netbuf != [] {
      LastNotEmpty(run[1..]);
    }
  }

  /** A hit before the last piece: the pieces so far are gathered again as one, and the rest
      completes the frame. */
  lemma HitEarly(fmt: Format, sg: Sg, a: Arrival, rest: seq<Arrival>, j: seq<byte>, frame: seq<byte>)
    requires Sound(fmt, sg) && sg.Gathering? && Readable(fmt, a) && a.alloc && j == Flatten(sg.queue + [a.netbuf])
    requires Total(sg.queue) + |a.netbuf| == sg.expected == |j|
    requires rest != [] && Proper(fmt, frame) && frame == j + Flatten(Netbufs(rest)) && Flatten(Netbufs(rest)) != []
    ensures Receive(fmt, sg, a) == (Gathering([j], |frame|), Queued) && Sound(fmt, Gathering([j], |frame|))
    ensures Flatten([j]) == j && Total([j]) == |j| && Hits(|j|, |frame|, rest)
  {
    EarlyHit(fmt, j, Flatten(Netbufs(rest)), frame);
    JoinLength(Netbufs(rest));
    HitsItsTotal(|j|, rest);
  }

  /** A frame in progress is completed by the rest of its pieces exactly when they hit the
      length it waits for: hit early, the header is read again, now from the whole of it. */
  lemma {:induction false} RestIff(fmt: Format, sg: Sg, run: seq<Arrival>, frame: seq<byte>)
    requires Sound(fmt, sg) && sg.Gathering? && AllReadable(fmt, run) && AllAllocate(run)
    requires Proper(fmt, frame) && frame == Flatten(sg.queue) + Flatten(Netbufs(run))
    requires run != [] && run[|run| - 1].netbuf != []
    ensures Reassembled(fmt, sg, run, frame) <==> Hits(Total(sg.queue), sg.expected, run)
    decreases |run|
  {
    var queue, rest := sg.queue + [run[0].netbuf], run[1..];
    OnePieceOn(fmt, sg, run, frame);
    if |run| == 1 {
      assert Flatten(queue) == frame && frame + [] == frame;
    } else if Total(queue) == sg.expected {
      HitEarly(fmt, sg, run[0], rest, Flatten(queue), frame);
      RestIff(fmt, Gathering([Flatten(queue)], |frame|), rest, frame);
    } else {
      ReceiveSound(fmt, sg, run[0]);
      RestIff(fmt, Gathering(queue, sg.expected), rest, frame);
    }
  }

  /** A frame cut into pieces, the last one not empty, is reassembled exactly when the header
      read from the first piece names a valid endpoint and a length that some later piece
      hits. */
  lemma ReassembledIff(fmt: Format, run: seq<Arrival>, frame: seq<byte>)
    requires AllReadable(fmt, run) && AllAllocate(run) && Proper(fmt, frame)
    requires |run| > 1 && run[|run| - 1].netbuf != [] && frame == Flatten(Netbufs(run))
    ensures Reassembled(fmt, Idle, run, frame) <==>
      var h := Header(fmt, run[0].netbuf, run[0].beyond);
      fmt.endpoint(h) < fmt.endpointMax && Hits(|run[0].netbuf|, Expected(fmt, h), run[1..])
  {
    var p, rest, h := run[0].netbuf, run[1..], Header(fmt, run[0].netbuf, run[0].beyond);
    JoinOne(p);
    JoinLength(Netbufs(rest));
    LastNotEmpty(rest);
    ReceiveSound(fmt, Idle, run[0]);
    assert frame == p + Flatten(Netbufs(rest));
    if |p| >= fmt.headerLength {
      assert h == frame[..fmt.headerLength];
    }
    if fmt.endpoint(h) < fmt.endpointMax {
      RestIff(fmt, Gathering([p], Expected(fmt, h)), rest, frame);
    }
  }

  /** When the first piece holds the header, every split is reassembled. */
  lemma HeaderInFirstPieceSuffices(fmt: Format, run: seq<Arrival>, frame: seq<byte>)
    requires AllReadable(fmt, run) && AllAllocate(run) && Proper(fmt, frame)
    requires |run| > 1 && run[|run| - 1].netbuf != [] && frame == Flatten(Netbufs(run))
    requires |run[0].netbuf| >= fmt.headerLength
    ensures Reassembled(fmt, Idle, run, frame)
  {
    var p, rest := run[0].netbuf, run[1..];
    assert frame == p + Flatten(Netbufs(rest));
    assert Header(fmt, p, run[0].beyond) == p[..fmt.headerLength] == frame[..fmt.headerLength];
    JoinLength(Netbufs(rest));
    HitsItsTotal(|p|, rest);
    ReassembledIff(fmt, run, frame);
  }

  // ---------- where it falls short ----------

  /** A header of two bytes: an endpoint and a payload length. */
  const SAMPLE := Format(2, 9, (h: seq<byte>) => if |h| == 2 then h[1] as nat else 0,
                         (h: seq<byte>) => if |h| == 2 then h[0] as nat else 0)

  /** A frame of five bytes whose first piece holds only half of the header, with other bytes
      behind it in memory, is not reassembled. */
  lemma ShortFirstPieceFails() returns (run: seq<Arrival>, frame: seq<byte>)
    ensures AllReadable(SAMPLE, run) && AllAllocate(run) && Proper(SAMPLE, frame)
    ensures frame == Flatten(Netbufs(run)) && !Reassembled(SAMPLE, Idle, run, frame)
  {
    var first, second := Arrival([0], [9, 9], true), Arrival([3, 1, 2, 3], [9, 9], true);
    run, frame := [first, second], [0, 3, 1, 2, 3];
    assert run[1..] == [second] && [second][1..] == [];
    assert Netbufs([second]) == [[3, 1, 2, 3]] && Netbufs(run) == [[0]] + [[3, 1, 2, 3]];
    JoinOne([3, 1, 2, 3]);
    assert frame[..2] == [0, 3] && ([0] + [9, 9])[..2] == [0, 9];
    assert Flatten(Netbufs(run)) == [0] + Flatten([[3, 1, 2, 3]]);
    ReassembledIff(SAMPLE, run, frame);
  }

  /** A netbuf that holds the end of one frame and the start of the next takes the total past
      the length awaited. */
  lemma OvershootHappens() returns (run: seq<Arrival>)
    ensures AllReadable(SAMPLE, run)
    ensures var sg := Run(SAMPLE, Idle, run).0; sg.Gathering? && Total(sg.queue) > sg.expected
  {
    var first, second := Arrival([0, 3, 1], [9, 9], true), Arrival([2, 3, 0], [9, 9], true);
    run := [first, second];
    assert run[1..] == [second] && [second][1..] == [];
    assert ([0, 3, 1] + [9, 9])[..2] == [0, 3];
    JoinOne(first.netbuf);
    JoinOne(second.netbuf);
    JoinConcat([first.netbuf], [second.netbuf]);
    var sg := Gathering([first.netbuf], 5);
    assert Receive(SAMPLE, Idle, first) == (sg, Queued);
    assert Receive(SAMPLE, sg, second) == (Gathering([first.netbuf] + [second.netbuf], 5), Queued);
    ReceiveSound(SAMPLE, sg, second);
    assert Run(SAMPLE, sg, [second]).0 == Gathering([first.netbuf] + [second.netbuf], 5);
  }

  // ---------- the code ----------

  class Receiver {
    const fmt: Format
    var rxSgQueue: seq<seq<byte>>
    var isRxSgInprogress: bool
    var curRxSgTotalLen: nat
    var expRxSgTotalLen: nat

    ghost function State(): Sg
      reads this
    {
      if isRxSgInprogress then Gathering(rxSgQueue, expRxSgTotalLen) else Idle
    }

    ghost predicate Valid()
      reads this
    {
      && fmt.Valid() && Sound(fmt, State())
      && curRxSgTotalLen == Total(rxSgQueue) < UINT32 && expRxSgTotalLen < UINT32
      && (!isRxSgInprogress ==> rxSgQueue == [] && curRxSgTotalLen == expRxSgTotalLen == 0)
    }

    constructor (fmt: Format)
      requires fmt.Valid()
      ensures Valid() && this.fmt == fmt && State() == Idle
    {
      this.fmt := fmt;
      rxSgQueue, isRxSgInprogress, curRxSgTotalLen, expRxSgTotalLen := [], false, 0, 0;
    }

    /** RESET_RX_SG_CONFIG after the queue has been emptied, as htc_stop and a surprise removal do. */
    method Flush()
      requires fmt.Valid()
      modifies this
      ensures Valid() && State() == Idle
    {
      while rxSgQueue != []
        decreases |rxSgQueue|
      {
        rxSgQueue := rxSgQueue[1..];
      }
      expRxSgTotalLen, curRxSgTotalLen, isRxSgInprogress := 0, 0, false;
    }

    method CopyBytes(buf: array<byte>, pos: nat, src: seq<byte>)
      requires pos + |src| <= buf.Length
      modifies buf
      ensures unchanged(this) && buf[..pos + |src|] == old(buf[..pos]) + src
    {
      forall k | 0 <= k < |src| {
        buf[pos + k] := src[k];
      }
    }

    /** rx_sg_to_single_netbuf: every queued byte, in order, in one new netbuf. */
    method RxSgToSingleNetbuf(alloc: bool) returns (frame: Option<seq<byte>>)
      requires fmt.Valid() && Total(rxSgQueue) == expRxSgTotalLen
      modifies this
      ensures Valid() && State() == Idle
      ensures frame == if old(|rxSgQueue|) <= 1 || !alloc then None else Some(Flatten(old(rxSgQueue)))
    {
      if |rxSgQueue| <= 1 || !alloc {
        Flush();
        return None;
      }
      var newSkb := new byte[expRxSgTotalLen];
      var pos := 0;
      JoinLength(rxSgQueue);
      while rxSgQueue != []
        invariant 0 <= pos && pos + Total(rxSgQueue) == newSkb.Length
        invariant newSkb[..pos] + Flatten(rxSgQueue) == Flatten(old(rxSgQueue))
        decreases |rxSgQueue|
      {
        var skb := rxSgQueue[0];
        rxSgQueue := rxSgQueue[1..];
        Assoc(newSkb[..pos], skb, Flatten(rxSgQueue));
        CopyBytes(newSkb, pos, skb);
        pos := pos + |skb|;
      }
      assert newSkb[..pos] == newSkb[..] == newSkb[..pos] + [];
      frame := Some(newSkb[..]);
      expRxSgTotalLen, curRxSgTotalLen, isRxSgInprogress := 0, 0, false;
    }

    /** htc_rx_completion_handler up to the point where a frame is complete.  The check for a
        queue of at most one netbuf never fires here. */
    method RxCompletion(a: Arrival) returns (outcome: Outcome)
      requires Valid() && Readable(fmt, a) && Total(rxSgQueue) + |a.netbuf| < UINT32
      modifies this
      ensures Valid()
      ensures (State(), outcome) == Receive(fmt, old(State()), a)
    {
      var netbuf, beyond := a.netbuf, a.beyond;
      ReceiveSound(fmt, State(), a);
      if isRxSgInprogress {
        ghost var before := rxSgQueue;
        JoinConcat(before, [netbuf]);
        JoinOne(netbuf);
        JoinLength(before + [netbuf]);
        curRxSgTotalLen := (curRxSgTotalLen + |netbuf|) % UINT32;
        rxSgQueue := rxSgQueue + [netbuf];
        if curRxSgTotalLen != expRxSgTotalLen {
          return Queued;
        }
        var single := RxSgToSingleNetbuf(a.alloc);
        if single.None? {
          return NoBuffer;
        }
        netbuf, beyond := single.value, [];
      }
      outcome := Dispatch(netbuf, beyond);
    }

    /** The header checks. */
    method Dispatch(netbuf: seq<byte>, beyond: seq<byte>) returns (outcome: Outcome)
      requires Valid() && State() == Idle && |netbuf| + |beyond| >= fmt.headerLength && |netbuf| < UINT32
      modifies this
      ensures Valid()
      ensures (State(), outcome) == Examine(fmt, netbuf, beyond)
    {
      var header := (netbuf + beyond)[..fmt.headerLength];
      if fmt.endpoint(header) >= fmt.endpointMax {
        return BadEndpoint;
      }
      var payloadLen := fmt.payloadLength(header);
      if |netbuf| < payloadLen + fmt.headerLength {
        JoinOne(netbuf);
        isRxSgInprogress := true;
        rxSgQueue := [netbuf];
        expRxSgTotalLen := payloadLen + fmt.headerLength;
        curRxSgTotalLen := (curRxSgTotalLen + |netbuf|) % UINT32;
        return Queued;
      }
      outcome := Delivered(netbuf);
    }
  }
}
