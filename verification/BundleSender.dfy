// Sending messages in bundles: htc_issue_packets with htc_issue_packets_bundle and
// htc_send_bundled_netbuf of htc/htc_send.c, on one thread.

module BundleSenders {
  import opened Common
  import opened TxTypes
  import opened TxSpec
  import opened Bundles

  /** The part of the buffer in front of pBundleBuffer. */
  ghost predicate Holds(buf: array<bv8>, off: nat, bytes: seq<bv8>)
    reads buf
  {
    off <= buf.Length && buf[..off] == bytes
  }

  /** The queues and credits an endpoint shares with the rest of the driver, and the messages HIF
      took, in order. */
  datatype Shared = Shared(tx: seq<Message>, lookup: seq<Bundle>, outstanding: int, credits: int, hif: seq<Message>)

  /** What transfers leave behind: refused ones in front of the TX queue, taken ones in the lookup
      queue and with HIF, and no credit given back. */
  ghost predicate Submitted(bs: seq<Bundle>, before: Shared, after: Shared) {
    && after.tx == Back(bs) + before.tx
    && after.lookup == before.lookup + Taken(bs)
    && after.outstanding == before.outstanding + |Taken(bs)|
    && after.credits == before.credits
    && after.hif == before.hif + All(Taken(bs))
  }

  /** One transfer. */
  ghost function AfterOne(b: Bundle, s: Shared): Shared {
    if b.accepted
    then s.(lookup := s.lookup + [b], outstanding := s.outstanding + 1, hif := s.hif + b.messages)
    else s.(tx := b.messages + s.tx)
  }

  lemma SubmittedNone(s: Shared)
    ensures Submitted([], s, s)
  {
    Units(s.tx);
    Units(s.lookup);
    Units(s.hif);
  }

  lemma SubmittedOne(bs: seq<Bundle>, b: Bundle, before: Shared, after: Shared)
    requires Submitted(bs, before, after)
    ensures Submitted(bs + [b], before, AfterOne(b, after))
  {
    SnocShapes(bs, b);
    if b.accepted {
      SnocShapes(Taken(bs), b);
      Assoc(before.lookup, Taken(bs), [b]);
      Assoc(before.hif, All(Taken(bs)), b.messages);
    } else {
      Assoc(b.messages, Back(bs), before.tx);
    }
  }

  lemma SubmittedMore(a: seq<Bundle>, b: seq<Bundle>, s0: Shared, s1: Shared, s2: Shared)
    requires Submitted(a, s0, s1) && Submitted(b, s1, s2)
    ensures Submitted(a + b, s0, s2)
  {
    ConcatShapes(a, b);
    ConcatShapes(Taken(a), Taken(b));
    Assoc(Back(b), Back(a), s0.tx);
    Assoc(s0.lookup, Taken(a), Taken(b));
    Assoc(s0.hif, All(Taken(a)), All(Taken(b)));
  }

  /** How htc_issue_packets ends: the last is not an exit of the code but where it leaves its
      buffer. */
  datatype Exit = Done | NoPadding | NoHeader | NoMap | Refused | Outgrown

  /** What the environment says in one turn of htc_issue_packets: whether it may bundle, what the
      bundling loop is told, whether padding credit, a header address and a mapping are there, and
      whether HIF takes the message. */
  datatype Turn = Turn(mayBundle: bool, allocs: nat -> bool, pads: nat -> bool, accepts: nat -> bool,
                       padding: bool, header: bool, mapped: bool, accepted: bool)

  class BundleSender {
    const cfg: BundleConfig
    var txQueue: seq<Message>
    var lookupQueue: seq<Bundle>
    var outstanding: int
    var txCredits: int
    ghost var hif: seq<Message>

    constructor (cfg: BundleConfig, credits: int)
      ensures this.cfg == cfg && Now() == Shared([], [], 0, credits, [])
    {
      this.cfg := cfg;
      txQueue, lookupQueue, outstanding, txCredits, hif := [], [], 0, credits, [];
    }

    ghost function Now(): Shared
      reads this
    {
      Shared(txQueue, lookupQueue, outstanding, txCredits, hif)
    }

    /** Copies the fragments of a message into the bundle buffer. */
    method CopyFragments(m: Message, buf: array<bv8>, off: nat) returns (end: nat)
      requires off + |Wire(cfg, m)| <= buf.Length
      modifies buf
      ensures unchanged(this)
      ensures end == off + |Wire(cfg, m)|
      ensures buf[off..end] == Wire(cfg, m)
      ensures buf[..off] == old(buf[..off])
    {
      var len := m.length + cfg.headerLength;
      var nbytes, pos, i := len, off, 0;
      ghost var rest, done: seq<bv8>, more := m.fragments, [], Flatten(m.fragments);
      while i < |m.fragments| && nbytes > 0
        invariant 0 <= i <= |m.fragments| && 0 <= nbytes && off <= pos <= buf.Length && pos + nbytes == off + len
        invariant rest == m.fragments[i..] && done == buf[off..pos]
        invariant done + more == Flatten(m.fragments) && (nbytes > 0 ==> more == Flatten(rest))
        invariant buf[..off] == old(buf[..off])
      {
        var frag := m.fragments[i];
        var fragLen := |frag|;
        if fragLen > nbytes {
          fragLen := nbytes;
        }
        assert rest[0] == frag && rest[1..] == m.fragments[i + 1..];
        Carry(done, frag, Flatten(rest[1..]), fragLen);
        CopyBytes(buf, off, pos, frag, fragLen);
        done, more := done + frag[..fragLen], frag[fragLen..] + Flatten(rest[1..]);
        nbytes := nbytes - fragLen;
        pos := pos + fragLen;
        i, rest := i + 1, rest[1..];
      }
      end := pos;
      assert more == [] || |done| == len;
    }

    static lemma Carry(a: seq<bv8>, b: seq<bv8>, c: seq<bv8>, n: nat)
      requires n <= |b|
      ensures a + (b + c) == (a + b[..n]) + (b[n..] + c)
      ensures n == |b| ==> b[n..] + c == c
    {
    }

    /** qdf_mem_copy to position `pos` of the buffer, behind what was written from `off` on. */
    method CopyBytes(buf: array<bv8>, off: nat, pos: nat, src: seq<bv8>, n: nat)
      requires off <= pos && n <= |src| && pos + n <= buf.Length
      modifies buf
      ensures unchanged(this)
      ensures buf[..off] == old(buf[..off])
      ensures buf[off..pos + n] == old(buf[off..pos]) + src[..n]
    {
      forall k | 0 <= k < n {
        buf[pos + k] := src[k];
      }
    }

    /** Hands one transfer to HIF: it can be looked up from before the send until HIF refuses it. */
    method SendOne(b: Bundle)
      modifies this`lookupQueue, this`outstanding, this`hif
      ensures b.accepted ==> Now() == AfterOne(b, old(Now()))
      ensures !b.accepted ==> Now() == old(Now())
    {
      lookupQueue := lookupQueue + [b];
      outstanding := outstanding + 1;
      if b.accepted {
        hif := hif + b.messages;
      } else {
        outstanding := outstanding - 1;
        lookupQueue := lookupQueue[..|lookupQueue| - 1];
      }
    }

    /** htc_send_bundled_netbuf: a bundle HIF refuses goes back in front of the TX queue, with the
        credits its messages were charged still charged. */
    method SendBundled(messages: seq<Message>, bytes: seq<bv8>, accepted: bool) returns (b: Bundle)
      modifies this
      ensures b == Bundle(messages, bytes, accepted) && Now() == AfterOne(b, old(Now()))
    {
      b := Bundle(messages, bytes, accepted);
      SendOne(b);
      if !accepted {
        txQueue := messages + txQueue;
      }
    }

    /** allocate_htc_bundle_packet, when it succeeds. */
    method AllocateBuffer() returns (buf: array<bv8>)
      ensures unchanged(this) && fresh(buf) && buf.Length == cfg.Size() && Holds(buf, 0, [])
    {
      buf := new bv8[cfg.Size()];
    }

    /** Places one message: its bytes, then room for its padding. */
    method PlaceMessage(m: Message, buf: array<bv8>, off: nat, lastPad: nat, saved: seq<Message>, ghost bytes: seq<bv8>)
      returns (end: nat, newPad: nat, saved': seq<Message>, ghost bytes': seq<bv8>)
      requires cfg.Valid() && Headed(cfg, m)
      requires off + SlotOf(cfg, m).room <= buf.Length && Holds(buf, off, bytes) && Filled(cfg, saved, bytes, lastPad)
      modifies buf
      ensures unchanged(this)
      ensures end == off + SlotOf(cfg, m).room && Holds(buf, end, bytes')
      ensures saved' == saved + [m] && Filled(cfg, saved', bytes', newPad)
    {
      var pad := PadFor(m);
      var copied := CopyFragments(m, buf, off);
      end := copied + pad;
      saved' := saved + [m];
      newPad := if cfg.usb then pad else lastPad;
      bytes' := buf[..end];
      Pieces(buf[..], off, copied, end);
      FilledSnoc(cfg, saved, bytes, lastPad, m, buf[off..end]);
    }

    method PadFor(m: Message) returns (pad: nat)
      requires cfg.Valid()
      ensures pad == CreditPad(cfg.creditSize, m.length + cfg.headerLength)
    {
      pad := 0;
      var transferLength := m.length + cfg.headerLength;
      var creditRemainder := transferLength % cfg.creditSize;
      if creditRemainder != 0 {
        if transferLength < cfg.creditSize {
          pad := cfg.creditSize - transferLength;
        } else {
          pad := creditRemainder;
        }
      }
    }

    static lemma Pieces(b: seq<bv8>, i: nat, j: nat, k: nat)
      requires i <= j <= k <= |b|
      ensures b[..k] == b[..i] + b[i..k] && b[i..k][..j - i] == b[i..j]
    {
    }

    /** Submits what the buffer holds, less the padding cut from a USB transfer. */
    method Submit(saved: seq<Message>, buf: array<bv8>, off: nat, lastPad: nat, accepted: bool,
                  ghost bytes: seq<bv8>, ghost bs: seq<Bundle>, ghost start: Shared)
      returns (ghost b: Bundle)
      requires Submitted(bs, start, Now())
      requires lastPad <= off && Holds(buf, off, bytes)
      modifies this
      ensures Submitted(bs + [b], start, Now())
      ensures b == Bundle(saved, bytes[..|bytes| - lastPad], accepted)
    {
      assert bytes[..off - lastPad] == buf[..off - lastPad];
      SubmittedOne(bs, Bundle(saved, bytes[..off - lastPad], accepted), start, Now());
      b := SendBundled(saved, buf[..off - lastPad], accepted);
    }

    /** Submits the buffer at the end of the loop, or because the next message does not fit. */
    method SubmitBuffer(saved: seq<Message>, buf: array<bv8>, off: nat, lastPad: nat, accepted: bool, last: bool,
                        ghost bytes: seq<bv8>, ghost bs: seq<Bundle>, ghost start: Shared, ghost input: seq<Message>,
                        ghost left: seq<Message>, ghost accepts: nat -> bool)
      returns (ghost bs': seq<Bundle>)
      requires cfg.Valid() && Holds(buf, off, bytes) && Submittable(cfg, saved, bytes, lastPad)
      requires accepted == accepts(|bs|)
      requires Submitted(bs, start, Now()) && Progress(cfg, input, accepts, bs, saved, left)
      requires !last ==> left != [] && Reckoned(cfg, saved) + Transfer(cfg, left[0]) > cfg.Size()
      requires saved == [] ==> bs == [] && !last
      requires bs == [] && saved != [] ==> Transfer(cfg, saved[0]) <= cfg.Size()
      modifies this
      ensures Submitted(bs', start, Now()) && |bs'| == |bs| + 1
      ensures Proper(cfg, bs', accepts) && All(bs') + left == input && StartsFull(cfg, bs', input)
      ensures !last ==> Progress(cfg, input, accepts, bs', [], left)
    {
      FilledIsWellPacked(cfg, saved, bytes, lastPad, accepted);
      ghost var b := Submit(saved, buf, off, lastPad, accepted, bytes, bs, start);
      SubmitFilled(cfg, input, accepts, bs, saved, left, b, last);
      bs' := bs + [b];
    }

    /** Saves the next message, for which there is room. */
    method SaveMessage(m: Message, buf: array<bv8>, off: nat, lastPad: nat, saved: seq<Message>, ghost bytes: seq<bv8>,
                       ghost bs: seq<Bundle>, ghost input: seq<Message>, ghost left: seq<Message>,
                       ghost accepts: nat -> bool)
      returns (end: nat, newPad: nat, saved': seq<Message>, ghost bytes': seq<bv8>)
      requires cfg.Valid() && left != [] && m == left[0] && Headed(cfg, m)
      requires off + SlotOf(cfg, m).room <= buf.Length
      requires Holds(buf, off, bytes) && Filled(cfg, saved, bytes, lastPad)
      requires Progress(cfg, input, accepts, bs, saved, left)
      modifies buf
      ensures unchanged(this) && saved' == saved + [m] && end <= buf.Length
      ensures Reckoned(cfg, saved') == Reckoned(cfg, saved) + Transfer(cfg, m)
      ensures Holds(buf, end, bytes') && Filled(cfg, saved', bytes', newPad)
      ensures Progress(cfg, input, accepts, bs, saved', left[1..])
    {
      end, newPad, saved', bytes' := PlaceMessage(m, buf, off, lastPad, saved, bytes);
      SaveNext(cfg, input, accepts, bs, saved, left);
      SnocMessage(cfg, saved, m);
    }

    /** A message the loop has space for stays inside the buffer. */
    lemma SpaceIsThere(saved: seq<Message>, bytes: seq<bv8>, lastPad: nat, m: Message)
      requires cfg.Valid() && Filled(cfg, saved, bytes, lastPad)
      requires Reckoned(cfg, saved) + Transfer(cfg, m) <= cfg.Size()
      ensures |bytes| + SlotOf(cfg, m).room <= cfg.Size()
    {
      SnocMessage(cfg, saved, m);
    }

    /** Where the loop stands between two turns. */
    ghost predicate Filling(buf: array<bv8>, space: int, off: nat, lastPad: nat, saved: seq<Message>, bytes: seq<bv8>,
                            bs: seq<Bundle>, start: Shared, input: seq<Message>, left: seq<Message>,
                            accepts: nat -> bool)
      requires cfg.Valid()
      reads this, buf
    {
      && buf.Length == cfg.Size()
      && space == cfg.Size() - Reckoned(cfg, saved) && off + AllMissing(cfg, saved) + space == cfg.Size()
      && Holds(buf, off, bytes) && Submittable(cfg, saved, bytes, lastPad)
      && Submitted(bs, start, Now()) && Progress(cfg, input, accepts, bs, saved, left) && AllHeaded(cfg, left)
      && (saved == [] ==> bs == [])
      && (bs == [] && saved != [] ==> Transfer(cfg, saved[0]) <= cfg.Size())
    }

    /** The next message does not fit: the buffer is submitted and, if the loop goes on, a new one
        taken. */
    method NextBuffer(m: Message, buf: array<bv8>, space: int, off: nat, lastPad: nat, saved: seq<Message>, sent: nat,
                      several: bool, allocs: nat -> bool, accepts: nat -> bool, ghost bytes: seq<bv8>,
                      ghost bs: seq<Bundle>, ghost start: Shared, ghost input: seq<Message>, ghost left: seq<Message>)
      returns (buf': array<bv8>, stop: bool, ghost bs': seq<Bundle>)
      requires cfg.Valid() && Filling(buf, space, off, lastPad, saved, bytes, bs, start, input, left, accepts)
      requires left != [] && m == left[0] && space < Transfer(cfg, m) && sent == |bs|
      modifies this
      ensures Submitted(bs', start, Now()) && |bs'| == sent + 1 && Progress(cfg, input, accepts, bs', [], left)
      ensures Proper(cfg, bs', accepts) && StartsFull(cfg, bs', input) && All(bs') + left == input
      ensures stop <==> !several || !allocs(sent + 1)
      ensures !stop ==> fresh(buf') && buf'.Length == cfg.Size() && Holds(buf', 0, [])
    {
      bs' := SubmitBuffer(saved, buf, off, lastPad, accepts(sent), false, bytes, bs, start, input, left, accepts);
      buf', stop := buf, !several || !allocs(sent + 1);
      if !stop {
        buf' := AllocateBuffer();
      }
    }

    /** Places the next message behind others, where there is space for it. */
    method Append(m: Message, buf: array<bv8>, space: int, off: nat, lastPad: nat, saved: seq<Message>,
                  ghost bytes: seq<bv8>, ghost bs: seq<Bundle>, ghost start: Shared, ghost input: seq<Message>,
                  ghost left: seq<Message>, ghost accepts: nat -> bool)
      returns (end: nat, newPad: nat, saved': seq<Message>, ghost bytes': seq<bv8>)
      requires cfg.Valid() && Filling(buf, space, off, lastPad, saved, bytes, bs, start, input, left, accepts)
      requires left != [] && m == left[0] && Transfer(cfg, m) <= space
      modifies buf
      ensures saved' == saved + [m]
      ensures Filling(buf, space - Transfer(cfg, m), end, newPad, saved', bytes', bs, start, input, left[1..], accepts)
    {
      SpaceIsThere(saved, bytes, lastPad, m);
      end, newPad, saved', bytes' := SaveMessage(m, buf, off, lastPad, saved, bytes, bs, input, left, accepts);
    }

    /** Places a message in an empty buffer that has room for it. */
    method Open(m: Message, buf: array<bv8>, lastPad: nat, ghost bs: seq<Bundle>, ghost start: Shared,
                ghost input: seq<Message>, ghost left: seq<Message>, ghost accepts: nat -> bool)
      returns (end: nat, newPad: nat, saved': seq<Message>, ghost bytes': seq<bv8>)
      requires cfg.Valid() && buf.Length == cfg.Size() && Holds(buf, 0, []) && (cfg.usb || lastPad == 0)
      requires Submitted(bs, start, Now()) && Progress(cfg, input, accepts, bs, [], left) && AllHeaded(cfg, left)
      requires left != [] && m == left[0] && SlotOf(cfg, m).room <= cfg.Size() && bs != []
      modifies buf
      ensures saved' == [m]
      ensures Filling(buf, cfg.Size() - Transfer(cfg, m), end, newPad, saved', bytes', bs, start, input, left[1..],
                      accepts)
    {
      end, newPad, saved', bytes' := SaveMessage(m, buf, 0, lastPad, [], [], bs, input, left, accepts);
    }

    /** The loop of htc_issue_packets_bundle.  It does not ask whether a message fits an empty
        bundle; `outgrown` says that it would leave its buffer with the next message. */
    method FillBundles(input: seq<Message>, allocs: nat -> bool, pads: nat -> bool, accepts: nat -> bool)
      returns (left: seq<Message>, outgrown: bool, ghost bs: seq<Bundle>)
      requires cfg.Valid() && AllHeaded(cfg, input)
      modifies this
      ensures Submitted(bs, old(Now()), Now())
      ensures Proper(cfg, bs, accepts) && StartsFull(cfg, bs, input) && All(bs) + left == input
      ensures outgrown ==> |left| > 1 && SlotOf(cfg, left[0]).room > cfg.Size()
      ensures !outgrown && left != [] ==> !allocs(|bs|) || |left| < MIN_MSG_PER_BUNDLE || cfg.hasPaddingCallback
    {
      left, outgrown, bs := input, false, [];
      ghost var start := Now();
      SubmittedNone(start);
      NothingDone(cfg, input, accepts);
      if !allocs(0) {
        return;
      }
      var buf := AllocateBuffer();
      var space: int, off: nat, lastPad: nat := cfg.Size(), 0, 0;
      ghost var bytes: seq<bv8> := [];
      var saved: seq<Message> := [];
      var sent, turn := 0, 0;
      while true
        invariant fresh(buf) && sent == |bs|
        invariant Filling(buf, space, off, lastPad, saved, bytes, bs, start, input, left, accepts)
        decreases |left|
      {
        if cfg.hasPaddingCallback && !pads(turn) {
          break;
        }
        turn := turn + 1;
        if |left| == 0 {
          break;
        }
        var m := left[0];
        if space < Transfer(cfg, m) {
          var stop;
          buf, stop, bs := NextBuffer(m, buf, space, off, lastPad, saved, sent, |left| >= MIN_MSG_PER_BUNDLE, allocs,
                                      accepts, bytes, bs, start, input, left);
          if stop || SlotOf(cfg, m).room > cfg.Size() {
            outgrown := !stop;
            return;
          }
          sent := sent + 1;
          off, lastPad, saved, bytes := Open(m, buf, lastPad, bs, start, input, left, accepts);
          space := cfg.Size() - Transfer(cfg, m);
        } else {
          off, lastPad, saved, bytes := Append(m, buf, space, off, lastPad, saved, bytes, bs, start, input, left,
                                               accepts);
          space := space - Transfer(cfg, m);
        }
        left := left[1..];
      }
      FilledNonEmpty(cfg, saved, bytes, lastPad);
      if off != 0 {
        bs := SubmitBuffer(saved, buf, off, lastPad, accepts(sent), true, bytes, bs, start, input, left, accepts);
      } else {
        NothingSaved(cfg, input, accepts, bs, left);
      }
    }

    /** htc_issue_packets_bundle.  `allocs`, `pads` and `accepts` are what the environment says:
        whether each bundle buffer can be had, whether padding credit is there turn by turn,
        and whether HIF takes each bundle. */
    method IssuePacketsBundle(input: seq<Message>, allocs: nat -> bool, pads: nat -> bool, accepts: nat -> bool)
      returns (left: seq<Message>, outgrown: bool, ghost bs: seq<Bundle>)
      requires cfg.Valid() && AllHeaded(cfg, input)
      modifies this
      ensures Submitted(bs, old(Now()), Now())
      ensures Proper(cfg, bs, accepts) && StartsFull(cfg, bs, input) && All(bs) + left == input
      ensures !outgrown && left != [] ==> !allocs(|bs|) || |left| < MIN_MSG_PER_BUNDLE || cfg.hasPaddingCallback
      ensures outgrown || |left| < MIN_MSG_PER_BUNDLE ==> (outgrown <==> Outgrows(cfg, input))
    {
      left, outgrown, bs := FillBundles(input, allocs, pads, accepts);
      if outgrown || |left| < MIN_MSG_PER_BUNDLE {
        OutgrownIff(cfg, bs, accepts, input, left, outgrown);
      }
    }

    /** Reclaims what the messages of the local queue were charged. */
    method ReclaimCredits(left: seq<Message>)
      modifies this`txCredits
      ensures txCredits == old(txCredits) + Charge(left)
    {
      var i := 0;
      while i < |left|
        invariant 0 <= i <= |left| && txCredits == old(txCredits) + Charge(left[..i])
      {
        assert left[..i + 1][..i] == left[..i];
        txCredits := txCredits + left[i].charge;
        i := i + 1;
      }
      assert left[..|left|] == left;
    }

    /** Where htc_issue_packets stands between two turns. */
    ghost predicate Issuing(input: seq<Message>, bs: seq<Bundle>, left: seq<Message>, start: Shared)
      requires cfg.Valid()
      reads this
    {
      && Submitted(bs, start, Now()) && All(bs) + left == input && AllHeaded(cfg, left)
      && (AllFit(cfg, input) ==> NoneEmpty(bs) && AllFit(cfg, left))
      && (Outgrows(cfg, left) ==> Outgrows(cfg, input))
    }

    /** Bundles what can be bundled. */
    method TryBundle(t: Turn, input: seq<Message>, ghost bs: seq<Bundle>, before: seq<Message>, ghost start: Shared)
      returns (left: seq<Message>, outgrown: bool, ghost bs': seq<Bundle>)
      requires cfg.Valid() && Issuing(input, bs, before, start)
      modifies this
      ensures Issuing(input, bs', left, start) && |left| <= |before| && (outgrown ==> Outgrows(cfg, input))
    {
      left, outgrown, bs' := before, false, bs;
      if t.mayBundle && |left| >= MIN_MSG_PER_BUNDLE {
        ghost var more, now := bs, Now();
        left, outgrown, more := IssuePacketsBundle(before, t.allocs, t.pads, t.accepts);
        bs' := bs + more;
        SubmittedMore(bs, more, start, now, Now());
        BundledRest(cfg, bs, more, before, left, input, t.accepts);
      }
    }

    /** Sends the first message of the local queue by itself; if HIF refuses it, what all of them
        were charged is reclaimed. */
    method SendSingle(m: Message, left: seq<Message>, accepted: bool, ghost input: seq<Message>, ghost bs: seq<Bundle>,
                      ghost start: Shared)
      returns (ghost bs': seq<Bundle>)
      requires cfg.Valid() && left != [] && m == left[0] && Issuing(input, bs, left, start)
      modifies this
      ensures if accepted then Issuing(input, bs', left[1..], start)
              else bs' == bs && Submitted(bs, start, Now().(credits := start.credits))
                   && txCredits == start.credits + Charge(left)
    {
      var b := Bundle([m], Wire(cfg, m), accepted);
      OneOff(cfg, bs, left, input, accepted);
      SubmittedOne(bs, b, start, Now());
      SendOne(b);
      bs' := bs;
      if accepted {
        bs' := bs + [b];
      } else {
        ReclaimCredits(left);
      }
    }

    /** htc_issue_packets: bundles as long as it may, and sends one by one what was left over. */
    method IssuePackets(input: seq<Message>, turns: nat -> Turn)
      returns (exit: Exit, left: seq<Message>, ghost bs: seq<Bundle>, ghost lost: seq<Message>)
      requires cfg.Valid() && AllHeaded(cfg, input)
      modifies this
      ensures (All(bs) + lost) + left == input && |lost| == if exit == NoHeader then 1 else 0
      ensures Submitted(bs, old(Now()), Now().(credits := old(txCredits)))
      ensures txCredits == old(txCredits) + if exit == Refused then Charge(left) else 0
      ensures exit == Done ==> left == []
      ensures exit == Outgrown ==> Outgrows(cfg, input)
      ensures AllFit(cfg, input) ==> NoneEmpty(bs)
    {
      left, bs, lost := input, [], [];
      ghost var start := Now();
      SubmittedNone(start);
      Units(input);
      var n := 0;
      while true
        invariant Issuing(input, bs, left, start) && lost == []
        decreases |left|
      {
        var t := turns(n);
        n := n + 1;
        var outgrown;
        left, outgrown, bs := TryBundle(t, input, bs, left, start);
        Units(All(bs));
        if outgrown {
          exit := Outgrown;
          return;
        }
        if cfg.hasPaddingCallback && !t.padding {
          exit := NoPadding;
          return;
        }
        if |left| == 0 {
          exit := Done;
          return;
        }
        var m, rest := left[0], left[1..];
        OneOff(cfg, bs, left, input, t.accepted);
        if cfg.creditFlow && !t.header {
          exit, left, lost := NoHeader, rest, [m];
          return;
        }
        if cfg.creditFlow && !t.mapped {
          exit := NoMap;
          return;
        }
        bs := SendSingle(m, left, t.accepted, input, bs, start);
        if !t.accepted {
          exit := Refused;
          return;
        }
        left := rest;
      }
    }

    /** One pass of htc_try_send over `input`: after a failure what is left goes back in front of the
        TX queue.  What HIF took and then the TX queue are the messages as Delivered says, which is
        the order they were given in exactly if no transfer was refused in front of another or of
        what was left. */
    method SendPass(input: seq<Message>, turns: nat -> Turn)
      returns (exit: Exit, ghost bs: seq<Bundle>, ghost lost: seq<Message>, ghost left: seq<Message>)
      requires cfg.Valid() && AllHeaded(cfg, input)
      modifies this
      ensures (All(bs) + lost) + left == input && |lost| == if exit == NoHeader then 1 else 0
      ensures exit != Outgrown ==> hif + txQueue == (old(hif) + Delivered(bs, left)) + old(txQueue)
      ensures exit !in {Outgrown, NoHeader} && bs != [] && AllFit(cfg, input) && Distinct(input) ==>
        (hif + txQueue == (old(hif) + input) + old(txQueue)
         <==> EveryAccepted(bs[..|bs| - 1]) && (left != [] ==> bs[|bs| - 1].accepted))
    {
      ghost var start := Now();
      var back;
      exit, back, bs, lost := IssuePackets(input, turns);
      left := back;
      if exit !in {Done, Outgrown} {
        txQueue := back + txQueue;
      } else if exit == Done {
        Units(txQueue);
      }
      LineUp(start.hif, All(Taken(bs)), left, Back(bs), start.tx);
      if exit !in {Outgrown, NoHeader} {
        Units(All(bs));
        Cancel(start.hif, Delivered(bs, left), input, start.tx);
        if bs != [] && AllFit(cfg, input) && Distinct(input) {
          DeliveryOrderIff(bs, left);
        }
      }
    }
  }

  /** No message is larger than an empty bundle. */
  ghost predicate AllFit(cfg: BundleConfig, ms: seq<Message>)
    requires cfg.Valid()
  {
    forall i | 0 <= i < |ms| :: Transfer(cfg, ms[i]) <= cfg.Size()
  }

  lemma LineUp(hif: seq<Message>, taken: seq<Message>, left: seq<Message>, back: seq<Message>, tx: seq<Message>)
    ensures (hif + taken) + (left + (back + tx)) == (hif + ((taken + left) + back)) + tx
  {
  }

  lemma Cancel(a: seq<Message>, x: seq<Message>, y: seq<Message>, b: seq<Message>)
    ensures (a + x) + b == (a + y) + b <==> x == y
  {
    if (a + x) + b == (a + y) + b {
      assert |x| == |y|;
      assert x == ((a + x) + b)[|a|..|a| + |x|] == y;
    }
  }

  /** What holds of messages holds of the last of them. */
  lemma RestOf(cfg: BundleConfig, front: seq<Message>, rest: seq<Message>)
    requires cfg.Valid()
    ensures AllHeaded(cfg, front + rest) ==> AllHeaded(cfg, rest)
    ensures AllFit(cfg, front + rest) ==> AllFit(cfg, rest)
    ensures Outgrows(cfg, rest) ==> Outgrows(cfg, front + rest)
  {
    var all := front + rest;
    assert forall i | 0 <= i < |rest| :: rest[i] == all[|front| + i];
  }

  lemma NoneEmptyConcat(a: seq<Bundle>, b: seq<Bundle>)
    ensures NoneEmpty(a) && NoneEmpty(b) ==> NoneEmpty(a + b)
  {
  }

  lemma BundledRest(cfg: BundleConfig, bs: seq<Bundle>, more: seq<Bundle>, before: seq<Message>, left: seq<Message>,
                    input: seq<Message>, accepts: nat -> bool)
    requires cfg.Valid() && All(bs) + before == input && All(more) + left == before && AllHeaded(cfg, before)
    requires Proper(cfg, more, accepts) && StartsFull(cfg, more, before)
    requires AllFit(cfg, input) ==> NoneEmpty(bs) && AllFit(cfg, before)
    requires Outgrows(cfg, before) ==> Outgrows(cfg, input)
    ensures All(bs + more) + left == input && AllHeaded(cfg, left)
    ensures AllFit(cfg, input) ==> NoneEmpty(bs + more) && AllFit(cfg, left)
    ensures Outgrows(cfg, left) ==> Outgrows(cfg, input)
  {
    ConcatShapes(bs, more);
    Assoc(All(bs), All(more), left);
    RestOf(cfg, All(more), left);
    if AllFit(cfg, input) {
      ProperNoneEmpty(cfg, more, accepts);
      NoneEmptyConcat(bs, more);
    }
  }

  /** Taking one message off the local queue. */
  lemma OneOff(cfg: BundleConfig, bs: seq<Bundle>, left: seq<Message>, input: seq<Message>, accepted: bool)
    requires cfg.Valid() && All(bs) + left == input && left != [] && AllHeaded(cfg, left)
    requires AllFit(cfg, input) ==> NoneEmpty(bs) && AllFit(cfg, left)
    requires Outgrows(cfg, left) ==> Outgrows(cfg, input)
    ensures var b := Bundle([left[0]], Wire(cfg, left[0]), accepted);
      && (All(bs) + [left[0]]) + left[1..] == input && All(bs + [b]) + left[1..] == input
      && (NoneEmpty(bs) ==> NoneEmpty(bs + [b]))
    ensures AllHeaded(cfg, left[1..]) && (AllFit(cfg, input) ==> AllFit(cfg, left[1..]))
    ensures Outgrows(cfg, left[1..]) ==> Outgrows(cfg, input)
  {
    var b := Bundle([left[0]], Wire(cfg, left[0]), accepted);
    assert left == [left[0]] + left[1..];
    Assoc(All(bs), [left[0]], left[1..]);
    SnocShapes(bs, b);
    NoneEmptyConcat(bs, [b]);
    RestOf(cfg, [left[0]], left[1..]);
  }

  // ---------- the credits of refused bundles ----------

  /** `ps` are the packets of messages, charged as these say. */
  ghost predicate Describes(ms: seq<Message>, ps: seq<TxPacket>) {
    && |ms| == |ps|
    && forall i | 0 <= i < |ms| ::
         ms[i].netbuf == ps[i].netbuf && ms[i].length == ps[i].length && ms[i].charge == ps[i].creditsUsed
  }

  lemma {:induction false} DescribedCost(ms: seq<Message>, ps: seq<TxPacket>)
    requires Describes(ms, ps)
    ensures Charge(ms) == Cost(ps)
  {
    if ms != [] {
      var front, last := ps[..|ps| - 1], ps[|ps| - 1];
      DescribedCost(ms[..|ms| - 1], front);
      assert ps == front + [last] && Cost([last]) == last.creditsUsed;
      CostConcat(front, [last]);
    }
  }

  lemma {:induction false} GrabCharges(cfg: EndpointConfig, q: seq<TxPacket>, credits: int, doPmGet: bool, pmGood: nat)
    requires cfg.Valid() && !cfg.isEndpoint0
    ensures forall p | p in Grab(cfg, q, credits, doPmGet, pmGood).taken :: p.creditsUsed > 0
  {
    if !(doPmGet && pmGood == 0) && q != [] && !Blocked(cfg, q[0], credits) {
      var left := if doPmGet then pmGood - 1 else pmGood;
      CreditsRequiredIsLeast(cfg, q[0], 1);
      GrabCharges(cfg, q[1..], credits - CreditsRequired(cfg, q[0]), doPmGet, left);
      var g := Grab(cfg, q, credits, doPmGet, pmGood);
      var h := Grab(cfg, q[1..], credits - CreditsRequired(cfg, q[0]), doPmGet, left);
      assert g.taken == [g.taken[0]] + h.taken;
    }
  }

  /** A drain dequeues `queue`, its messages go out in bundles, and a later drain dequeues what came
      back in front of the rest: the messages that came back are charged again, and what they had
      been charged before is nowhere any more. */
  lemma ChargedAgain(ecfg: EndpointConfig, queue: seq<TxPacket>, credits: nat, doPmGet: bool, pmGood: nat,
                     bs: seq<Bundle>, left: seq<Message>, back: seq<TxPacket>, doPmGet': bool, pmGood': nat)
    requires ecfg.Valid()
    requires Describes(All(bs) + left, Grab(ecfg, queue, credits, doPmGet, pmGood).taken)
    requires Describes(Back(bs), back)
    ensures var first := Grab(ecfg, queue, credits, doPmGet, pmGood);
      var second := Grab(ecfg, back + first.rest, first.credits, doPmGet', pmGood');
      && Dequeued(back + first.rest, second.taken, second.rest)
      && second.credits + Cost(second.taken) + Charge(left) + Charge(All(Taken(bs))) + Charge(Back(bs)) == credits
  {
    var first := Grab(ecfg, queue, credits, doPmGet, pmGood);
    GrabTakesPrefix(ecfg, queue, credits, doPmGet, pmGood);
    GrabTakesPrefix(ecfg, back + first.rest, first.credits, doPmGet', pmGood');
    DescribedCost(All(bs) + left, first.taken);
    ChargeConcat(All(bs), left);
    ChargeSplits(bs);
  }

  /** Away from endpoint 0 that is a loss exactly if a bundle was refused. */
  lemma RefusedBundlesLeakIff(ecfg: EndpointConfig, queue: seq<TxPacket>, credits: nat, doPmGet: bool, pmGood: nat,
                              bs: seq<Bundle>, left: seq<Message>)
    requires ecfg.Valid() && !ecfg.isEndpoint0 && NoneEmpty(bs)
    requires Describes(All(bs) + left, Grab(ecfg, queue, credits, doPmGet, pmGood).taken)
    ensures Charge(Back(bs)) > 0 <==> !EveryAccepted(bs)
  {
    var first := Grab(ecfg, queue, credits, doPmGet, pmGood);
    GrabCharges(ecfg, queue, credits, doPmGet, pmGood);
    forall k | 0 <= k < |All(bs)| ensures All(bs)[k].charge > 0 {
      assert (All(bs) + left)[k] == All(bs)[k] && first.taken[k] in first.taken;
    }
    BundleLeakIff(bs);
  }

  // ---------- where it falls short ----------

  const TWO_PER_BUNDLE := BundleConfig(100, 8, 2, false, false, false)

  function Short(netbuf: nat): Message {
    Message(netbuf, 2, 1, [[0, 0, 0, 0, 0, 0, 0, 0], [0, 0]])
  }

  ghost predicate AllShort(input: seq<Message>) {
    forall i | 0 <= i < |input| :: input[i] == Short(i)
  }

  lemma ShortFits(n: nat)
    ensures Headed(TWO_PER_BUNDLE, Short(n)) && Transfer(TWO_PER_BUNDLE, Short(n)) == 100
  {
    OneCreditTransfer(TWO_PER_BUNDLE, Short(n));
  }

  lemma ShortOnes(input: seq<Message>)
    requires AllShort(input)
    ensures AllHeaded(TWO_PER_BUNDLE, input) && AllFit(TWO_PER_BUNDLE, input) && Distinct(input)
  {
    forall i | 0 <= i < |input| ensures Headed(TWO_PER_BUNDLE, input[i]) && Transfer(TWO_PER_BUNDLE, input[i]) <= 200 {
      ShortFits(i);
    }
    forall i, j | 0 <= i < j < |input| ensures input[i] != input[j] {
      assert input[i].netbuf == i && input[j].netbuf == j;
    }
  }

  lemma {:induction false} AtMostPerBundle(cfg: BundleConfig, bs: seq<Bundle>, accepts: nat -> bool, n: nat)
    requires cfg.Valid() && Proper(cfg, bs, accepts) && n <= |bs|
    ensures |All(bs[..n])| <= n * cfg.maxMsgs
  {
    if n > 0 {
      AtMostPerBundle(cfg, bs, accepts, n - 1);
      assert bs[..n][..n - 1] == bs[..n - 1];
      BundleCounts(cfg, bs, accepts, n - 1);
      MulSucc(n - 1, cfg.maxMsgs);
    }
  }

  lemma FirstRefused(bs: seq<Bundle>, accepts: nat -> bool, input: seq<Message>, left: seq<Message>)
    requires Proper(TWO_PER_BUNDLE, bs, accepts) && StartsFull(TWO_PER_BUNDLE, bs, input) && All(bs) + left == input
    requires AllShort(input) && |input| == 4 && |left| < 2 && !accepts(0)
    ensures Delivered(bs, left) != input
  {
    ShortOnes(input);
    AtMostPerBundle(TWO_PER_BUNDLE, bs, accepts, |bs|);
    assert bs[..|bs|] == bs && |bs| >= 2;
    ProperNoneEmpty(TWO_PER_BUNDLE, bs, accepts);
    ProperAt(TWO_PER_BUNDLE, bs, accepts, 0);
    DeliveryOrderIff(bs, left);
    assert !bs[..|bs| - 1][0].accepted;
  }

  lemma FitsInside(cfg: BundleConfig, ms: seq<Message>)
    requires cfg.Valid() && AllFit(cfg, ms)
    ensures !Outgrows(cfg, ms)
  {
    forall i | 0 <= i < |ms| ensures SlotOf(cfg, ms[i]).room <= cfg.Size() {
      SnocMessage(cfg, [], ms[i]);
    }
  }

  /** The bundles of these messages go to a new sender. */
  method SendShort(input: seq<Message>) returns (s: BundleSender, left: seq<Message>, ghost bs: seq<Bundle>)
    requires AllShort(input) && |input| == 4
    ensures fresh(s) && s.hif == All(Taken(bs)) && s.txQueue == Back(bs)
    ensures All(bs) + left == input && |left| < 2 && Delivered(bs, left) != input
  {
    s := new BundleSender(TWO_PER_BUNDLE, 4);
    ShortOnes(input);
    FitsInside(TWO_PER_BUNDLE, input);
    var outgrown;
    left, outgrown, bs := s.IssuePacketsBundle(input, _ => true, _ => true, k => k > 0);
    Units(All(Taken(bs)));
    Units(Back(bs));
    FirstRefused(bs, k => k > 0, input, left);
  }

  /** HIF refuses the first of several bundles and takes all else: what HIF took and then the TX
      queue are not the messages in order. */
  method RefusedBundleReorders(input: seq<Message>) returns (s: BundleSender)
    requires AllShort(input) && |input| == 4
    ensures fresh(s) && s.hif + s.txQueue != input
  {
    var left;
    ghost var bs;
    s, left, bs := SendShort(input);
    s.SendOne(Bundle(left, [], true));
  }

  /** A message of three credits in front of another, where a bundle holds two: the loop runs out
      of its buffer. */
  method OversizedOutgrows() returns (s: BundleSender, outgrown: bool)
    ensures fresh(s) && outgrown
  {
    var large := Message(0, 292, 3, [seq(300, _ => 0)]);
    Units(large.fragments[0]);
    assert Flatten(large.fragments) == large.fragments[0] + Flatten(large.fragments[1..]) == large.fragments[0];
    ShortFits(1);
    assert SlotOf(TWO_PER_BUNDLE, large).room >= 300;
    var input := [large, Short(1)];
    assert SlotOf(TWO_PER_BUNDLE, input[0]).room > TWO_PER_BUNDLE.Size();
    s := new BundleSender(TWO_PER_BUNDLE, 4);
    var left;
    ghost var bs;
    left, outgrown, bs := s.IssuePacketsBundle(input, _ => true, _ => true, _ => true);
  }
}
