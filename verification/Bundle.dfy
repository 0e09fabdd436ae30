// Several messages in one bus transfer: how htc_issue_packets_bundle of htc/htc_send.c lays them
// out, and what transfers that HIF refuses do to the order and the credits of messages.

module Bundles {
  import opened Common

  /** One message of the local send queue: ActualLength, the credits it was charged, and the
      fragments of its netbuf, which start with the frame header. */
  datatype Message = Message(netbuf: nat, length: nat, charge: nat, fragments: seq<seq<bv8>>)

  /** One transfer submitted to HIF: its messages, the bytes sent, and whether HIF took it.  A
      message sent by itself is a transfer of one. */
  datatype Bundle = Bundle(messages: seq<Message>, bytes: seq<bv8>, accepted: bool)

  datatype BundleConfig = BundleConfig(creditSize: nat, headerLength: nat, maxMsgs: nat, usb: bool, creditFlow: bool,
                                       hasPaddingCallback: bool) {
    predicate Valid() { creditSize > 0 && headerLength > 0 && maxMsgs > 1 }
    function Size(): nat { maxMsgs * creditSize }
  }

  const MIN_MSG_PER_BUNDLE := 2

  /** What goes on the wire for a message: what its fragments hold of header and payload. */
  function Wire(cfg: BundleConfig, m: Message): seq<bv8> {
    var all, len := Flatten(m.fragments), m.length + cfg.headerLength;
    all[..if len <= |all| then len else |all|]
  }

  // ---------- padding ----------

  /** The padding the code computes for a transfer of `len` bytes. */
  function CreditPad(creditSize: nat, len: nat): nat
    requires creditSize > 0
  {
    var remainder := len % creditSize;
    if remainder == 0 then 0
    else if len < creditSize then creditSize - len
    else remainder
  }

  /** The padding fills whole credits exactly when the transfer fits one credit, fills whole
      credits already, or overshoots them by half a credit. */
  lemma PadRoundsUpIff(creditSize: nat, len: nat)
    requires creditSize > 0
    ensures (len + CreditPad(creditSize, len)) % creditSize == 0 <==>
      len <= creditSize || len % creditSize == 0 || 2 * (len % creditSize) == creditSize
  {
    var q, r := len / creditSize, len % creditSize;
    assert len == q * creditSize + r;
    if r != 0 {
      if len < creditSize {
        assert len + CreditPad(creditSize, len) == creditSize;
      } else {
        assert len > creditSize;
        ModShift(q, creditSize, 2 * r);
        if 2 * r >= creditSize {
          ModShift(1, creditSize, 2 * r - creditSize);
          SmallMod(2 * r - creditSize, creditSize);
        } else {
          SmallMod(2 * r, creditSize);
        }
      }
    } else if len < creditSize {
      SmallMod(len, creditSize);
    }
  }

  /** With credits of 100 bytes, a transfer of 130 is padded to 160. */
  lemma PaddingFallsShort()
    ensures 130 + CreditPad(100, 130) == 160 && 160 % 100 != 0
  {
  }

  lemma SmallMod(a: nat, c: nat)
    requires a < c
    ensures a % c == a
  {
  }

  lemma {:induction false} ModShift(q: nat, c: nat, a: nat)
    requires c > 0
    ensures (q * c + a) % c == a % c
  {
    if q > 0 {
      ModShift(q - 1, c, a);
      assert q * c + a == ((q - 1) * c + a) + c;
      AddMod((q - 1) * c + a, c);
    }
  }

  lemma AddMod(a: nat, c: nat)
    requires c > 0
    ensures (a + c) % c == a % c
  {
    var q, r := a / c, a % c;
    QuotientUnique(q + 1, r, (a + c) / c, (a + c) % c, c);
  }

  // ---------- the layout of a bundle ----------

  /** A message in a bundle: its bytes at the start of a room that also holds its padding. */
  datatype Slot = Slot(wire: seq<bv8>, room: nat)

  /** `bytes` holds the slots one after the other. */
  ghost predicate Packed(ss: seq<Slot>, bytes: seq<bv8>) {
    if ss == [] then bytes == []
    else
      && |ss[0].wire| <= ss[0].room <= |bytes|
      && bytes[..|ss[0].wire|] == ss[0].wire
      && Packed(ss[1..], bytes[ss[0].room..])
  }

  function TotalRoom(ss: seq<Slot>): nat {
    if ss == [] then 0 else ss[0].room + TotalRoom(ss[1..])
  }

  /** The padding behind the last message. */
  function LastPad(ss: seq<Slot>): int {
    if ss == [] then 0 else ss[|ss| - 1].room - |ss[|ss| - 1].wire|
  }

  lemma {:induction false} PackedLength(ss: seq<Slot>, bytes: seq<bv8>)
    requires Packed(ss, bytes)
    ensures |bytes| == TotalRoom(ss) && 0 <= LastPad(ss) <= |bytes|
  {
    if ss != [] {
      PackedLength(ss[1..], bytes[ss[0].room..]);
      assert |ss| > 1 ==> LastPad(ss[1..]) == LastPad(ss);
    }
  }

  lemma {:induction false} PackedSnoc(ss: seq<Slot>, bytes: seq<bv8>, s: Slot, room: seq<bv8>)
    requires Packed(ss, bytes) && |s.wire| <= s.room == |room| && room[..|s.wire|] == s.wire
    ensures Packed(ss + [s], bytes + room)
  {
    if ss == [] {
      assert ss + [s] == [s] && bytes + room == room && room[s.room..] == [];
    } else {
      var t := ss[0].room;
      assert (ss + [s])[1..] == ss[1..] + [s];
      assert (bytes + room)[t..] == bytes[t..] + room;
      assert (bytes + room)[..|ss[0].wire|] == bytes[..|ss[0].wire|];
      PackedSnoc(ss[1..], bytes[t..], s, room);
    }
  }

  /** What the target reads from a bundle, knowing the length and the room of each message. */
  function Unpack(ss: seq<Slot>, bytes: seq<bv8>): seq<seq<bv8>> {
    if ss == [] then []
    else
      var len, room := |ss[0].wire|, ss[0].room;
      [bytes[..if len <= |bytes| then len else |bytes|]]
      + Unpack(ss[1..], bytes[if room <= |bytes| then room else |bytes|..])
  }

  function Wires(ss: seq<Slot>): seq<seq<bv8>> {
    if ss == [] then [] else [ss[0].wire] + Wires(ss[1..])
  }

  /** Unpacking a bundle whose last padding was cut, wholly or not at all, gives every message
      as it was. */
  lemma {:induction false} UnpackInvertsPacked(ss: seq<Slot>, bytes: seq<bv8>, cut: nat)
    requires Packed(ss, bytes) && cut <= LastPad(ss)
    ensures cut <= |bytes| && Unpack(ss, bytes[..|bytes| - cut]) == Wires(ss)
  {
    PackedLength(ss, bytes);
    if |ss| == 1 {
      var short, len := bytes[..|bytes| - cut], |ss[0].wire|;
      assert ss[1..] == [] && bytes[ss[0].room..] == [];
      assert short[..len] == bytes[..len];
    } else if ss != [] {
      var t, rest := ss[0].room, ss[1..];
      assert rest[|rest| - 1] == ss[|ss| - 1];
      UnpackInvertsPacked(rest, bytes[t..], cut);
      var short := bytes[..|bytes| - cut];
      assert short[t..] == bytes[t..][..|bytes| - t - cut];
      assert short[..|ss[0].wire|] == bytes[..|ss[0].wire|];
    }
  }

  // ---------- messages as slots ----------

  /** The room the bundling loop reckons with for a message, padding included. */
  function Transfer(cfg: BundleConfig, m: Message): nat
    requires cfg.Valid()
  {
    var len := m.length + cfg.headerLength;
    len + CreditPad(cfg.creditSize, len)
  }

  function SlotOf(cfg: BundleConfig, m: Message): Slot
    requires cfg.Valid()
  {
    Slot(Wire(cfg, m), |Wire(cfg, m)| + CreditPad(cfg.creditSize, m.length + cfg.headerLength))
  }

  function Slots(cfg: BundleConfig, ms: seq<Message>): seq<Slot>
    requires cfg.Valid()
  {
    if ms == [] then [] else Slots(cfg, ms[..|ms| - 1]) + [SlotOf(cfg, ms[|ms| - 1])]
  }

  /** The room the loop reckons with for messages. */
  function Reckoned(cfg: BundleConfig, ms: seq<Message>): nat
    requires cfg.Valid()
  {
    if ms == [] then 0 else Reckoned(cfg, ms[..|ms| - 1]) + Transfer(cfg, ms[|ms| - 1])
  }

  /** What the fragments of a message lack of header and payload. */
  function Missing(cfg: BundleConfig, m: Message): nat {
    m.length + cfg.headerLength - |Wire(cfg, m)|
  }

  function AllMissing(cfg: BundleConfig, ms: seq<Message>): nat {
    if ms == [] then 0 else AllMissing(cfg, ms[..|ms| - 1]) + Missing(cfg, ms[|ms| - 1])
  }

  lemma SnocMessage(cfg: BundleConfig, ms: seq<Message>, m: Message)
    requires cfg.Valid()
    ensures Slots(cfg, ms + [m]) == Slots(cfg, ms) + [SlotOf(cfg, m)]
    ensures Reckoned(cfg, ms + [m]) == Reckoned(cfg, ms) + Transfer(cfg, m)
    ensures AllMissing(cfg, ms + [m]) == AllMissing(cfg, ms) + Missing(cfg, m)
    ensures SlotOf(cfg, m).room + Missing(cfg, m) == Transfer(cfg, m)
  {
    assert (ms + [m])[..|ms|] == ms;
  }

  /** The fragments hold at least the frame header, which the code writes without asking. */
  predicate Headed(cfg: BundleConfig, m: Message) {
    |Flatten(m.fragments)| >= cfg.headerLength
  }

  ghost predicate AllHeaded(cfg: BundleConfig, ms: seq<Message>) {
    forall i | 0 <= i < |ms| :: Headed(cfg, ms[i])
  }

  ghost predicate Covered(cfg: BundleConfig, m: Message) {
    |Flatten(m.fragments)| >= m.length + cfg.headerLength
  }

  /** A message whose fragments cover it goes out whole, in the room reckoned with: a target
      that knows the length finds the next one. */
  lemma CoveredSlot(cfg: BundleConfig, m: Message)
    requires cfg.Valid() && Covered(cfg, m)
    ensures SlotOf(cfg, m) == Slot(Flatten(m.fragments)[..m.length + cfg.headerLength], Transfer(cfg, m))
  {
  }

  lemma {:induction false} CoveredMissNothing(cfg: BundleConfig, ms: seq<Message>)
    requires forall i | 0 <= i < |ms| :: Covered(cfg, ms[i])
    ensures AllMissing(cfg, ms) == 0
  {
    if ms != [] {
      CoveredMissNothing(cfg, ms[..|ms| - 1]);
    }
  }

  ghost predicate OneCredit(cfg: BundleConfig, m: Message) {
    m.length + cfg.headerLength <= cfg.creditSize
  }

  lemma OneCreditTransfer(cfg: BundleConfig, m: Message)
    requires cfg.Valid() && OneCredit(cfg, m)
    ensures Transfer(cfg, m) == cfg.creditSize
  {
    var len := m.length + cfg.headerLength;
    if len < cfg.creditSize {
      SmallMod(len, cfg.creditSize);
    }
  }

  ghost predicate AllOneCredit(cfg: BundleConfig, ms: seq<Message>) {
    forall i | 0 <= i < |ms| :: OneCredit(cfg, ms[i])
  }

  /** Every message takes at least one credit of room. */
  lemma {:induction false} RoomForEach(cfg: BundleConfig, ms: seq<Message>)
    requires cfg.Valid()
    ensures |ms| * cfg.creditSize <= Reckoned(cfg, ms)
    ensures AllOneCredit(cfg, ms) ==> Reckoned(cfg, ms) == |ms| * cfg.creditSize
  {
    if ms != [] {
      RoomForEach(cfg, ms[..|ms| - 1]);
      if OneCredit(cfg, ms[|ms| - 1]) {
        OneCreditTransfer(cfg, ms[|ms| - 1]);
      }
      MulSucc(|ms| - 1, cfg.creditSize);
    }
  }

  lemma MulSucc(n: int, c: int)
    ensures (n + 1) * c == n * c + c
  {
  }

  // ---------- sequences of transfers ----------

  /** The messages of all transfers, in order. */
  function All(bs: seq<Bundle>): seq<Message> {
    if bs == [] then [] else All(bs[..|bs| - 1]) + bs[|bs| - 1].messages
  }

  /** What refused bundles leave in front of the TX queue: each later one goes before the
      earlier ones. */
  function Back(bs: seq<Bundle>): seq<Message> {
    if bs == [] then []
    else if bs[|bs| - 1].accepted then Back(bs[..|bs| - 1])
    else bs[|bs| - 1].messages + Back(bs[..|bs| - 1])
  }

  /** The messages of refused bundles in the order they were given. */
  function Unsent(bs: seq<Bundle>): seq<Message> {
    if bs == [] then []
    else if bs[|bs| - 1].accepted then Unsent(bs[..|bs| - 1])
    else Unsent(bs[..|bs| - 1]) + bs[|bs| - 1].messages
  }

  function Taken(bs: seq<Bundle>): seq<Bundle> {
    if bs == [] then []
    else if bs[|bs| - 1].accepted then Taken(bs[..|bs| - 1]) + [bs[|bs| - 1]]
    else Taken(bs[..|bs| - 1])
  }

  function RefusedCount(bs: seq<Bundle>): nat {
    if bs == [] then 0 else RefusedCount(bs[..|bs| - 1]) + if bs[|bs| - 1].accepted then 0 else 1
  }

  lemma SnocShapes(front: seq<Bundle>, last: Bundle)
    ensures All(front + [last]) == All(front) + last.messages
    ensures Back(front + [last]) == if last.accepted then Back(front) else last.messages + Back(front)
    ensures Taken(front + [last]) == if last.accepted then Taken(front) + [last] else Taken(front)
  {
    assert (front + [last])[..|front|] == front;
  }

  /** One series of transfers after another. */
  lemma {:induction false} ConcatShapes(a: seq<Bundle>, b: seq<Bundle>)
    ensures All(a + b) == All(a) + All(b)
    ensures Back(a + b) == Back(b) + Back(a)
    ensures Taken(a + b) == Taken(a) + Taken(b)
  {
    if b == [] {
      assert a + b == a;
    } else {
      var front, last := b[..|b| - 1], b[|b| - 1];
      ConcatShapes(a, front);
      assert a + b == (a + front) + [last];
      SnocShapes(a + front, last);
      ConcatLast(a, front, last);
    }
  }

  lemma ConcatLast(a: seq<Bundle>, front: seq<Bundle>, last: Bundle)
    ensures (All(a) + All(front)) + last.messages == All(a) + (All(front) + last.messages)
    ensures last.messages + (Back(front) + Back(a)) == (last.messages + Back(front)) + Back(a)
    ensures (Taken(a) + Taken(front)) + [last] == Taken(a) + (Taken(front) + [last])
  {
    Assoc(All(a), All(front), last.messages);
    Assoc(last.messages, Back(front), Back(a));
    Assoc(Taken(a), Taken(front), [last]);
  }

  ghost predicate NoneEmpty(bs: seq<Bundle>) {
    forall i | 0 <= i < |bs| :: bs[i].messages != []
  }

  ghost predicate EveryAccepted(bs: seq<Bundle>) {
    forall i | 0 <= i < |bs| :: bs[i].accepted
  }

  lemma EveryLast(bs: seq<Bundle>)
    requires bs != []
    ensures EveryAccepted(bs) <==> EveryAccepted(bs[..|bs| - 1]) && bs[|bs| - 1].accepted
    ensures NoneEmpty(bs) <==> NoneEmpty(bs[..|bs| - 1]) && bs[|bs| - 1].messages != []
  {
    var front := bs[..|bs| - 1];
    assert forall i | 0 <= i < |front| :: front[i] == bs[i];
  }

  lemma {:induction false} RefusedShape(bs: seq<Bundle>)
    requires NoneEmpty(bs)
    ensures RefusedCount(bs) == 0 <==> Back(bs) == []
    ensures RefusedCount(bs) == 0 <==> Unsent(bs) == []
    ensures forall m | m in Unsent(bs) :: m in All(bs)
  {
    if bs != [] {
      RefusedShape(bs[..|bs| - 1]);
    }
  }

  lemma DistinctFront(a: seq<Message>, b: seq<Message>)
    requires Distinct(a + b)
    ensures Distinct(a)
  {
    forall i, j | 0 <= i < j < |a| ensures a[i] != a[j] {
      assert (a + b)[i] == a[i] && (a + b)[j] == a[j];
    }
  }

  /** With an earlier bundle refused, a refused one comes back in front of it. */
  lemma WrongStart(a: seq<Message>, b: seq<Message>, back: seq<Message>, unsent: seq<Message>)
    requires Distinct(a + b) && b != [] && unsent != [] && unsent[0] in a
    ensures b + back != unsent + b
  {
    var k :| 0 <= k < |a| && a[k] == unsent[0];
    assert (a + b)[k] == unsent[0] && (a + b)[|a|] == b[0];
    assert (b + back)[0] == b[0] && (unsent + b)[0] == unsent[0];
  }

  /** Refused bundles come back in the order they were given exactly when at most one was
      refused. */
  lemma {:induction false} OrderKeptIff(bs: seq<Bundle>)
    requires NoneEmpty(bs) && Distinct(All(bs))
    ensures Back(bs) == Unsent(bs) <==> RefusedCount(bs) <= 1
  {
    if bs != [] {
      var front, last := bs[..|bs| - 1], bs[|bs| - 1];
      RefusedShape(front);
      DistinctFront(All(front), last.messages);
      OrderKeptIff(front);
      if !last.accepted && RefusedCount(front) > 0 {
        WrongStart(All(front), last.messages, Back(front), Unsent(front));
      } else if !last.accepted {
        Units(last.messages);
      }
    }
  }

  lemma {:induction false} AllAccepted(bs: seq<Bundle>)
    ensures RefusedCount(bs) == 0 <==> EveryAccepted(bs)
    ensures RefusedCount(bs) == 0 ==> Taken(bs) == bs && Back(bs) == []
  {
    if bs != [] {
      AllAccepted(bs[..|bs| - 1]);
    }
  }

  lemma {:induction false} BackComesFromAll(bs: seq<Bundle>)
    ensures forall m | m in Back(bs) :: m in All(bs)
  {
    if bs != [] {
      BackComesFromAll(bs[..|bs| - 1]);
    }
  }

  /** A sequence in which something of `a` comes last does not end in `b`. */
  lemma WrongEnd(a: seq<Message>, b: seq<Message>, s: seq<Message>, back: seq<Message>)
    requires Distinct(a + b) && b != [] && back != [] && forall m | m in back :: m in a
    ensures s + back != a + b
  {
    var m := back[|back| - 1];
    assert m in a;
    var k :| 0 <= k < |a| && a[k] == m;
    assert (a + b)[k] == m && (a + b)[|a + b| - 1] == b[|b| - 1];
    assert (s + back)[|s + back| - 1] == m;
  }

  /** What HIF is given in the end when `left` goes back in front of the TX queue after `bs`: first
      the transfers it took, then the TX queue, where `left` stands before what refused bundles
      left. */
  function Delivered(bs: seq<Bundle>, left: seq<Message>): seq<Message> {
    (All(Taken(bs)) + left) + Back(bs)
  }

  lemma Units<T>(a: seq<T>)
    ensures a + [] == a == [] + a
  {
  }

  lemma DeliveredLast(bs: seq<Bundle>)
    requires bs != []
    ensures var front := bs[..|bs| - 1];
      Delivered(bs, []) == (All(Taken(front)) + bs[|bs| - 1].messages) + Back(front)
  {
    var front, last := bs[..|bs| - 1], bs[|bs| - 1];
    Units(All(Taken(bs)));
    if last.accepted {
      SnocShapes(Taken(front), last);
    } else {
      Assoc(All(Taken(front)), last.messages, Back(front));
    }
  }

  /** With nothing left over, only the last transfer may have been refused. */
  lemma LastMayBeRefused(bs: seq<Bundle>)
    requires bs != [] && NoneEmpty(bs) && Distinct(All(bs))
    ensures Delivered(bs, []) == All(bs) <==> EveryAccepted(bs[..|bs| - 1])
  {
    var front, last := bs[..|bs| - 1], bs[|bs| - 1];
    DeliveredLast(bs);
    AllAccepted(front);
    if RefusedCount(front) > 0 {
      RefusedShape(front);
      BackComesFromAll(front);
      WrongEnd(All(front), last.messages, All(Taken(front)) + last.messages, Back(front));
    } else {
      Units(All(front) + last.messages);
    }
  }

  /** With messages left over, no transfer may have been refused. */
  lemma NoneMayBeRefused(bs: seq<Bundle>, left: seq<Message>)
    requires left != [] && NoneEmpty(bs) && Distinct(All(bs) + left)
    ensures Delivered(bs, left) == All(bs) + left <==> EveryAccepted(bs)
  {
    AllAccepted(bs);
    if RefusedCount(bs) > 0 {
      RefusedShape(bs);
      BackComesFromAll(bs);
      WrongEnd(All(bs), left, All(Taken(bs)) + left, Back(bs));
    } else {
      Units(All(bs) + left);
    }
  }

  /** That is the order the messages were given in exactly if every transfer but the last was
      taken, and the last too if any message was left over. */
  lemma DeliveryOrderIff(bs: seq<Bundle>, left: seq<Message>)
    requires bs != [] && NoneEmpty(bs) && Distinct(All(bs) + left)
    ensures Delivered(bs, left) == All(bs) + left
            <==> EveryAccepted(bs[..|bs| - 1]) && (left != [] ==> bs[|bs| - 1].accepted)
  {
    if left == [] {
      Units(All(bs));
      LastMayBeRefused(bs);
    } else {
      NoneMayBeRefused(bs, left);
      EveryLast(bs);
    }
  }

  /** No message is lost or duplicated: those of refused bundles and those of taken ones are
      together the messages of all bundles. */
  lemma {:induction false} NothingLost(bs: seq<Bundle>)
    ensures multiset(All(bs)) == multiset(Back(bs)) + multiset(All(Taken(bs)))
  {
    if bs != [] {
      var front, last := bs[..|bs| - 1], bs[|bs| - 1];
      NothingLost(front);
      if last.accepted {
        SnocShapes(Taken(front), last);
      }
    }
  }

  // ---------- credits ----------

  /** The credits messages were charged. */
  function Charge(ms: seq<Message>): nat {
    if ms == [] then 0 else Charge(ms[..|ms| - 1]) + ms[|ms| - 1].charge
  }

  lemma {:induction false} ChargeConcat(a: seq<Message>, b: seq<Message>)
    ensures Charge(a + b) == Charge(a) + Charge(b)
  {
    if b == [] {
      assert a + b == a;
    } else {
      assert (a + b)[..|a + b| - 1] == a + b[..|b| - 1];
      ChargeConcat(a, b[..|b| - 1]);
    }
  }

  /** The credits of messages in transfers are with transfers HIF took or with messages that are
      queued again. */
  lemma {:induction false} ChargeSplits(bs: seq<Bundle>)
    ensures Charge(All(bs)) == Charge(All(Taken(bs))) + Charge(Back(bs))
  {
    if bs != [] {
      var front, last := bs[..|bs| - 1], bs[|bs| - 1];
      ChargeSplits(front);
      ChargeConcat(All(front), last.messages);
      if last.accepted {
        SnocShapes(Taken(front), last);
        ChargeConcat(All(Taken(front)), last.messages);
      } else {
        ChargeConcat(last.messages, Back(front));
      }
    }
  }

  lemma {:induction false} ChargeHas(ms: seq<Message>, k: nat)
    requires k < |ms|
    ensures Charge(ms) >= ms[k].charge
  {
    if k < |ms| - 1 {
      ChargeHas(ms[..|ms| - 1], k);
    }
  }

  /** Where every message was charged, queued messages hold charges exactly if a transfer was
      refused. */
  lemma BundleLeakIff(bs: seq<Bundle>)
    requires NoneEmpty(bs) && forall k | 0 <= k < |All(bs)| :: All(bs)[k].charge > 0
    ensures Charge(Back(bs)) > 0 <==> !EveryAccepted(bs)
  {
    AllAccepted(bs);
    RefusedShape(bs);
    BackComesFromAll(bs);
    if Back(bs) != [] {
      var m := Back(bs)[0];
      assert m in Back(bs) && m in All(bs);
      var k :| 0 <= k < |All(bs)| && All(bs)[k] == m;
      ChargeHas(Back(bs), 0);
    }
  }

  // ---------- one bundle and the run of bundles ----------

  /** A bundle HIF was given: it fits the buffer, the room of its messages is exactly what the loop
      reckoned with less what their fragments lack, only the padding behind its last message may
      be cut, and every message can be taken out of it. */
  ghost predicate WellPacked(cfg: BundleConfig, b: Bundle)
    requires cfg.Valid()
  {
    var ss := Slots(cfg, b.messages);
    && TotalRoom(ss) + AllMissing(cfg, b.messages) == Reckoned(cfg, b.messages)
    && TotalRoom(ss) <= cfg.Size() && (|b.messages| > 1 ==> Reckoned(cfg, b.messages) <= cfg.Size())
    && |b.bytes| == TotalRoom(ss) - (if cfg.usb then LastPad(ss) else 0)
    && Unpack(ss, b.bytes) == Wires(ss)
  }

  /** Adding `next` to the bundle would exceed the buffer. */
  ghost predicate Closed(cfg: BundleConfig, b: Bundle, next: Message)
    requires cfg.Valid()
  {
    Reckoned(cfg, b.messages) + Transfer(cfg, next) > cfg.Size()
  }

  /** A run of bundles: each is well packed, was answered by HIF as `accepts` says, and was
      closed only because the next message did not fit; only the first may be empty. */
  ghost predicate Proper(cfg: BundleConfig, bs: seq<Bundle>, accepts: nat -> bool)
    requires cfg.Valid()
  {
    bs == [] ||
    var front, last := bs[..|bs| - 1], bs[|bs| - 1];
    && Proper(cfg, front, accepts)
    && WellPacked(cfg, last)
    && last.accepted == accepts(|front|)
    && (front != [] ==> last.messages != [] && Closed(cfg, front[|front| - 1], last.messages[0]))
  }

  lemma {:induction false} ProperAt(cfg: BundleConfig, bs: seq<Bundle>, accepts: nat -> bool, i: nat)
    requires cfg.Valid() && Proper(cfg, bs, accepts) && i < |bs|
    ensures WellPacked(cfg, bs[i]) && bs[i].accepted == accepts(i)
    ensures i < |bs| - 1 ==> bs[i + 1].messages != [] && Closed(cfg, bs[i], bs[i + 1].messages[0])
  {
    if i < |bs| - 1 {
      ProperAt(cfg, bs[..|bs| - 1], accepts, i);
    }
  }

  /** An empty bundle is submitted exactly in front of a first message larger than the buffer. */
  ghost predicate StartsFull(cfg: BundleConfig, bs: seq<Bundle>, input: seq<Message>)
    requires cfg.Valid()
  {
    bs != [] ==> input != [] && (bs[0].messages == [] <==> Transfer(cfg, input[0]) > cfg.Size())
  }

  lemma ProperNoneEmpty(cfg: BundleConfig, bs: seq<Bundle>, accepts: nat -> bool)
    requires cfg.Valid() && Proper(cfg, bs, accepts) && (bs != [] ==> bs[0].messages != [])
    ensures NoneEmpty(bs)
  {
    forall i | 0 <= i < |bs| ensures bs[i].messages != [] {
      ProperAt(cfg, bs, accepts, i);
      if i > 0 {
        ProperAt(cfg, bs, accepts, i - 1);
      }
    }
  }

  lemma CountFits(n: nat, max: nat, c: nat)
    requires c > 0
    ensures n * c <= max * c <==> n <= max
  {
    if n <= max {
      MulMono(n, max, c);
    } else {
      MulLess(max, n, c);
    }
  }

  lemma MulLess(a: int, b: int, c: int)
    requires a < b && c > 0
    ensures a * c < b * c
  {
  }

  /** A bundle keeps the target's limit, whatever its messages. */
  lemma WithinLimit(cfg: BundleConfig, b: Bundle)
    requires cfg.Valid() && WellPacked(cfg, b)
    ensures |b.messages| <= cfg.maxMsgs
  {
    RoomForEach(cfg, b.messages);
    CountFits(|b.messages|, cfg.maxMsgs, cfg.creditSize);
  }

  /** A bundle of messages of at most one credit is closed only when it is full. */
  lemma ClosedIsFull(cfg: BundleConfig, b: Bundle, next: Message)
    requires cfg.Valid() && AllOneCredit(cfg, b.messages) && OneCredit(cfg, next) && Closed(cfg, b, next)
    ensures |b.messages| >= cfg.maxMsgs
  {
    RoomForEach(cfg, b.messages);
    OneCreditTransfer(cfg, next);
    MulSucc(|b.messages|, cfg.creditSize);
    CountFits(|b.messages| + 1, cfg.maxMsgs, cfg.creditSize);
  }

  lemma OneCreditAt(cfg: BundleConfig, bs: seq<Bundle>, i: nat)
    requires i < |bs| && AllOneCredit(cfg, All(bs))
    ensures AllOneCredit(cfg, bs[i].messages)
  {
    forall j | 0 <= j < |bs[i].messages| ensures OneCredit(cfg, bs[i].messages[j]) {
      MessageAt(bs, i, j);
    }
  }

  /** No bundle exceeds the target's limit, and with messages of at most one credit every bundle
      but the last is full. */
  lemma BundleCounts(cfg: BundleConfig, bs: seq<Bundle>, accepts: nat -> bool, i: nat)
    requires cfg.Valid() && Proper(cfg, bs, accepts) && i < |bs|
    ensures |bs[i].messages| <= cfg.maxMsgs
    ensures AllOneCredit(cfg, All(bs)) && i < |bs| - 1 ==> |bs[i].messages| == cfg.maxMsgs
  {
    ProperAt(cfg, bs, accepts, i);
    WithinLimit(cfg, bs[i]);
    if AllOneCredit(cfg, All(bs)) && i < |bs| - 1 {
      OneCreditAt(cfg, bs, i);
      OneCreditAt(cfg, bs, i + 1);
      ClosedIsFull(cfg, bs[i], bs[i + 1].messages[0]);
    }
  }

  lemma {:induction false} MessageAt(bs: seq<Bundle>, i: nat, j: nat)
    requires i < |bs| && j < |bs[i].messages|
    ensures exists k :: 0 <= k < |All(bs)| && All(bs)[k] == bs[i].messages[j]
  {
    var front := bs[..|bs| - 1];
    if i == |bs| - 1 {
      assert All(bs)[|All(front)| + j] == bs[i].messages[j];
    } else {
      MessageAt(front, i, j);
      var k :| 0 <= k < |All(front)| && All(front)[k] == bs[i].messages[j];
      assert All(bs)[k] == bs[i].messages[j];
    }
  }

  // ---------- staying inside the buffer ----------

  /** A message that is not the last takes more room than an empty bundle has. */
  ghost predicate Outgrows(cfg: BundleConfig, ms: seq<Message>)
    requires cfg.Valid()
  {
    exists i | 0 <= i < |ms| - 1 :: SlotOf(cfg, ms[i]).room > cfg.Size()
  }

  lemma {:induction false} TotalRoomSnoc(ss: seq<Slot>, s: Slot)
    ensures TotalRoom(ss + [s]) == TotalRoom(ss) + s.room
  {
    if ss == [] {
      assert ss + [s] == [s] && [s][1..] == [];
    } else {
      TotalRoomSnoc(ss[1..], s);
      assert (ss + [s])[1..] == ss[1..] + [s];
    }
  }

  lemma {:induction false} RoomWithin(cfg: BundleConfig, ms: seq<Message>, j: nat)
    requires cfg.Valid() && j < |ms|
    ensures SlotOf(cfg, ms[j]).room <= TotalRoom(Slots(cfg, ms))
  {
    var front := ms[..|ms| - 1];
    TotalRoomSnoc(Slots(cfg, front), SlotOf(cfg, ms[|ms| - 1]));
    if j < |ms| - 1 {
      RoomWithin(cfg, front, j);
    }
  }

  lemma {:induction false} RoomsFit(cfg: BundleConfig, bs: seq<Bundle>, accepts: nat -> bool)
    requires cfg.Valid() && Proper(cfg, bs, accepts)
    ensures forall k | 0 <= k < |All(bs)| :: SlotOf(cfg, All(bs)[k]).room <= cfg.Size()
  {
    if bs != [] {
      var front, last := bs[..|bs| - 1], bs[|bs| - 1];
      RoomsFit(cfg, front, accepts);
      forall k | 0 <= k < |All(bs)| ensures SlotOf(cfg, All(bs)[k]).room <= cfg.Size() {
        if k < |All(front)| {
          assert All(bs)[k] == All(front)[k];
        } else {
          assert All(bs)[k] == last.messages[k - |All(front)|];
          RoomWithin(cfg, last.messages, k - |All(front)|);
        }
      }
    }
  }

  /** Whether the loop runs out of its buffer, when only that or the end of the messages stops it. */
  lemma OutgrownIff(cfg: BundleConfig, bs: seq<Bundle>, accepts: nat -> bool, input: seq<Message>,
                    left: seq<Message>, outgrown: bool)
    requires cfg.Valid() && Proper(cfg, bs, accepts) && All(bs) + left == input
    requires if outgrown then |left| > 1 && SlotOf(cfg, left[0]).room > cfg.Size() else |left| < 2
    ensures outgrown <==> Outgrows(cfg, input)
  {
    if outgrown {
      assert input[|All(bs)|] == left[0];
    } else {
      RoomsFit(cfg, bs, accepts);
      forall i | 0 <= i < |input| - 1 ensures SlotOf(cfg, input[i]).room <= cfg.Size() {
        assert input[i] == All(bs)[i];
      }
    }
  }

  // ---------- the bundle being filled ----------

  /** The buffer holds the messages saved so far, and `lastPad` is what the bus may cut. */
  ghost predicate Filled(cfg: BundleConfig, saved: seq<Message>, bytes: seq<bv8>, lastPad: nat)
    requires cfg.Valid()
  {
    && (saved != [] ==> Headed(cfg, saved[0]))
    && var ss := Slots(cfg, saved);
       && Packed(ss, bytes) && |bytes| + AllMissing(cfg, saved) == Reckoned(cfg, saved)
       && (if cfg.usb then saved != [] ==> lastPad == LastPad(ss) else lastPad == 0)
  }

  /** The message that starts the next bundle did not fit the last one. */
  ghost predicate Follows(cfg: BundleConfig, bs: seq<Bundle>, saved: seq<Message>)
    requires cfg.Valid()
  {
    bs != [] && saved != [] ==> Closed(cfg, bs[|bs| - 1], saved[0])
  }

  lemma FilledNonEmpty(cfg: BundleConfig, saved: seq<Message>, bytes: seq<bv8>, lastPad: nat)
    requires cfg.Valid() && Filled(cfg, saved, bytes, lastPad)
    ensures saved == [] <==> bytes == []
  {
    if saved != [] {
      FirstSlot(cfg, saved);
    }
  }

  lemma {:induction false} FirstSlot(cfg: BundleConfig, ms: seq<Message>)
    requires cfg.Valid() && ms != []
    ensures Slots(cfg, ms) != [] && Slots(cfg, ms)[0] == SlotOf(cfg, ms[0])
  {
    if |ms| > 1 {
      FirstSlot(cfg, ms[..|ms| - 1]);
    }
  }

  /** What may be submitted: a buffer that was not outgrown, filled by one message or within what
      the loop reckoned with. */
  ghost predicate Submittable(cfg: BundleConfig, saved: seq<Message>, bytes: seq<bv8>, lastPad: nat)
    requires cfg.Valid()
  {
    && Filled(cfg, saved, bytes, lastPad) && |bytes| <= cfg.Size()
    && (|saved| > 1 ==> Reckoned(cfg, saved) <= cfg.Size())
    && (saved == [] ==> lastPad == 0)
  }

  lemma FilledIsWellPacked(cfg: BundleConfig, saved: seq<Message>, bytes: seq<bv8>, lastPad: nat, accepted: bool)
    requires cfg.Valid() && Submittable(cfg, saved, bytes, lastPad)
    ensures lastPad <= |bytes| && WellPacked(cfg, Bundle(saved, bytes[..|bytes| - lastPad], accepted))
  {
    PackedLength(Slots(cfg, saved), bytes);
    UnpackInvertsPacked(Slots(cfg, saved), bytes, lastPad);
  }

  /** Adding a message to the buffer keeps it filled. */
  lemma FilledSnoc(cfg: BundleConfig, saved: seq<Message>, bytes: seq<bv8>, lastPad: nat, m: Message, room: seq<bv8>)
    requires cfg.Valid() && Filled(cfg, saved, bytes, lastPad) && Headed(cfg, m)
    requires |room| == SlotOf(cfg, m).room && room[..|Wire(cfg, m)|] == Wire(cfg, m)
    ensures Filled(cfg, saved + [m], bytes + room,
                   if cfg.usb then CreditPad(cfg.creditSize, m.length + cfg.headerLength) else 0)
  {
    PackedSnoc(Slots(cfg, saved), bytes, SlotOf(cfg, m), room);
    SnocMessage(cfg, saved, m);
  }

  /** Where the loop stands: the bundles submitted and the messages saved are a prefix of the
      input, and what is saved next did not fit the last bundle. */
  ghost predicate Progress(cfg: BundleConfig, input: seq<Message>, accepts: nat -> bool, bs: seq<Bundle>,
                           saved: seq<Message>, left: seq<Message>)
    requires cfg.Valid()
  {
    && Proper(cfg, bs, accepts) && StartsFull(cfg, bs, input)
    && Follows(cfg, bs, saved + left)
    && (All(bs) + saved) + left == input
  }

  lemma SaveNext(cfg: BundleConfig, input: seq<Message>, accepts: nat -> bool, bs: seq<Bundle>, saved: seq<Message>,
                 left: seq<Message>)
    requires cfg.Valid() && Progress(cfg, input, accepts, bs, saved, left) && left != []
    ensures Progress(cfg, input, accepts, bs, saved + [left[0]], left[1..])
  {
    assert left == [left[0]] + left[1..];
    Assoc(saved, [left[0]], left[1..]);
    Assoc(All(bs), saved, left);
    Assoc(All(bs), saved + [left[0]], left[1..]);
  }

  /** Submitting the buffer, at the end or because the next message does not fit; it is empty
      only if not even the first message fits. */
  lemma SubmitFilled(cfg: BundleConfig, input: seq<Message>, accepts: nat -> bool, bs: seq<Bundle>,
                     saved: seq<Message>, left: seq<Message>, b: Bundle, last: bool)
    requires cfg.Valid() && Progress(cfg, input, accepts, bs, saved, left)
    requires b.messages == saved && b.accepted == accepts(|bs|) && WellPacked(cfg, b)
    requires !last ==> left != [] && Closed(cfg, b, left[0])
    requires saved == [] ==> bs == [] && !last
    requires bs == [] && saved != [] ==> Transfer(cfg, saved[0]) <= cfg.Size()
    ensures Proper(cfg, bs + [b], accepts) && All(bs + [b]) + left == input && StartsFull(cfg, bs + [b], input)
    ensures !last ==> Progress(cfg, input, accepts, bs + [b], [], left)
  {
    SnocShapes(bs, b);
    assert (bs + [b])[..|bs|] == bs;
    Assoc(All(bs), saved, left);
    Units(left);
    Units(All(bs + [b]));
    if saved != [] {
      assert (saved + left)[0] == saved[0];
    }
    if bs == [] {
      Units(saved);
    }
  }

  lemma NothingDone(cfg: BundleConfig, input: seq<Message>, accepts: nat -> bool)
    requires cfg.Valid()
    ensures Filled(cfg, [], [], 0) && Progress(cfg, input, accepts, [], [], input)
    ensures All([]) + input == input && Proper(cfg, [], accepts)
  {
  }

  lemma NothingSaved(cfg: BundleConfig, input: seq<Message>, accepts: nat -> bool, bs: seq<Bundle>, left: seq<Message>)
    requires cfg.Valid() && Progress(cfg, input, accepts, bs, [], left)
    ensures All(bs) + left == input && Proper(cfg, bs, accepts)
  {
    Units(All(bs));
  }
}
