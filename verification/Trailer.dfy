// The trailer of a received frame: htc_process_trailer of htc/htc_recv.c and the loop of
// htc_process_credit_rpt of htc/htc_send.c.

module Trailers {
  import opened Common

  type byte = x: nat | x < 256

  /** Layout of HTC_RECORD_HDR and HTC_CREDIT_REPORT: their sizes, and where their one-byte
      fields lie. */
  datatype Format = Format(
    headerSize: nat,
    idAt: nat,
    lengthAt: nat,
    reportSize: nat,
    endpointAt: nat,
    creditsAt: nat,
    creditsId: byte)             // HTC_RECORD_CREDITS
  {
    predicate Valid() {
      && idAt < headerSize && lengthAt < headerSize && idAt != lengthAt
      && endpointAt < reportSize && creditsAt < reportSize && endpointAt != creditsAt
    }
  }

  /** A struct of `size` bytes with two fields set and the others zero. */
  function Struct(size: nat, at1: nat, v1: byte, at2: nat, v2: byte): (bytes: seq<byte>)
    requires at1 < size && at2 < size && at1 != at2
    ensures |bytes| == size && bytes[at1] == v1 && bytes[at2] == v2
  {
    seq(size, i => if i == at1 then v1 else if i == at2 then v2 else 0)
  }

  // ---------- records ----------

  datatype Record = Record(header: seq<byte>, payload: seq<byte>)

  /** A whole record: its header announces its payload. */
  predicate Whole(fmt: Format, r: Record)
    requires fmt.Valid()
  {
    |r.header| == fmt.headerSize && r.header[fmt.lengthAt] == |r.payload|
  }

  predicate AllWhole(fmt: Format, rs: seq<Record>)
    requires fmt.Valid()
  {
    rs == [] || (Whole(fmt, rs[0]) && AllWhole(fmt, rs[1..]))
  }

  function BytesOf(rs: seq<Record>): seq<byte> {
    if rs == [] then [] else rs[0].header + rs[0].payload + BytesOf(rs[1..])
  }

  /** The records of the longest prefix that consists of whole records, and what follows. */
  datatype Parsed = Parsed(records: seq<Record>, rest: seq<byte>)

  function Parse(fmt: Format, buf: seq<byte>): (p: Parsed)
    requires fmt.Valid()
    ensures AllWhole(fmt, p.records)
  {
    if |buf| < fmt.headerSize then Parsed([], buf)
    else
      var h, len := buf[..fmt.headerSize], buf[fmt.lengthAt];
      if fmt.headerSize + len > |buf| then Parsed([], buf)
      else
        var p := Parse(fmt, buf[fmt.headerSize + len..]);
        Parsed([Record(h, buf[fmt.headerSize..fmt.headerSize + len])] + p.records, p.rest)
  }

  lemma BytesFirst(r: Record, rs: seq<Record>, tail: seq<byte>)
    ensures BytesOf([r] + rs) + tail == r.header + r.payload + (BytesOf(rs) + tail)
  {
    assert ([r] + rs)[1..] == rs;
    Assoc(r.header + r.payload, BytesOf(rs), tail);
  }

  lemma ThreeParts(buf: seq<byte>, i: nat, n: nat)
    requires i <= n <= |buf|
    ensures buf[..i] + buf[i..n] + buf[n..] == buf
  {
  }

  /** Parsing splits the buffer, loses no byte, and stops where no whole record starts. */
  lemma {:induction false} ParseSplits(fmt: Format, buf: seq<byte>)
    requires fmt.Valid()
    ensures var p := Parse(fmt, buf); BytesOf(p.records) + p.rest == buf
    ensures Parse(fmt, Parse(fmt, buf).rest).records == []
  {
    if |buf| >= fmt.headerSize && fmt.headerSize + buf[fmt.lengthAt] <= |buf| {
      var n := fmt.headerSize + buf[fmt.lengthAt];
      var q := Parse(fmt, buf[n..]);
      ParseSplits(fmt, buf[n..]);
      BytesFirst(Record(buf[..fmt.headerSize], buf[fmt.headerSize..n]), q.records, q.rest);
      ThreeParts(buf, fmt.headerSize, n);
    }
  }

  lemma ParseFirst(fmt: Format, r: Record, more: seq<byte>)
    requires fmt.Valid() && Whole(fmt, r)
    ensures Parse(fmt, r.header + r.payload + more) == Parsed([r] + Parse(fmt, more).records, Parse(fmt, more).rest)
  {
    var buf, n := r.header + r.payload + more, fmt.headerSize + |r.payload|;
    assert buf[..fmt.headerSize] == r.header;
    assert buf[fmt.headerSize..n] == r.payload;
    assert buf[n..] == more;
  }

  /** Whole records in front of anything are parsed as they are. */
  lemma {:induction false} ParseJoin(fmt: Format, rs: seq<Record>, tail: seq<byte>)
    requires fmt.Valid() && AllWhole(fmt, rs)
    ensures Parse(fmt, BytesOf(rs) + tail) == Parsed(rs + Parse(fmt, tail).records, Parse(fmt, tail).rest)
  {
    if rs == [] {
      assert BytesOf(rs) + tail == tail;
    } else {
      var r := rs[0];
      ParseJoin(fmt, rs[1..], tail);
      Assoc(r.header + r.payload, BytesOf(rs[1..]), tail);
      ParseFirst(fmt, r, BytesOf(rs[1..]) + tail);
      Assoc([r], rs[1..], Parse(fmt, tail).records);
      assert rs == [r] + rs[1..];
    }
  }

  /** The parsed prefix is the longest: any other way to start the buffer with whole records is
      a prefix of it. */
  lemma ParseIsLongest(fmt: Format, buf: seq<byte>, rs: seq<Record>, tail: seq<byte>)
    requires fmt.Valid() && AllWhole(fmt, rs) && buf == BytesOf(rs) + tail
    ensures rs <= Parse(fmt, buf).records
  {
    ParseJoin(fmt, rs, tail);
  }

  /** A buffer parses without rest exactly when it is a concatenation of whole records, and then
      these are the records parsed. */
  lemma ParsesWholeIff(fmt: Format, buf: seq<byte>)
    requires fmt.Valid()
    ensures Parse(fmt, buf).rest == [] <==> exists rs :: AllWhole(fmt, rs) && BytesOf(rs) == buf
    ensures forall rs | AllWhole(fmt, rs) && BytesOf(rs) == buf :: rs == Parse(fmt, buf).records
  {
    ParseSplits(fmt, buf);
    if Parse(fmt, buf).rest == [] {
      assert BytesOf(Parse(fmt, buf).records) == buf;
    }
    forall rs | AllWhole(fmt, rs) && BytesOf(rs) == buf
      ensures rs == Parse(fmt, buf).records && Parse(fmt, buf).rest == []
    {
      ParseJoin(fmt, rs, []);
      assert BytesOf(rs) + [] == buf && rs + [] == rs;
    }
  }

  // ---------- credit reports ----------

  /** One addition to TxCredits. */
  datatype Credit = Credit(endpoint: byte, credits: byte)

  /** The whole reports of a payload, up to one for an endpoint that does not exist. */
  function Reports(fmt: Format, payload: seq<byte>, endpointMax: nat): seq<Credit>
    requires fmt.Valid()
  {
    if |payload| < fmt.reportSize then []
    else
      var one := payload[..fmt.reportSize];
      if one[fmt.endpointAt] >= endpointMax then []
      else [Credit(one[fmt.endpointAt], one[fmt.creditsAt])] + Reports(fmt, payload[fmt.reportSize..], endpointMax)
  }

  /** What a record adds to the endpoints' credits. */
  function CreditsOf(fmt: Format, r: Record, endpointMax: nat): seq<Credit>
    requires fmt.Valid() && |r.header| == fmt.headerSize
  {
    if r.header[fmt.idAt] == fmt.creditsId then Reports(fmt, r.payload, endpointMax) else []
  }

  function AllCredits(fmt: Format, rs: seq<Record>, endpointMax: nat): seq<Credit>
    requires fmt.Valid() && AllWhole(fmt, rs)
  {
    if rs == [] then [] else CreditsOf(fmt, rs[0], endpointMax) + AllCredits(fmt, rs[1..], endpointMax)
  }

  // ---------- the obvious encoder ----------

  function EncodeReports(fmt: Format, cs: seq<Credit>): seq<byte>
    requires fmt.Valid()
  {
    if cs == [] then []
    else
      Struct(fmt.reportSize, fmt.endpointAt, cs[0].endpoint, fmt.creditsAt, cs[0].credits) + EncodeReports(fmt, cs[1..])
  }

  /** Messages of a trailer, as the target writes them. */
  datatype Item = CreditItem(reports: seq<Credit>) | OtherItem(id: byte, payload: seq<byte>)

  ghost predicate Encodable(fmt: Format, item: Item, endpointMax: nat)
    requires fmt.Valid()
  {
    match item
    case CreditItem(cs) => |EncodeReports(fmt, cs)| < 256 && forall i | 0 <= i < |cs| :: cs[i].endpoint < endpointMax
    case OtherItem(id, payload) => id != fmt.creditsId && |payload| < 256
  }

  lemma {:induction false} ReportsInvertEncode(fmt: Format, cs: seq<Credit>, endpointMax: nat)
    requires fmt.Valid() && forall i | 0 <= i < |cs| :: cs[i].endpoint < endpointMax
    ensures Reports(fmt, EncodeReports(fmt, cs), endpointMax) == cs
  {
    if cs != [] {
      ReportsInvertEncode(fmt, cs[1..], endpointMax);
      var one := Struct(fmt.reportSize, fmt.endpointAt, cs[0].endpoint, fmt.creditsAt, cs[0].credits);
      var more := EncodeReports(fmt, cs[1..]);
      assert (one + more)[..fmt.reportSize] == one && (one + more)[fmt.reportSize..] == more;
      assert cs == [cs[0]] + cs[1..];
    }
  }

  /** A report for an endpoint that does not exist discards every report behind it. */
  lemma {:induction false} BadEndpointStops(fmt: Format, good: seq<Credit>, bad: Credit, more: seq<Credit>,
                                            endpointMax: nat)
    requires fmt.Valid() && bad.endpoint >= endpointMax && forall i | 0 <= i < |good| :: good[i].endpoint < endpointMax
    ensures Reports(fmt, EncodeReports(fmt, good + [bad] + more), endpointMax) == good
    decreases |good|
  {
    var cs := good + [bad] + more;
    var one := Struct(fmt.reportSize, fmt.endpointAt, cs[0].endpoint, fmt.creditsAt, cs[0].credits);
    var rest := EncodeReports(fmt, cs[1..]);
    assert (one + rest)[..fmt.reportSize] == one && (one + rest)[fmt.reportSize..] == rest;
    if good != [] {
      BadEndpointStops(fmt, good[1..], bad, more, endpointMax);
      assert cs[1..] == good[1..] + [bad] + more;
      assert good == [good[0]] + good[1..];
    }
  }

  function EncodeItem(fmt: Format, item: Item): Record
    requires fmt.Valid()
  {
    match item
    case CreditItem(cs) =>
      var payload := EncodeReports(fmt, cs);
      var length := if |payload| < 256 then |payload| else 0;
      Record(Struct(fmt.headerSize, fmt.idAt, fmt.creditsId, fmt.lengthAt, length), payload)
    case OtherItem(id, payload) =>
      Record(Struct(fmt.headerSize, fmt.idAt, id, fmt.lengthAt, if |payload| < 256 then |payload| else 0), payload)
  }

  function EncodeTrailer(fmt: Format, items: seq<Item>): seq<byte>
    requires fmt.Valid()
  {
    if items == [] then []
    else EncodeItem(fmt, items[0]).header + EncodeItem(fmt, items[0]).payload + EncodeTrailer(fmt, items[1..])
  }

  function Granted(items: seq<Item>): seq<Credit> {
    if items == [] then []
    else (if items[0].CreditItem? then items[0].reports else []) + Granted(items[1..])
  }

  lemma ItemInverts(fmt: Format, item: Item, endpointMax: nat)
    requires fmt.Valid() && Encodable(fmt, item, endpointMax)
    ensures Whole(fmt, EncodeItem(fmt, item))
    ensures CreditsOf(fmt, EncodeItem(fmt, item), endpointMax) == if item.CreditItem? then item.reports else []
  {
    if item.CreditItem? {
      ReportsInvertEncode(fmt, item.reports, endpointMax);
    }
  }

  /** What the target writes into a trailer is what the host applies. */
  lemma {:induction false} TrailerRoundTrip(fmt: Format, items: seq<Item>, endpointMax: nat)
    requires fmt.Valid() && forall i | 0 <= i < |items| :: Encodable(fmt, items[i], endpointMax)
    ensures var p := Parse(fmt, EncodeTrailer(fmt, items));
      p.rest == [] && AllCredits(fmt, p.records, endpointMax) == Granted(items)
  {
    if items != [] {
      var r, more := EncodeItem(fmt, items[0]), EncodeTrailer(fmt, items[1..]);
      ItemInverts(fmt, items[0], endpointMax);
      TrailerRoundTrip(fmt, items[1..], endpointMax);
      assert r.header + r.payload + [] == r.header + r.payload;
      assert BytesOf([r]) == r.header + r.payload;
      ParseJoin(fmt, [r], more);
      var p := Parse(fmt, EncodeTrailer(fmt, items));
      assert p.records == [r] + Parse(fmt, more).records;
      assert p.records[1..] == Parse(fmt, more).records;
    }
  }

  // ---------- walking through a buffer ----------

  /** No whole record lies between `pos` and `end`. */
  predicate NoRecord(fmt: Format, buf: seq<byte>, pos: nat, end: nat)
    requires fmt.Valid() && pos <= end <= |buf|
  {
    pos + fmt.headerSize > end || pos + fmt.headerSize + buf[pos + fmt.lengthAt] > end
  }

  function After(fmt: Format, buf: seq<byte>, pos: nat, end: nat): (next: nat)
    requires fmt.Valid() && pos <= end <= |buf| && !NoRecord(fmt, buf, pos, end)
    ensures pos < next <= end
  {
    pos + fmt.headerSize + buf[pos + fmt.lengthAt]
  }

  /** Where the whole records that start at `pos` stop. */
  function Stop(fmt: Format, buf: seq<byte>, pos: nat, end: nat): nat
    requires fmt.Valid() && pos <= end <= |buf|
    decreases end - pos
  {
    if NoRecord(fmt, buf, pos, end) then pos else Stop(fmt, buf, After(fmt, buf, pos, end), end)
  }

  /** `now` and the reports between `pos` and `end`. */
  function ReportsInto(fmt: Format, buf: seq<byte>, pos: nat, end: nat, now: seq<Credit>, endpointMax: nat): seq<Credit>
    requires fmt.Valid() && pos <= end <= |buf|
    decreases end - pos
  {
    if pos + fmt.reportSize > end || buf[pos + fmt.endpointAt] >= endpointMax then now
    else
      var c := Credit(buf[pos + fmt.endpointAt], buf[pos + fmt.creditsAt]);
      ReportsInto(fmt, buf, pos + fmt.reportSize, end, now + [c], endpointMax)
  }

  /** `now` and what the record at `pos` adds. */
  function RecordInto(fmt: Format, buf: seq<byte>, pos: nat, end: nat, now: seq<Credit>, endpointMax: nat): seq<Credit>
    requires fmt.Valid() && pos <= end <= |buf| && !NoRecord(fmt, buf, pos, end)
  {
    if buf[pos + fmt.idAt] == fmt.creditsId
    then ReportsInto(fmt, buf, pos + fmt.headerSize, After(fmt, buf, pos, end), now, endpointMax)
    else now
  }

  /** `now` and what the whole records that start at `pos` add. */
  function CreditsInto(fmt: Format, buf: seq<byte>, pos: nat, end: nat, now: seq<Credit>, endpointMax: nat): seq<Credit>
    requires fmt.Valid() && pos <= end <= |buf|
    decreases end - pos
  {
    if NoRecord(fmt, buf, pos, end) then now
    else
      var added := RecordInto(fmt, buf, pos, end, now, endpointMax);
      CreditsInto(fmt, buf, After(fmt, buf, pos, end), end, added, endpointMax)
  }

  lemma {:induction false} ReportsIntoIsReports(fmt: Format, buf: seq<byte>, pos: nat, end: nat, now: seq<Credit>,
                                                endpointMax: nat)
    requires fmt.Valid() && pos <= end <= |buf|
    ensures ReportsInto(fmt, buf, pos, end, now, endpointMax) == now + Reports(fmt, buf[pos..end], endpointMax)
    decreases end - pos
  {
    if pos + fmt.reportSize > end || buf[pos + fmt.endpointAt] >= endpointMax {
      assert now + [] == now;
    } else {
      var c, next := Credit(buf[pos + fmt.endpointAt], buf[pos + fmt.creditsAt]), pos + fmt.reportSize;
      ReportsIntoIsReports(fmt, buf, next, end, now + [c], endpointMax);
      assert buf[pos..end][fmt.reportSize..] == buf[next..end];
      Assoc(now, [c], Reports(fmt, buf[next..end], endpointMax));
    }
  }

  lemma Slices(buf: seq<byte>, pos: nat, h: nat, next: nat, end: nat)
    requires pos <= h <= next <= end <= |buf|
    ensures buf[pos..end] == buf[pos..h] + buf[h..next] + buf[next..end]
  {
  }

  lemma ParseAt(fmt: Format, buf: seq<byte>, pos: nat, end: nat) returns (r: Record)
    requires fmt.Valid() && pos <= end <= |buf| && !NoRecord(fmt, buf, pos, end)
    ensures var h, next := pos + fmt.headerSize, After(fmt, buf, pos, end);
      && r == Record(buf[pos..h], buf[h..next]) && Whole(fmt, r)
      && Parse(fmt, buf[pos..end])
         == Parsed([r] + Parse(fmt, buf[next..end]).records, Parse(fmt, buf[next..end]).rest)
  {
    var h, next := pos + fmt.headerSize, After(fmt, buf, pos, end);
    r := Record(buf[pos..h], buf[h..next]);
    Slices(buf, pos, h, next, end);
    ParseFirst(fmt, r, buf[next..end]);
  }

  lemma RecordIntoIsCreditsOf(fmt: Format, buf: seq<byte>, pos: nat, end: nat, r: Record, now: seq<Credit>,
                              endpointMax: nat)
    requires fmt.Valid() && pos <= end <= |buf| && !NoRecord(fmt, buf, pos, end)
    requires var h, next := pos + fmt.headerSize, After(fmt, buf, pos, end); r == Record(buf[pos..h], buf[h..next])
    ensures RecordInto(fmt, buf, pos, end, now, endpointMax) == now + CreditsOf(fmt, r, endpointMax)
  {
    ReportsIntoIsReports(fmt, buf, pos + fmt.headerSize, After(fmt, buf, pos, end), now, endpointMax);
    assert now + [] == now;
  }

  lemma AllCreditsFirst(fmt: Format, r: Record, rs: seq<Record>, endpointMax: nat)
    requires fmt.Valid() && Whole(fmt, r) && AllWhole(fmt, rs)
    ensures AllWhole(fmt, [r] + rs)
    ensures AllCredits(fmt, [r] + rs, endpointMax) == CreditsOf(fmt, r, endpointMax) + AllCredits(fmt, rs, endpointMax)
  {
    assert ([r] + rs)[1..] == rs;
  }

  /** Walking through the buffer stops where parsing does and adds what the parsed records say. */
  lemma {:induction false} WalkIsParse(fmt: Format, buf: seq<byte>, pos: nat, end: nat, now: seq<Credit>,
                                       endpointMax: nat)
    requires fmt.Valid() && pos <= end <= |buf|
    ensures pos <= Stop(fmt, buf, pos, end) <= end
    ensures Parse(fmt, buf[pos..end]).rest == buf[Stop(fmt, buf, pos, end)..end]
    ensures Stop(fmt, buf, pos, end) == end <==> Parse(fmt, buf[pos..end]).rest == []
    ensures CreditsInto(fmt, buf, pos, end, now, endpointMax)
            == now + AllCredits(fmt, Parse(fmt, buf[pos..end]).records, endpointMax)
    decreases end - pos
  {
    if !NoRecord(fmt, buf, pos, end) {
      var r := ParseAt(fmt, buf, pos, end);
      var next := After(fmt, buf, pos, end);
      RecordIntoIsCreditsOf(fmt, buf, pos, end, r, now, endpointMax);
      AllCreditsFirst(fmt, r, Parse(fmt, buf[next..end]).records, endpointMax);
      WalkIsParse(fmt, buf, next, end, now + CreditsOf(fmt, r, endpointMax), endpointMax);
      Assoc(now, CreditsOf(fmt, r, endpointMax), AllCredits(fmt, Parse(fmt, buf[next..end]).records, endpointMax));
    } else {
      assert now + [] == now;
    }
  }

  // ---------- the loops ----------

  class TrailerReader {
    const fmt: Format
    const endpointMax: nat
    /** The additions to TxCredits made so far. */
    var applied: seq<Credit>

    constructor (fmt: Format, endpointMax: nat)
      ensures this.fmt == fmt && this.endpointMax == endpointMax && applied == []
    {
      this.fmt, this.endpointMax, applied := fmt, endpointMax, [];
    }

    /** htc_process_credit_rpt on the `n` reports of a payload from `start` to `end`. */
    method ProcessCreditReport(buf: seq<byte>, start: nat, n: nat, ghost end: nat)
      requires fmt.Valid() && start <= end <= |buf| && n == (end - start) / fmt.reportSize
      modifies this`applied
      ensures applied == ReportsInto(fmt, buf, start, end, old(applied), endpointMax)
    {
      var i, pos := 0, start;
      ghost var credits := ReportsInto(fmt, buf, start, end, applied, endpointMax);
      while i < n
        invariant 0 <= i <= n && start <= pos <= end && n - i == (end - pos) / fmt.reportSize
        invariant ReportsInto(fmt, buf, pos, end, applied, endpointMax) == credits
      {
        OneReportLess(end - pos, fmt.reportSize);
        if buf[pos + fmt.endpointAt] >= endpointMax {
          break;
        }
        applied := applied + [Credit(buf[pos + fmt.endpointAt], buf[pos + fmt.creditsAt])];
        i, pos := i + 1, pos + fmt.reportSize;
      }
      OneReportLess(end - pos, fmt.reportSize);
    }

    static lemma OneReportLess(len: nat, c: nat)
      requires c > 0
      ensures len / c > 0 <==> len >= c
      ensures len >= c ==> (len - c) / c == len / c - 1
    {
      var q, r := len / c, len % c;
      assert len == q * c + r;
      if q > 0 {
        assert q * c == (q - 1) * c + c;
        assert (q - 1) * c >= 0;
        QuotientUnique(q - 1, r, (len - c) / c, (len - c) % c, c);
      }
    }

    /** The switch on the record id: a credit record holds as many reports as fit its length. */
    method ApplyRecord(recordId: byte, recordLength: nat, buf: seq<byte>, pos: nat, ghost start: nat, ghost end: nat)
      requires fmt.Valid() && start <= end <= |buf| && !NoRecord(fmt, buf, start, end)
      requires pos == start + fmt.headerSize
      requires recordId == buf[start + fmt.idAt] && recordLength == buf[start + fmt.lengthAt]
      modifies this`applied
      ensures applied == RecordInto(fmt, buf, start, end, old(applied), endpointMax)
    {
      if recordId == fmt.creditsId {
        ProcessCreditReport(buf, pos, recordLength / fmt.reportSize, pos + recordLength);
      }
    }

    /** One turn of the loop: a whole record is applied, anything else is an error. */
    method NextRecord(buf: seq<byte>, pos: nat, left: nat, ghost end: nat) returns (ok: bool, pos': nat, left': nat)
      requires fmt.Valid() && left > 0 && pos + left == end <= |buf|
      modifies this`applied
      ensures ok <==> !NoRecord(fmt, buf, pos, end)
      ensures if ok then pos' == After(fmt, buf, pos, end) && pos' + left' == end
                         && applied == RecordInto(fmt, buf, pos, end, old(applied), endpointMax)
              else applied == old(applied)
    {
      pos', left' := pos, left;
      if left < fmt.headerSize {
        return false, pos', left';
      }
      var recordLength, recordId := buf[pos + fmt.lengthAt], buf[pos + fmt.idAt];
      pos', left' := pos + fmt.headerSize, left - fmt.headerSize;
      if recordLength > left' {
        return false, pos', left';
      }
      ApplyRecord(recordId, recordLength, buf, pos', pos, end);
      return true, pos' + recordLength, left' - recordLength;
    }

    /** htc_process_trailer on the `length` bytes at `start`: it applies the credit records of
        the longest prefix of whole records, and succeeds when that is everything. */
    method ProcessTrailer(buf: seq<byte>, start: nat, length: int) returns (ok: bool)
      requires fmt.Valid() && start + (if length > 0 then length else 0) <= |buf|
      modifies this`applied
      ensures var end := start + if length > 0 then length else 0;
        && (ok <==> Stop(fmt, buf, start, end) == end)
        && applied == CreditsInto(fmt, buf, start, end, old(applied), endpointMax)
    {
      var pos, left := start, length;
      ghost var end: nat := start + if length > 0 then length else 0;
      ghost var stop, credits := Stop(fmt, buf, start, end), CreditsInto(fmt, buf, start, end, applied, endpointMax);
      ok := true;
      while ok && left > 0
        invariant start <= pos <= end && (left > 0 ==> pos + left == end) && (ok && left <= 0 ==> pos == end)
        invariant Stop(fmt, buf, pos, end) == stop && (!ok ==> NoRecord(fmt, buf, pos, end) && pos < end)
        invariant CreditsInto(fmt, buf, pos, end, applied, endpointMax) == credits
        decreases ok, left
      {
        var next, rest;
        ok, next, rest := NextRecord(buf, pos, left, end);
        if ok {
          pos, left := next, rest;
        }
      }
    }
  }
}
