/** The head of a binlog: its opening time, and the set of transactions behind it. */
module BinlogHead {
  import opened Common

  type Byte = b: int | 0 <= b < 256 witness 0
  type Bytes = seq<Byte>

  // ----- little-endian integers -----

  function ValueOf(b: Bytes): (v: nat) {
    if b == [] then 0 else b[0] + 256 * ValueOf(b[1..])
  }

  function Encode(v: nat, width: nat): (b: Bytes)
    ensures |b| == width
  {
    if width == 0 then [] else [v % 256] + Encode(v / 256, width - 1)
  }

  function Limit(width: nat): (n: nat)
    ensures n >= 1
  {
    if width == 0 then 1 else 256 * Limit(width - 1)
  }

  lemma {:induction false} ValueOfEncoded(v: nat, width: nat)
    requires v < Limit(width)
    ensures ValueOf(Encode(v, width)) == v
  {
    if width > 0 {
      assert v / 256 < Limit(width - 1);
      ValueOfEncoded(v / 256, width - 1);
      assert Encode(v, width)[1..] == Encode(v / 256, width - 1);
    }
  }

  const U32: nat := 0x1_0000_0000
  const U64: nat := 0x1_0000_0000_0000_0000
  // One in the byte of the SID count that carries the encoding's format.
  const FORMAT_UNIT: nat := 0x100_0000_0000_0000

  lemma FieldLimits()
    ensures Limit(4) == U32 && Limit(8) == U64
  {
    assert Limit(2) == 0x1_0000;
    assert Limit(4) == 0x1_0000 * Limit(2);
    assert Limit(6) == 0x1_0000 * Limit(4);
    assert Limit(8) == 0x1_0000 * Limit(6);
  }

  // ----- the binary GTID set -----

  /** Transactions `start` up to but not including `end`. */
  datatype Interval = Interval(start: nat, end: nat)

  datatype Sid = Sid(uuid: Bytes, intervals: seq<Interval>)

  /** No interval is empty, and a UUID has its sixteen bytes. */
  predicate Proper(intervals: seq<Interval>) {
    forall k | 0 <= k < |intervals| :: intervals[k].start < intervals[k].end
  }

  predicate ProperSids(sids: seq<Sid>) {
    forall k | 0 <= k < |sids| :: |sids[k].uuid| == 16 && Proper(sids[k].intervals)
  }

  /** Every number fits its field. */
  predicate Fits(intervals: seq<Interval>) {
    |intervals| < U64 && forall k | 0 <= k < |intervals| :: intervals[k].end < U64
  }

  /** A set in the one encoding the format byte marks as plain. */
  predicate WellFormedSet(sids: seq<Sid>) {
    && |sids| < FORMAT_UNIT && ProperSids(sids)
    && forall k | 0 <= k < |sids| :: Fits(sids[k].intervals)
  }

  function EncodeIntervals(intervals: seq<Interval>): Bytes {
    if intervals == [] then []
    else Encode(intervals[0].start, 8) + Encode(intervals[0].end, 8) + EncodeIntervals(intervals[1..])
  }

  function EncodeSid(s: Sid): Bytes {
    s.uuid + Encode(|s.intervals|, 8) + EncodeIntervals(s.intervals)
  }

  function EncodeSids(sids: seq<Sid>): Bytes {
    if sids == [] then [] else EncodeSid(sids[0]) + EncodeSids(sids[1..])
  }

  function EncodeSet(sids: seq<Sid>): Bytes {
    Encode(|sids|, 8) + EncodeSids(sids)
  }

  /** A number and what follows it. */
  function ReadU64(b: Bytes): (r: Option<(nat, Bytes)>)
    ensures r.Some? ==> |r.value.1| == |b| - 8
  {
    if |b| < 8 then None else Some((ValueOf(b[..8]), b[8..]))
  }

  function ReadInterval(b: Bytes): (r: Option<(Interval, Bytes)>)
    ensures r.Some? ==> |r.value.1| == |b| - 16 && r.value.0.start < r.value.0.end
  {
    match ReadU64(b)
    case None => None
    case Some((start, rest)) =>
      match ReadU64(rest)
      case None => None
      case Some((end, tail)) => if end > start then Some((Interval(start, end), tail)) else None
  }

  function ReadIntervals(b: Bytes, n: nat): (r: Option<(seq<Interval>, Bytes)>)
    ensures r.Some? ==> |r.value.0| == n && Proper(r.value.0)
    decreases n
  {
    if n == 0 then Some(([], b))
    else
      match ReadInterval(b)
      case None => None
      case Some((i, rest)) =>
        match ReadIntervals(rest, n - 1)
        case None => None
        case Some((more, tail)) => Some(([i] + more, tail))
  }

  function ReadSid(b: Bytes): (r: Option<(Sid, Bytes)>)
    ensures r.Some? ==> |r.value.0.uuid| == 16 && Proper(r.value.0.intervals)
  {
    if |b| < 16 then None
    else
      match ReadU64(b[16..])
      case None => None
      case Some((n, rest)) =>
        match ReadIntervals(rest, n)
        case None => None
        case Some((intervals, tail)) => Some((Sid(b[..16], intervals), tail))
  }

  function ReadSids(b: Bytes, n: nat): (r: Option<seq<Sid>>)
    ensures r.Some? ==> |r.value| == n && ProperSids(r.value)
    decreases n
  {
    if n == 0 then Some([])
    else
      match ReadSid(b)
      case None => None
      case Some((s, rest)) =>
        match ReadSids(rest, n - 1)
        case None => None
        case Some(more) => Some([s] + more)
  }

  /** The set a payload encodes; anything after it is ignored, a tagged or cut set is refused. */
  function ReadSet(payload: Bytes): (r: Option<seq<Sid>>)
    ensures r.Some? ==> ProperSids(r.value)
  {
    match ReadU64(payload)
    case None => None
    case Some((n, rest)) => if n / FORMAT_UNIT == 0 then ReadSids(rest, n) else None
  }

  // ----- decoding inverts encoding -----

  lemma ReadsU64(v: nat, tail: Bytes)
    requires v < U64
    ensures ReadU64(Encode(v, 8) + tail) == Some((v, tail))
  {
    FieldLimits();
    ValueOfEncoded(v, 8);
    assert (Encode(v, 8) + tail)[..8] == Encode(v, 8);
    assert (Encode(v, 8) + tail)[8..] == tail;
  }

  lemma ReadsInterval(i: Interval, tail: Bytes)
    requires i.start < i.end < U64
    ensures ReadInterval(Encode(i.start, 8) + (Encode(i.end, 8) + tail)) == Some((i, tail))
  {
    ReadsU64(i.start, Encode(i.end, 8) + tail);
    ReadsU64(i.end, tail);
  }

  lemma ReadsOneMore(b: Bytes, n: nat, i: Interval, rest: Bytes, more: seq<Interval>, tail: Bytes)
    requires n > 0 && ReadInterval(b) == Some((i, rest)) && ReadIntervals(rest, n - 1) == Some((more, tail))
    ensures ReadIntervals(b, n) == Some(([i] + more, tail))
  {}

  lemma {:induction false} ReadsIntervals(intervals: seq<Interval>, tail: Bytes)
    requires Proper(intervals) && forall k | 0 <= k < |intervals| :: intervals[k].end < U64
    ensures ReadIntervals(EncodeIntervals(intervals) + tail, |intervals|) == Some((intervals, tail))
  {
    if intervals == [] {
      assert EncodeIntervals(intervals) + tail == tail;
    } else {
      var i, more := intervals[0], intervals[1..];
      assert intervals == [i] + more;
      ReadsInterval(i, EncodeIntervals(more) + tail);
      ReadsIntervals(more, tail);
      var rest := EncodeIntervals(more) + tail;
      assert EncodeIntervals(intervals) + tail == Encode(i.start, 8) + (Encode(i.end, 8) + rest);
      ReadsOneMore(EncodeIntervals(intervals) + tail, |intervals|, i, rest, more, tail);
    }
  }

  lemma ReadsSid(s: Sid, tail: Bytes)
    requires |s.uuid| == 16 && Proper(s.intervals) && Fits(s.intervals)
    ensures ReadSid(EncodeSid(s) + tail) == Some((s, tail))
  {
    var b := EncodeSid(s) + tail;
    assert b[..16] == s.uuid;
    assert b[16..] == Encode(|s.intervals|, 8) + (EncodeIntervals(s.intervals) + tail);
    ReadsU64(|s.intervals|, EncodeIntervals(s.intervals) + tail);
    ReadsIntervals(s.intervals, tail);
  }

  lemma ReadsOneMoreSid(b: Bytes, n: nat, s: Sid, rest: Bytes, more: seq<Sid>)
    requires n > 0 && ReadSid(b) == Some((s, rest)) && ReadSids(rest, n - 1) == Some(more)
    ensures ReadSids(b, n) == Some([s] + more)
  {}

  lemma SidThenMore(sids: seq<Sid>, s: Sid, more: seq<Sid>, tail: Bytes)
    requires sids == [s] + more
    ensures EncodeSids(sids) + tail == EncodeSid(s) + (EncodeSids(more) + tail)
  {
    assert sids[1..] == more;
  }

  lemma {:induction false} ReadsSids(sids: seq<Sid>, tail: Bytes)
    requires ProperSids(sids) && forall k | 0 <= k < |sids| :: Fits(sids[k].intervals)
    ensures ReadSids(EncodeSids(sids) + tail, |sids|) == Some(sids)
  {
    if sids != [] {
      var s, more := sids[0], sids[1..];
      HeadThenTail(sids);
      ReadsSids(more, tail);
      ReadsSid(s, EncodeSids(more) + tail);
      SidThenMore(sids, s, more, tail);
      ReadsOneMoreSid(EncodeSids(sids) + tail, |sids|, s, EncodeSids(more) + tail, more);
    }
  }

  /** Decoding inverts encoding, whatever follows the set. */
  lemma SetRoundTrips(sids: seq<Sid>, tail: Bytes)
    requires WellFormedSet(sids)
    ensures ReadSet(EncodeSet(sids) + tail) == Some(sids)
  {
    ReadsU64(|sids|, EncodeSids(sids) + tail);
    ReadsSids(sids, tail);
    assert EncodeSet(sids) + tail == Encode(|sids|, 8) + (EncodeSids(sids) + tail);
  }

  // ----- the text a set is reported as -----

  function Digit(d: nat): char
    requires d < 10
  {
    '0' + d as char
  }

  function Decimal(n: nat): (s: string)
    ensures s != []
  {
    if n < 10 then [Digit(n)] else Decimal(n / 10) + [Digit(n % 10)]
  }

  function HexDigit(d: nat): char
    requires d < 16
  {
    if d < 10 then '0' + d as char else 'a' + (d - 10) as char
  }

  function Hex(b: Bytes): (s: string)
    ensures |s| == 2 * |b|
  {
    if b == [] then [] else [HexDigit(b[0] / 16), HexDigit(b[0] % 16)] + Hex(b[1..])
  }

  function UuidText(uuid: Bytes): (s: string)
    requires |uuid| == 16
    ensures |s| == 36
  {
    var hex := Hex(uuid);
    hex[..8] + "-" + hex[8..12] + "-" + hex[12..16] + "-" + hex[16..20] + "-" + hex[20..]
  }

  function IntervalText(i: Interval): string
    requires i.start < i.end
  {
    if i.end == i.start + 1 then ":" + Decimal(i.start) else ":" + Decimal(i.start) + "-" + Decimal(i.end - 1)
  }

  function IntervalsText(intervals: seq<Interval>): string
    requires Proper(intervals)
  {
    if intervals == [] then ""
    else IntervalsText(intervals[..|intervals| - 1]) + IntervalText(intervals[|intervals| - 1])
  }

  function SidText(s: Sid): string
    requires |s.uuid| == 16 && Proper(s.intervals)
  {
    UuidText(s.uuid) + IntervalsText(s.intervals)
  }

  /** The SIDs' texts, joined by commas. */
  function SetText(sids: seq<Sid>): string
    requires ProperSids(sids)
  {
    if sids == [] then ""
    else
      var front, last := sids[..|sids| - 1], SidText(sids[|sids| - 1]);
      if front == [] then last else SetText(front) + "," + last
  }

  // ----- a reader of the text, by what its digits are worth -----

  /** The bytes a run of hexadecimal digits stands for, the more significant digit of each first. */
  function HexValue(c: char): Option<nat> {
    if '0' <= c <= '9' then Some(c as nat - '0' as nat)
    else if 'a' <= c <= 'f' then Some(10 + c as nat - 'a' as nat)
    else None
  }

  function ReadHex(s: string): Option<Bytes> {
    if s == "" then Some([])
    else if |s| == 1 || HexValue(s[0]).None? || HexValue(s[1]).None? then None
    else
      match ReadHex(s[2..])
      case None => None
      case Some(more) => Some([16 * HexValue(s[0]).value + HexValue(s[1]).value] + more)
  }

  /** Eight, four, four, four and twelve digits, a dash between each two groups. */
  function ReadUuid(s: string): Option<Bytes>
    requires |s| == 36
  {
    if s[8] == '-' && s[13] == '-' && s[18] == '-' && s[23] == '-' then
      ReadHex(s[..8] + s[9..13] + s[14..18] + s[19..23] + s[24..])
    else None
  }

  /** The number a text continues with after digits worth `sofar`, the most significant first, and what follows. */
  function ReadDigits(s: string, sofar: nat): (r: (nat, string))
    ensures |r.1| <= |s| && (s != "" && IsDigit(s[0]) ==> |r.1| < |s|)
  {
    if s != "" && IsDigit(s[0]) then ReadDigits(s[1..], 10 * sofar + (s[0] as nat - '0' as nat)) else (sofar, s)
  }

  function ReadNumber(s: string): (r: Option<(nat, string)>)
    ensures r.Some? ==> |r.value.1| < |s|
  {
    if s != "" && IsDigit(s[0]) then Some(ReadDigits(s, 0)) else None
  }

  /** The transactions from the first number to the second, both included; or the first alone. */
  function ReadRange(s: string): (r: Option<(Interval, string)>)
    ensures r.Some? ==> |r.value.1| < |s|
  {
    match ReadNumber(s)
    case None => None
    case Some((first, rest)) =>
      if rest == "" || rest[0] != '-' then Some((Interval(first, first + 1), rest))
      else
        match ReadNumber(rest[1..])
        case None => None
        case Some((last, tail)) => Some((Interval(first, last + 1), tail))
  }

  /** Each range after a colon. */
  function ReadRanges(s: string): Option<(seq<Interval>, string)>
    decreases |s|
  {
    if s == "" || s[0] != ':' then Some(([], s))
    else
      match ReadRange(s[1..])
      case None => None
      case Some((i, rest)) =>
        match ReadRanges(rest)
        case None => None
        case Some((more, tail)) => Some(([i] + more, tail))
  }

  function ReadSidText(s: string): Option<(Sid, string)> {
    if |s| < 36 || ReadUuid(s[..36]).None? then None
    else
      match ReadRanges(s[36..])
      case None => None
      case Some((intervals, tail)) => Some((Sid(ReadUuid(s[..36]).value, intervals), tail))
  }

  /** A set's text: its servers, a comma between each two. */
  function ReadText(s: string): Option<seq<Sid>>
    decreases |s|
  {
    if s == "" then Some([])
    else
      match ReadSidText(s)
      case None => None
      case Some((sid, tail)) =>
        if tail == "" then Some([sid])
        else if tail[0] != ',' || |tail| >= |s| then None
        else
          match ReadText(tail[1..])
          case None => None
          case Some(more) => Some([sid] + more)
  }

  // ----- the text reads back -----

  lemma ReadsDigit(d: nat, tail: string, sofar: nat)
    requires d < 10
    ensures ReadDigits([Digit(d)] + tail, sofar) == ReadDigits(tail, 10 * sofar + d)
  {
    assert ([Digit(d)] + tail)[1..] == tail;
  }

  lemma {:induction false} ReadsDecimal(n: nat, tail: string)
    ensures ReadDigits(Decimal(n) + tail, 0) == ReadDigits(tail, n)
    ensures IsDigit(Decimal(n)[0])
  {
    if n < 10 {
      ReadsDigit(n, tail, 0);
    } else {
      Reassociate(Decimal(n / 10), [Digit(n % 10)], tail);
      ReadsDecimal(n / 10, [Digit(n % 10)] + tail);
      ReadsDigit(n % 10, tail, n / 10);
    }
  }

  lemma ReadsNumber(n: nat, tail: string)
    requires NoDigitFirst(tail)
    ensures ReadNumber(Decimal(n) + tail) == Some((n, tail))
  {
    ReadsDecimal(n, tail);
    assert (Decimal(n) + tail)[0] == Decimal(n)[0];
  }


  predicate NoDigitFirst(s: string) {
    s == [] || !IsDigit(s[0])
  }

  /** What may follow an interval: nothing, another interval, or another SID. */
  predicate AfterInterval(s: string) {
    s == [] || s[0] == ':' || s[0] == ','
  }

  lemma ReadsRange(i: Interval, tail: string)
    requires i.start < i.end && AfterInterval(tail)
    ensures (IntervalText(i) + tail)[0] == ':' && ReadRange((IntervalText(i) + tail)[1..]) == Some((i, tail))
  {
    if i.end == i.start + 1 {
      assert (IntervalText(i) + tail)[1..] == Decimal(i.start) + tail;
      ReadsNumber(i.start, tail);
    } else {
      var rest := "-" + (Decimal(i.end - 1) + tail);
      assert (IntervalText(i) + tail)[1..] == Decimal(i.start) + rest;
      assert rest[1..] == Decimal(i.end - 1) + tail;
      ReadsNumber(i.start, rest);
      ReadsNumber(i.end - 1, tail);
    }
  }

  lemma LastInterval(intervals: seq<Interval>, front: seq<Interval>, last: Interval)
    requires Proper(intervals) && intervals == front + [last]
    ensures Proper(front) && last.start < last.end
    ensures IntervalsText(intervals) == IntervalsText(front) + IntervalText(last)
  {
    assert intervals[|front|] == last && intervals[..|front|] == front;
    assert forall k | 0 <= k < |front| :: front[k] == intervals[k];
  }

  lemma {:induction false} IntervalsFromTheFront(intervals: seq<Interval>, first: Interval, more: seq<Interval>)
    requires Proper(intervals) && intervals == [first] + more
    ensures Proper(more) && first.start < first.end
    ensures IntervalsText(intervals) == IntervalText(first) + IntervalsText(more)
    decreases |more|
  {
    assert intervals[0] == first && forall k | 0 <= k < |more| :: more[k] == intervals[k + 1];
    if more == [] {
      LastInterval(intervals, [], first);
    } else {
      var front, last := more[..|more| - 1], more[|more| - 1];
      FrontAndLast(more);
      Reassociate([first], front, [last]);
      LastInterval(intervals, [first] + front, last);
      LastInterval(more, front, last);
      IntervalsFromTheFront([first] + front, first, front);
      Reassociate(IntervalText(first), IntervalsText(front), IntervalText(last));
    }
  }

  predicate AfterSid(s: string) {
    s == [] || s[0] == ','
  }

  lemma IntervalsStartWithColon(intervals: seq<Interval>, tail: string)
    requires Proper(intervals) && AfterSid(tail)
    ensures AfterInterval(IntervalsText(intervals) + tail)
    ensures AfterSid(IntervalsText(intervals) + tail) <==> intervals == []
  {
    if intervals != [] {
      HeadThenTail(intervals);
      IntervalsFromTheFront(intervals, intervals[0], intervals[1..]);
    }
  }

  lemma FirstInterval(intervals: seq<Interval>, tail: string)
    requires intervals != [] && Proper(intervals) && AfterSid(tail)
    ensures IntervalsText(intervals) + tail == IntervalText(intervals[0]) + (IntervalsText(intervals[1..]) + tail)
    ensures AfterInterval(IntervalsText(intervals[1..]) + tail)
    ensures intervals == [intervals[0]] + intervals[1..]
  {
    HeadThenTail(intervals);
    IntervalsFromTheFront(intervals, intervals[0], intervals[1..]);
    Reassociate(IntervalText(intervals[0]), IntervalsText(intervals[1..]), tail);
    IntervalsStartWithColon(intervals[1..], tail);
  }

  lemma {:induction false} ReadsRanges(intervals: seq<Interval>, tail: string)
    requires Proper(intervals) && AfterSid(tail)
    ensures ReadRanges(IntervalsText(intervals) + tail) == Some((intervals, tail))
  {
    if intervals == [] {
      assert IntervalsText(intervals) + tail == tail;
    } else {
      FirstInterval(intervals, tail);
      ReadsRange(intervals[0], IntervalsText(intervals[1..]) + tail);
      ReadsRanges(intervals[1..], tail);
    }
  }

  lemma ReadsHexDigit(d: nat)
    requires d < 16
    ensures HexValue(HexDigit(d)) == Some(d)
  {}

  lemma ReadsByte(b: Byte, more: string)
    ensures ReadHex([HexDigit(b / 16), HexDigit(b % 16)] + more) ==
      match ReadHex(more) { case None => None case Some(rest) => Some([b] + rest) }
  {
    var s := [HexDigit(b / 16), HexDigit(b % 16)] + more;
    ReadsHexDigit(b / 16);
    ReadsHexDigit(b % 16);
    assert s[2..] == more && 16 * (b / 16) + b % 16 == b;
  }

  lemma {:induction false} ReadsHex(b: Bytes)
    ensures ReadHex(Hex(b)) == Some(b)
  {
    if b != [] {
      ReadsHex(b[1..]);
      ReadsByte(b[0], Hex(b[1..]));
      HeadThenTail(b);
    }
  }

  lemma ReadsUuid(uuid: Bytes)
    requires |uuid| == 16
    ensures ReadUuid(UuidText(uuid)) == Some(uuid)
  {
    UuidParts(uuid);
    ReadsHex(uuid);
  }

  lemma UuidParts(a: Bytes)
    requires |a| == 16
    ensures var t := UuidText(a);
      Hex(a) == t[..8] + t[9..13] + t[14..18] + t[19..23] + t[24..]
  {
    var t, h := UuidText(a), Hex(a);
    assert t[..8] == h[..8] && t[9..13] == h[8..12] && t[14..18] == h[12..16] && t[19..23] == h[16..20]
      && t[24..] == h[20..];
    assert h == h[..8] + h[8..12] + h[12..16] + h[16..20] + h[20..];
  }

  lemma TakeAndDrop<T>(a: seq<T>, b: seq<T>)
    ensures (a + b)[..|a|] == a && (a + b)[|a|..] == b
  {}

  lemma ReadsSidText(s: Sid, tail: string)
    requires |s.uuid| == 16 && Proper(s.intervals) && AfterSid(tail)
    ensures ReadSidText(SidText(s) + tail) == Some((s, tail))
  {
    var uuid, ranges := UuidText(s.uuid), IntervalsText(s.intervals);
    Reassociate(uuid, ranges, tail);
    TakeAndDrop(uuid, ranges + tail);
    ReadsUuid(s.uuid);
    ReadsRanges(s.intervals, tail);
  }

  lemma ReadsFirstSid(s: Sid, tail: string)
    requires |s.uuid| == 16 && Proper(s.intervals) && AfterSid(tail)
    ensures ReadText(SidText(s) + tail) ==
      if tail == "" then Some([s])
      else match ReadText(tail[1..]) { case None => None case Some(more) => Some([s] + more) }
  {
    ReadsSidText(s, tail);
  }

  function RestText(sids: seq<Sid>): (s: string)
    requires ProperSids(sids)
    ensures AfterSid(s) && (s == "" <==> sids == [])
  {
    if sids == [] then "" else "," + SetText(sids)
  }

  lemma RestGrows(sids: seq<Sid>, front: seq<Sid>, last: Sid)
    requires ProperSids(sids) && sids == front + [last]
    ensures ProperSids(front) && |last.uuid| == 16 && Proper(last.intervals)
    ensures RestText(sids) == RestText(front) + "," + SidText(last)
  {
    assert last == sids[|sids| - 1] && forall k | 0 <= k < |front| :: front[k] == sids[k];
    assert sids[..|sids| - 1] == front;
    if front == [] {
      assert RestText([]) + "," == ",";
    } else {
      SidAfterSid(",", SetText(front), SidText(last));
    }
  }

  lemma SetTextGrows(sids: seq<Sid>, sid: Sid)
    requires ProperSids(sids) && |sid.uuid| == 16 && Proper(sid.intervals)
    ensures ProperSids(sids + [sid])
    ensures SetText(sids + [sid]) == if sids == [] then SidText(sid) else SetText(sids) + "," + SidText(sid)
  {
    assert (sids + [sid])[..|sids|] == sids;
  }

  lemma FrontAndLast<T>(xs: seq<T>)
    requires xs != []
    ensures xs == xs[..|xs| - 1] + [xs[|xs| - 1]]
  {}

  lemma ProperParts(sids: seq<Sid>, a: seq<Sid>, b: seq<Sid>)
    requires ProperSids(sids) && sids == a + b
    ensures ProperSids(a) && ProperSids(b)
  {
    assert forall k | 0 <= k < |a| :: a[k] == sids[k];
    assert forall k | 0 <= k < |b| :: b[k] == sids[|a| + k];
  }

  lemma BothGrow(first: Sid, start: seq<Sid>, front: seq<Sid>, last: Sid)
    requires ProperSids(start) && ProperSids(front) && ProperSids([first]) && ProperSids([last]) && start != []
    requires SetText(start) == SidText([first][0]) + RestText(front)
    ensures ProperSids(start + [last]) && ProperSids(front + [last])
    ensures SetText(start + [last]) == SidText([first][0]) + RestText(front + [last])
  {
    assert [last][0] == last && [first][0] == first;
    SetTextGrows(start, last);
    SetTextGrows(front, last);
    RestGrows(front + [last], front, last);
    SidAfterSid(SidText(first), RestText(front), SidText(last));
  }

  lemma {:induction false} SetFromTheFront(sids: seq<Sid>, first: Sid, more: seq<Sid>)
    requires ProperSids(sids) && sids == [first] + more
    ensures ProperSids([first]) && ProperSids(more)
    ensures SetText(sids) == SidText([first][0]) + RestText(more)
    decreases |more|
  {
    ProperParts(sids, [first], more);
    if more == [] {
      assert sids == [] + [first] && [first][0] == first;
      SetTextGrows([], first);
    } else {
      var front, last := more[..|more| - 1], more[|more| - 1];
      FrontAndLast(more);
      ProperParts(more, front, [last]);
      Reassociate([first], front, [last]);
      ProperParts(sids, [first] + front, [last]);
      SetFromTheFront([first] + front, first, front);
      BothGrow(first, [first] + front, front, last);
    }
  }

  lemma SidAfterSid(first: string, between: string, last: string)
    ensures first + between + "," + last == first + (between + "," + last)
  {}

  lemma HeadThenTail<T>(xs: seq<T>)
    requires xs != []
    ensures xs == [xs[0]] + xs[1..]
  {}

  /** The text a set is reported as reads back as the set: every byte of every UUID, and every range. */
  lemma {:induction false} TextReadsBack(sids: seq<Sid>)
    requires ProperSids(sids)
    ensures ReadText(SetText(sids)) == Some(sids)
  {
    if sids != [] {
      var first, more := sids[0], sids[1..];
      HeadThenTail(sids);
      SetFromTheFront(sids, first, more);
      assert [first][0] == first;
      ReadsFirstSid(first, RestText(more));
      if more != [] {
        assert RestText(more)[1..] == SetText(more);
        TextReadsBack(more);
      } else {
        assert sids == [first];
      }
    }
  }

  /** So two sets with one text are one set. */
  lemma TextDeterminesSet(a: seq<Sid>, b: seq<Sid>)
    requires ProperSids(a) && ProperSids(b) && SetText(a) == SetText(b)
    ensures a == b
  {
    TextReadsBack(a);
    TextReadsBack(b);
  }

  lemma TextIsEmptyOnlyForNone(sids: seq<Sid>)
    requires ProperSids(sids)
    ensures SetText(sids) == "" <==> sids == []
  {}

  // ----- events -----

  const MAGIC: Bytes := [0xfe, 0x62, 0x69, 0x6e]
  const EVENT_HEADER: nat := 19
  const FORMAT_DESCRIPTION_EVENT: Byte := 15
  const PREVIOUS_GTIDS_LOG_EVENT: Byte := 35
  const EVENT_BUDGET: nat := 4

  /** What the parser takes from an event. */
  datatype Header = Header(timestamp: nat, kind: Byte, payload: Bytes)

  datatype Head = Head(createdAt: nat, previousGtids: string)

  function ReadEvent(b: Bytes): (r: Option<(Header, Bytes)>)
    ensures r.Some? ==> |b| - |r.value.1| >= EVENT_HEADER && r.value.1 == b[|b| - |r.value.1|..]
  {
    if |b| < EVENT_HEADER then None
    else
      var len := ValueOf(b[9..13]);
      if len < EVENT_HEADER || |b| < len then None
      else Some((Header(ValueOf(b[..4]), b[4], b[EVENT_HEADER..len]), b[len..]))
  }

  /** The creation time and the payload of the Previous_gtids event, when it comes after a
      Format_description and within the budget. */
  function FindSet(b: Bytes, budget: nat, created: Option<nat>): Option<(nat, Bytes)> {
    if budget == 0 then None
    else
      match ReadEvent(b)
      case None => None
      case Some((h, rest)) =>
        if h.kind == FORMAT_DESCRIPTION_EVENT then FindSet(rest, budget - 1, Some(h.timestamp))
        else if h.kind == PREVIOUS_GTIDS_LOG_EVENT then Found(created, h.payload)
        else FindSet(rest, budget - 1, created)
  }

  function Found(created: Option<nat>, payload: Bytes): Option<(nat, Bytes)> {
    if created.None? then None else Some((created.value, payload))
  }

  /** The head a binlog's first bytes show; anything unreadable is `None`, never an empty set. */
  function ParseHead(b: Bytes): Option<Head> {
    if |b| >= 4 && b[..4] == MAGIC then HeadOf(FindSet(b[4..], EVENT_BUDGET, None)) else None
  }

  function HeadOf(found: Option<(nat, Bytes)>): Option<Head> {
    if found.None? || ReadSet(found.value.1).None? then None
    else Some(Head(found.value.0, SetText(ReadSet(found.value.1).value)))
  }

  // ----- the cursor loops -----

  function JoinIntervals(done: seq<Interval>, rest: Option<(seq<Interval>, Bytes)>): Option<(seq<Interval>, Bytes)> {
    match rest
    case None => None
    case Some((more, tail)) => Some((done + more, tail))
  }

  lemma TakeInterval(b: Bytes, done: seq<Interval>, n: nat)
    requires n > 0
    ensures ReadInterval(b).None? ==> JoinIntervals(done, ReadIntervals(b, n)) == None
    ensures ReadInterval(b).Some? ==>
      JoinIntervals(done, ReadIntervals(b, n))
        == JoinIntervals(done + [ReadInterval(b).value.0], ReadIntervals(ReadInterval(b).value.1, n - 1))
  {
    if ReadInterval(b).Some? {
      var (i, rest) := ReadInterval(b).value;
      if ReadIntervals(rest, n - 1).Some? {
        assert done + ([i] + ReadIntervals(rest, n - 1).value.0) == done + [i] + ReadIntervals(rest, n - 1).value.0;
      }
    }
  }

  /** The interval at `at`, or nothing when it is cut, empty or inverted. */
  method IntervalAt(payload: Bytes, at: nat) returns (r: Option<Interval>)
    requires at <= |payload|
    ensures ReadInterval(payload[at..]).None? ==> r == None
    ensures ReadInterval(payload[at..]).Some? ==>
      r.Some? && at + 16 <= |payload| && ReadInterval(payload[at..]) == Some((r.value, payload[at + 16..]))
  {
    if |payload| < at + 16 {
      return None;
    }
    var start, end := ValueOf(payload[at..at + 8]), ValueOf(payload[at + 8..at + 16]);
    assert payload[at..][..8] == payload[at..at + 8] && payload[at..][8..][..8] == payload[at + 8..at + 16];
    assert payload[at..][8..][8..] == payload[at + 16..];
    r := if end > start then Some(Interval(start, end)) else None;
  }

  method AppendInterval(text: string, ghost done: seq<Interval>, i: Interval) returns (t: string)
    requires Proper(done) && i.start < i.end && text == IntervalsText(done)
    ensures Proper(done + [i]) && t == IntervalsText(done + [i])
  {
    assert (done + [i])[..|done|] == done;
    if i.end == i.start + 1 {
      t := text + (":" + Decimal(i.start));
    } else {
      t := text + (":" + Decimal(i.start) + "-" + Decimal(i.end - 1));
    }
  }

  lemma NothingJoined(b: Bytes, n: nat)
    ensures JoinIntervals([], ReadIntervals(b, n)) == ReadIntervals(b, n)
  {
    if ReadIntervals(b, n).Some? {
      assert [] + ReadIntervals(b, n).value.0 == ReadIntervals(b, n).value.0;
    }
  }

  lemma AllJoined(b: Bytes, done: seq<Interval>)
    ensures JoinIntervals(done, ReadIntervals(b, 0)) == Some((done, b))
  {
    assert done + [] == done;
  }

  method DecodeIntervals(payload: Bytes, start: nat, n: nat) returns (r: Option<string>, at: nat,
      ghost intervals: seq<Interval>)
    requires start <= |payload|
    ensures r.None? ==> ReadIntervals(payload[start..], n) == None
    ensures r.Some? ==> Proper(intervals) && r.value == IntervalsText(intervals)
    ensures r.Some? ==> at <= |payload| && ReadIntervals(payload[start..], n) == Some((intervals, payload[at..]))
  {
    at, intervals := start, [];
    var text: string := "";
    ghost var answer, rest := ReadIntervals(payload[start..], n), payload[start..];
    NothingJoined(rest, n);
    for j := 0 to n
      invariant start <= at <= |payload| && rest == payload[at..]
      invariant Proper(intervals) && text == IntervalsText(intervals)
      invariant answer == JoinIntervals(intervals, ReadIntervals(rest, n - j))
    {
      TakeInterval(rest, intervals, n - j);
      var i := IntervalAt(payload, at);
      if i.None? {
        return None, at, intervals;
      }
      text := AppendInterval(text, intervals, i.value);
      intervals := intervals + [i.value];
      at := at + 16;
      rest := payload[at..];
    }
    AllJoined(rest, intervals);
    r := Some(text);
  }

  method DecodeSid(payload: Bytes, start: nat) returns (r: Option<string>, at: nat, ghost sid: Sid)
    requires start <= |payload|
    ensures r.None? ==> ReadSid(payload[start..]) == None
    ensures r.Some? ==> |sid.uuid| == 16 && Proper(sid.intervals) && r.value == SidText(sid)
    ensures r.Some? ==> at <= |payload| && ReadSid(payload[start..]) == Some((sid, payload[at..]))
  {
    at, sid := start, Sid([], []);
    var b := payload[start..];
    if |payload| < start + 24 {
      return None, at, sid;
    }
    var uuid := payload[start..start + 16];
    var n := ValueOf(payload[start + 16..start + 24]);
    assert b[..16] == uuid && b[16..][..8] == payload[start + 16..start + 24] && b[16..][8..] == payload[start + 24..];
    var text;
    ghost var intervals;
    text, at, intervals := DecodeIntervals(payload, start + 24, n);
    if text.None? {
      return None, at, sid;
    }
    sid := Sid(uuid, intervals);
    r := Some(UuidText(uuid) + text.value);
  }

  function JoinSids(done: seq<Sid>, rest: Option<seq<Sid>>): Option<seq<Sid>> {
    if rest.None? then None else Some(done + rest.value)
  }

  lemma TakeSid(b: Bytes, done: seq<Sid>, n: nat)
    requires n > 0
    ensures ReadSid(b).None? ==> JoinSids(done, ReadSids(b, n)) == None
    ensures ReadSid(b).Some? ==>
      JoinSids(done, ReadSids(b, n)) == JoinSids(done + [ReadSid(b).value.0], ReadSids(ReadSid(b).value.1, n - 1))
  {
    if ReadSid(b).Some? {
      var (s, rest) := ReadSid(b).value;
      if ReadSids(rest, n - 1).Some? {
        assert done + ([s] + ReadSids(rest, n - 1).value) == done + [s] + ReadSids(rest, n - 1).value;
      }
    }
  }

  lemma NoSidsJoined(b: Bytes, n: nat)
    ensures JoinSids([], ReadSids(b, n)) == ReadSids(b, n)
  {
    if ReadSids(b, n).Some? {
      assert [] + ReadSids(b, n).value == ReadSids(b, n).value;
    }
  }

  lemma AllSidsJoined(b: Bytes, done: seq<Sid>)
    ensures JoinSids(done, ReadSids(b, 0)) == Some(done)
  {
    assert done + [] == done;
  }

  /** One more SID, or the end of a set that is cut. */
  method DecodeNext(payload: Bytes, start: nat, text: string, ghost done: seq<Sid>, n: nat)
    returns (ok: bool, at: nat, t: string, ghost sids: seq<Sid>)
    requires start <= |payload| && n > 0 && ProperSids(done) && text == SetText(done)
    ensures !ok ==> JoinSids(done, ReadSids(payload[start..], n)) == None
    ensures ok ==> at <= |payload| && ProperSids(sids) && |sids| == |done| + 1 && t == SetText(sids)
    ensures ok ==> JoinSids(done, ReadSids(payload[start..], n)) == JoinSids(sids, ReadSids(payload[at..], n - 1))
  {
    TakeSid(payload[start..], done, n);
    var one;
    ghost var sid;
    one, at, sid := DecodeSid(payload, start);
    if one.None? {
      return false, at, text, done;
    }
    SetTextGrows(done, sid);
    sids := done + [sid];
    t := if text == "" then one.value else text + "," + one.value;
    TextIsEmptyOnlyForNone(done);
    ok := true;
  }

  method DecodeSids(payload: Bytes, start: nat, n: nat) returns (r: Option<string>, ghost sids: seq<Sid>)
    requires start <= |payload|
    ensures r.None? ==> ReadSids(payload[start..], n) == None
    ensures r.Some? ==> ProperSids(sids) && ReadSids(payload[start..], n) == Some(sids) && r.value == SetText(sids)
  {
    var at := start;
    var text: string := "";
    sids := [];
    ghost var answer := ReadSids(payload[start..], n);
    NoSidsJoined(payload[start..], n);
    for k := 0 to n
      invariant 0 <= at <= |payload|
      invariant ProperSids(sids) && text == SetText(sids)
      invariant answer == JoinSids(sids, ReadSids(payload[at..], n - k))
    {
      var ok;
      ok, at, text, sids := DecodeNext(payload, at, text, sids, n - k);
      if !ok {
        return None, sids;
      }
    }
    AllSidsJoined(payload[at..], sids);
    r := Some(text);
  }

  /** The set a payload encodes, as text. */
  method DecodeGtidSet(payload: Bytes) returns (r: Option<string>, ghost sids: seq<Sid>)
    ensures r.None? ==> ReadSet(payload) == None
    ensures r.Some? ==> ProperSids(sids) && ReadSet(payload) == Some(sids) && r.value == SetText(sids)
    ensures r.Some? ==> ReadText(r.value) == ReadSet(payload)
  {
    sids := [];
    if |payload| < 8 {
      return None, sids;
    }
    var n := ValueOf(payload[..8]);
    if n / FORMAT_UNIT != 0 {
      return None, sids;
    }
    r, sids := DecodeSids(payload, 8, n);
    if r.Some? {
      TextReadsBack(sids);
    }
  }

  lemma FindStep(b: Bytes, budget: nat, created: Option<nat>, h: Header, rest: Bytes)
    requires budget > 0 && ReadEvent(b) == Some((h, rest))
    ensures FindSet(b, budget, created) ==
      if h.kind == FORMAT_DESCRIPTION_EVENT then FindSet(rest, budget - 1, Some(h.timestamp))
      else if h.kind == PREVIOUS_GTIDS_LOG_EVENT then Found(created, h.payload)
      else FindSet(rest, budget - 1, created)
  {}

  lemma FindStops(b: Bytes, budget: nat, created: Option<nat>)
    requires budget == 0 || ReadEvent(b).None?
    ensures FindSet(b, budget, created) == None
  {}

  /** Advances a cursor past each event until the one that names the set. */
  method SeekPreviousGtids(bytes: Bytes, start: nat, budget: nat) returns (found: Option<(nat, Bytes)>)
    requires start <= |bytes|
    ensures found == FindSet(bytes[start..], budget, None)
  {
    var offset := start;
    var created: Option<nat> := None;
    ghost var seen, rest := bytes[..start], bytes[start..];
    ghost var answer := FindSet(rest, budget, None);
    for i := 0 to budget
      invariant bytes == seen + rest && offset == |seen|
      invariant answer == FindSet(rest, budget - i, created)
    {
      var event, next := EventAt(bytes, offset, seen, rest);
      if event.None? {
        FindStops(rest, budget - i, created);
        return None;
      }
      var Header(timestamp, kind, payload) := event.value;
      FindStep(rest, budget - i, created, event.value, next);
      if kind == FORMAT_DESCRIPTION_EVENT {
        created := Some(timestamp);
      } else if kind == PREVIOUS_GTIDS_LOG_EVENT {
        return if created.None? then None else Some((created.value, payload));
      }
      seen := bytes[..|bytes| - |next|];
      offset := offset + EVENT_HEADER + |payload|;
      rest := next;
    }
    FindStops(rest, 0, created);
    found := None;
  }

  /** The head of a binlog from its first bytes. */
  method ParseBinlogHead(bytes: Bytes) returns (r: Option<Head>)
    ensures r == ParseHead(bytes)
    ensures r.Some? ==>
      |bytes| >= 4 &&
      var found := FindSet(bytes[4..], 4, None);
      found.Some? && r.value.createdAt == found.value.0 && ReadText(r.value.previousGtids) == ReadSet(found.value.1)
  {
    if |bytes| < 4 || bytes[..4] != MAGIC {
      return None;
    }
    var found := SeekPreviousGtids(bytes, 4, EVENT_BUDGET);
    if found.None? {
      return None;
    }
    var text;
    ghost var sids;
    text, sids := DecodeGtidSet(found.value.1);
    r := if text.None? then None else Some(Head(found.value.0, text.value));
  }

  /** The event at the cursor, or nothing when its header or payload is cut or its length absurd. */
  method EventAt(bytes: Bytes, offset: nat, ghost seen: Bytes, ghost rest: Bytes)
      returns (r: Option<Header>, ghost next: Bytes)
    requires bytes == seen + rest && offset == |seen|
    ensures r.None? <==> ReadEvent(rest).None?
    ensures r.Some? ==> ReadEvent(rest) == Some((r.value, next))
    ensures r.Some? ==>
      |bytes| - |next| == offset + EVENT_HEADER + |r.value.payload| && bytes == bytes[..|bytes| - |next|] + next
  {
    next := [];
    if |bytes| < offset + EVENT_HEADER {
      return None, next;
    }
    assert bytes[offset..] == rest;
    var len := ValueOf(bytes[offset + 9..offset + 13]);
    assert rest[9..13] == bytes[offset + 9..offset + 13] && rest[..4] == bytes[offset..offset + 4];
    if len < EVENT_HEADER || |bytes| < offset + len {
      return None, next;
    }
    next := bytes[offset + len..];
    assert rest[EVENT_HEADER..len] == bytes[offset + EVENT_HEADER..offset + len];
    assert rest[len..] == next;
    r := Some(Header(ValueOf(bytes[offset..offset + 4]), bytes[offset + 4],
      bytes[offset + EVENT_HEADER..offset + len]));
  }

  // ----- parsing inverts the server's encoding -----

  datatype Event = Event(timestamp: nat, kind: Byte, serverId: nat, nextPosition: nat, flags: nat, payload: Bytes)

  predicate EventFits(e: Event) {
    e.timestamp < U32 && EVENT_HEADER + |e.payload| < U32
  }

  function EncodeHeader(e: Event): (b: Bytes)
    ensures |b| == EVENT_HEADER
  {
    Encode(e.timestamp, 4) + [e.kind] + Encode(e.serverId, 4) + Encode(EVENT_HEADER + |e.payload|, 4)
    + Encode(e.nextPosition, 4) + Encode(e.flags, 2)
  }

  function EncodeEvent(e: Event): (b: Bytes)
    ensures |b| == EVENT_HEADER + |e.payload|
  {
    EncodeHeader(e) + e.payload
  }

  function EncodeEvents(events: seq<Event>): Bytes {
    if events == [] then [] else EncodeEvent(events[0]) + EncodeEvents(events[1..])
  }

  lemma HeaderFields(e: Event, b: Bytes)
    requires EventFits(e) && |b| >= EVENT_HEADER && b[..EVENT_HEADER] == EncodeHeader(e)
    ensures ValueOf(b[..4]) == e.timestamp && b[4] == e.kind && ValueOf(b[9..13]) == EVENT_HEADER + |e.payload|
  {
    var h := EncodeHeader(e);
    FieldLimits();
    ValueOfEncoded(e.timestamp, 4);
    ValueOfEncoded(EVENT_HEADER + |e.payload|, 4);
    assert b[..4] == h[..4] == Encode(e.timestamp, 4);
    assert b[4] == h[4] == e.kind;
    assert b[9..13] == h[9..13] == Encode(EVENT_HEADER + |e.payload|, 4);
  }

  lemma ReadsEvent(e: Event, tail: Bytes)
    requires EventFits(e)
    ensures ReadEvent(EncodeEvent(e) + tail) == Some((Header(e.timestamp, e.kind, e.payload), tail))
  {
    var b, len := EncodeEvent(e) + tail, EVENT_HEADER + |e.payload|;
    assert b[..EVENT_HEADER] == EncodeHeader(e);
    HeaderFields(e, b);
    assert b[EVENT_HEADER..len] == e.payload && b[len..] == tail;
  }

  lemma CutEventIsRefused(e: Event, n: nat)
    requires EventFits(e) && n < |EncodeEvent(e)|
    ensures ReadEvent(EncodeEvent(e)[..n]) == None
  {
    if n >= EVENT_HEADER {
      assert EncodeEvent(e)[..n][..EVENT_HEADER] == EncodeHeader(e);
      HeaderFields(e, EncodeEvent(e)[..n]);
    }
  }

  /** Events the parser steps over: all but a Format_description (15) and a Previous_gtids (35). */
  predicate Passes(e: Event) {
    EventFits(e) && e.kind != 15 && e.kind != 35
  }

  /** What a server writes at the head of a file: its Format_description, perhaps other events, then
      the set, with whatever checksum follows it. */
  ghost predicate ServerHead(first: Event, others: seq<Event>, last: Event, sids: seq<Sid>, checksum: Bytes) {
    && EventFits(first) && first.kind == 15
    && (forall e | e in others :: Passes(e))
    && EventFits(last) && last.kind == 35
    && WellFormedSet(sids) && last.payload == EncodeSet(sids) + checksum
  }

  function EncodeFile(first: Event, others: seq<Event>, last: Event): Bytes {
    [0xfe, 0x62, 0x69, 0x6e] + EncodeEvents([first] + others + [last])
  }

  lemma EventsFromTheFront(e: Event, more: seq<Event>, tail: Bytes)
    ensures EncodeEvents([e] + more) + tail == EncodeEvent(e) + (EncodeEvents(more) + tail)
  {
    assert ([e] + more)[1..] == more;
  }

  lemma FindsAfter(e: Event, rest: Bytes, budget: nat, created: Option<nat>)
    requires EventFits(e) && budget > 0
    ensures FindSet(EncodeEvent(e) + rest, budget, created) ==
      if e.kind == FORMAT_DESCRIPTION_EVENT then FindSet(rest, budget - 1, Some(e.timestamp))
      else if e.kind == PREVIOUS_GTIDS_LOG_EVENT then Found(created, e.payload)
      else FindSet(rest, budget - 1, created)
  {
    ReadsEvent(e, rest);
    FindStep(EncodeEvent(e) + rest, budget, created, Header(e.timestamp, e.kind, e.payload), rest);
  }

  lemma FindsNext(events: seq<Event>, e: Event, more: seq<Event>, tail: Bytes, budget: nat,
      created: Option<nat>)
    requires EventFits(e) && budget > 0 && events == [e] + more
    ensures FindSet(EncodeEvents(events) + tail, budget, created) ==
      if e.kind == FORMAT_DESCRIPTION_EVENT then FindSet(EncodeEvents(more) + tail, budget - 1, Some(e.timestamp))
      else if e.kind == PREVIOUS_GTIDS_LOG_EVENT then Found(created, e.payload)
      else FindSet(EncodeEvents(more) + tail, budget - 1, created)
  {
    EventsFromTheFront(e, more, tail);
    FindsAfter(e, EncodeEvents(more) + tail, budget, created);
  }

  lemma StepsOver(e: Event, more: seq<Event>, tail: Bytes, budget: nat, created: Option<nat>)
    requires Passes(e) && budget > 0
    ensures FindSet(EncodeEvents([e] + more) + tail, budget, created)
      == FindSet(EncodeEvents(more) + tail, budget - 1, created)
  {
    FindsNext([e] + more, e, more, tail, budget, created);
  }

  lemma FindsAtOnce(last: Event, tail: Bytes, budget: nat, created: nat)
    requires EventFits(last) && last.kind == PREVIOUS_GTIDS_LOG_EVENT
    ensures FindSet(EncodeEvents([last]) + tail, budget, Some(created)) ==
      if 0 < budget then Some((created, last.payload)) else None
  {
    if budget == 0 {
      FindStops(EncodeEvents([last]) + tail, 0, Some(created));
    } else {
      FindsNext([last], last, [], tail, budget, Some(created));
    }
  }

  lemma {:induction false} FindsLast(others: seq<Event>, last: Event, tail: Bytes, budget: nat, created: nat)
    requires (forall e | e in others :: Passes(e)) && EventFits(last) && last.kind == PREVIOUS_GTIDS_LOG_EVENT
    ensures FindSet(EncodeEvents(others + [last]) + tail, budget, Some(created)) ==
      if |others| < budget then Some((created, last.payload)) else None
  {
    if others == [] {
      assert others + [last] == [last];
      FindsAtOnce(last, tail, budget, created);
    } else if budget == 0 {
      FindStops(EncodeEvents(others + [last]) + tail, 0, Some(created));
    } else {
      var e, more := others[0], others[1..];
      assert others + [last] == [e] + (more + [last]);
      StepsOver(e, more + [last], tail, budget, Some(created));
      FindsLast(more, last, tail, budget - 1, created);
    }
  }

  lemma FindsInFile(first: Event, others: seq<Event>, last: Event, tail: Bytes)
    requires EventFits(first) && first.kind == FORMAT_DESCRIPTION_EVENT
    requires (forall e | e in others :: Passes(e)) && EventFits(last) && last.kind == PREVIOUS_GTIDS_LOG_EVENT
    ensures FindSet(EncodeEvents([first] + others + [last]) + tail, EVENT_BUDGET, None) ==
      if |others| + 2 <= EVENT_BUDGET then Some((first.timestamp, last.payload)) else None
  {
    var rest := others + [last];
    FindsNext([first] + others + [last], first, rest, tail, EVENT_BUDGET, None);
    FindsLast(others, last, tail, EVENT_BUDGET - 1, first.timestamp);
  }

  /** Parsing what a server wrote gives back when it opened the file and the text of the set it wrote,
      whatever follows -- exactly when the set comes within the first four events. */
  lemma HeadRoundTrips(first: Event, others: seq<Event>, last: Event, sids: seq<Sid>,
      checksum: Bytes, tail: Bytes)
    requires ServerHead(first, others, last, sids, checksum)
    ensures ParseHead(EncodeFile(first, others, last) + tail) ==
      if |others| <= 2 then Some(Head(first.timestamp, SetText(sids))) else None
  {
    var events := [first] + others + [last];
    var b := EncodeFile(first, others, last) + tail;
    assert b[..4] == MAGIC && b[4..] == EncodeEvents(events) + tail;
    FindsInFile(first, others, last, tail);
    SetRoundTrips(sids, checksum);
  }

  /** And that text reads back as the set the server wrote. */
  lemma HeadReadsBack(first: Event, others: seq<Event>, last: Event, sids: seq<Sid>, checksum: Bytes, tail: Bytes)
    requires ServerHead(first, others, last, sids, checksum) && |others| <= 2
    ensures var head := ParseHead(EncodeFile(first, others, last) + tail);
      head.Some? && head.value.createdAt == first.timestamp && ReadText(head.value.previousGtids) == Some(sids)
  {
    HeadRoundTrips(first, others, last, sids, checksum, tail);
    TextReadsBack(sids);
  }

  /** And the text determines the set: two heads that parse alike were written with one set. */
  lemma HeadDeterminesSet(
      first: Event, others: seq<Event>, last: Event, sids: seq<Sid>, checksum: Bytes,
      first': Event, others': seq<Event>, last': Event, sids': seq<Sid>, checksum': Bytes, tail: Bytes, tail': Bytes)
    requires ServerHead(first, others, last, sids, checksum) && |others| <= 2
    requires ServerHead(first', others', last', sids', checksum') && |others'| <= 2
    requires ParseHead(EncodeFile(first, others, last) + tail) == ParseHead(EncodeFile(first', others', last') + tail')
    ensures sids == sids' && first.timestamp == first'.timestamp
  {
    HeadRoundTrips(first, others, last, sids, checksum, tail);
    HeadRoundTrips(first', others', last', sids', checksum', tail');
    TextDeterminesSet(sids, sids');
  }

  lemma CutInside(x: Bytes, y: Bytes, n: nat)
    requires n <= |x| + |y|
    ensures (x + y)[..n] == if n <= |x| then x[..n] else x + y[..n - |x|]
  {}

  /** A cut inside this event. */
  lemma CutHere(e: Event, after: Bytes, n: nat, budget: nat, created: Option<nat>)
    requires EventFits(e) && n < |EncodeEvent(e)|
    ensures FindSet((EncodeEvent(e) + after)[..n], budget, created) == None
  {
    CutInside(EncodeEvent(e), after, n);
    CutEventIsRefused(e, n);
    FindStops(EncodeEvent(e)[..n], budget, created);
  }

  /** A cut after it. */
  lemma CutLater(e: Event, after: Bytes, m: nat, budget: nat, created: Option<nat>)
    requires EventFits(e) && e.kind != PREVIOUS_GTIDS_LOG_EVENT && m <= |after| && budget > 0
    requires var since := if e.kind == FORMAT_DESCRIPTION_EVENT then Some(e.timestamp) else created;
      FindSet(after[..m], budget - 1, since) == None
    ensures FindSet((EncodeEvent(e) + after)[..|EncodeEvent(e)| + m], budget, created) == None
  {
    CutInside(EncodeEvent(e), after, |EncodeEvent(e)| + m);
    assert (EncodeEvent(e) + after)[..|EncodeEvent(e)| + m] == EncodeEvent(e) + after[..m];
    FindsAfter(e, after[..m], budget, created);
  }

  /** Well-formed events of which only the last may name the set. */
  predicate SetComesLast(events: seq<Event>) {
    events != [] && EventFits(events[0])
    && (|events| == 1 || (events[0].kind != PREVIOUS_GTIDS_LOG_EVENT && SetComesLast(events[1..])))
  }

  lemma BeyondTheFirst(events: seq<Event>, n: nat)
    requires SetComesLast(events) && |EncodeEvent(events[0])| <= n < |EncodeEvents(events)|
    ensures events[1..] != [] && events[0].kind != PREVIOUS_GTIDS_LOG_EVENT && SetComesLast(events[1..])
  {
    HeadThenTail(events);
    EventsInParts(events, events[0], events[1..]);
  }

  lemma {:induction false} ServerSetComesLast(others: seq<Event>, last: Event)
    requires (forall e | e in others :: Passes(e)) && EventFits(last)
    ensures SetComesLast(others + [last])
  {
    if others != [] {
      assert others[0] in others && forall x | x in others[1..] :: x in others;
      assert (others + [last])[1..] == others[1..] + [last];
      ServerSetComesLast(others[1..], last);
    }
  }

  lemma EventsInParts(events: seq<Event>, e: Event, more: seq<Event>)
    requires events == [e] + more
    ensures EncodeEvents(events) == EncodeEvent(e) + EncodeEvents(more)
  {
    assert events[1..] == more;
  }

  lemma CutPast(events: seq<Event>, e: Event, more: seq<Event>, m: nat, budget: nat, created: Option<nat>)
    requires events == [e] + more && EventFits(e) && e.kind != PREVIOUS_GTIDS_LOG_EVENT
    requires SetComesLast(more) && m < |EncodeEvents(more)| && budget > 0
    ensures |EncodeEvents(events)| == |EncodeEvent(e)| + |EncodeEvents(more)|
    ensures FindSet(EncodeEvents(events)[..|EncodeEvent(e)| + m], budget, created) == None
    decreases |more|, 1
  {
    var seen := if e.kind == FORMAT_DESCRIPTION_EVENT then Some(e.timestamp) else created;
    CutEventsAreRefused(more, m, budget - 1, seen);
    EventsInParts(events, e, more);
    CutLater(e, EncodeEvents(more), m, budget, created);
  }

  lemma {:induction false} CutEventsAreRefused(events: seq<Event>, n: nat, budget: nat, created: Option<nat>)
    requires SetComesLast(events) && n < |EncodeEvents(events)|
    ensures FindSet(EncodeEvents(events)[..n], budget, created) == None
    decreases |events|, 0
  {
    var e, more := events[0], events[1..];
    HeadThenTail(events);
    if budget == 0 {
      FindStops(EncodeEvents(events)[..n], 0, created);
    } else if n < |EncodeEvent(e)| {
      EventsInParts(events, e, more);
      CutHere(e, EncodeEvents(more), n, budget, created);
    } else {
      BeyondTheFirst(events, n);
      EventsInParts(events, e, more);
      CutPast(events, e, more, n - |EncodeEvent(e)|, budget, created);
    }
  }

  /** A head cut anywhere before the end of its Previous_gtids event is an error, never a shorter or
      an empty set. */
  lemma EveryCutIsRefused(first: Event, others: seq<Event>, last: Event, sids: seq<Sid>,
      checksum: Bytes, n: nat)
    requires ServerHead(first, others, last, sids, checksum) && n < |EncodeFile(first, others, last)|
    ensures ParseHead(EncodeFile(first, others, last)[..n]) == None
  {
    var events := [first] + others + [last];
    if n >= 4 {
      assert EncodeFile(first, others, last)[..n][4..] == EncodeEvents(events)[..n - 4];
      ServerSetComesLast(others, last);
      assert events[1..] == others + [last];
      CutEventsAreRefused(events, n - 4, EVENT_BUDGET, None);
    }
  }
}
