/** Which bytes the block parser accepts: exactly the encodings of record lists. */
module NettraceEncoding {
  import opened Bytes
  import opened Cursors
  import opened NettraceBlock
  import opened Pieces

  // ----- optional fields

  function VarIf(present: bool, n: nat): seq<byte> {
    if present then Leb(n) else []
  }

  function BytesIf(present: bool, s: seq<byte>): seq<byte> {
    if present then s else []
  }

  lemma ReadsVar(present: bool, n: nat, block: seq<byte>, at: nat, limit: nat)
    requires at <= |block| && n < limit && At(block, at, VarIf(present, n))
    ensures SkipVarIf(present, block, at, limit) == Some(at + |VarIf(present, n)|)
  {
    if present {
      AcceptsExactlyShortest(block[at..], limit, n, |Leb(n)|);
    }
  }

  lemma WroteVar(present: bool, block: seq<byte>, at: nat, limit: nat) returns (n: nat)
    requires at <= |block| && limit > 0 && SkipVarIf(present, block, at, limit).Some?
    ensures n < limit && At(block, at, VarIf(present, n))
    ensures SkipVarIf(present, block, at, limit).value == at + |VarIf(present, n)|
  {
    n := 0;
    if present {
      var d := DecodeBelow(block[at..], limit).value;
      n := d.value;
      AcceptsExactlyShortest(block[at..], limit, n, d.length);
    }
  }

  lemma ReadsField(present: bool, n: u32, block: seq<byte>, at: nat, last: u32)
    requires at <= |block| && At(block, at, VarIf(present, n)) && (present || n == last)
    ensures FieldIf(present, block, at, last) == Some(Field(n, at + |VarIf(present, n)|))
  {
    if present {
      AcceptsExactlyShortest(block[at..], U32_LIMIT, n, |Leb(n)|);
    }
  }

  lemma WroteField(present: bool, block: seq<byte>, at: nat, last: u32)
    requires at <= |block| && FieldIf(present, block, at, last).Some?
    ensures var field := FieldIf(present, block, at, last).value;
      && At(block, at, VarIf(present, field.value)) && field.end == at + |VarIf(present, field.value)|
      && (present || field.value == last)
  {
    if present {
      var d := DecodeBelow(block[at..], U32_LIMIT).value;
      AcceptsExactlyShortest(block[at..], U32_LIMIT, d.value, d.length);
    }
  }

  lemma WroteBytes(present: bool, block: seq<byte>, at: nat, length: nat) returns (s: seq<byte>)
    requires at <= |block| && SkipIf(present, block, at, length).Some?
    ensures (present ==> |s| == length) && At(block, at, BytesIf(present, s))
    ensures SkipIf(present, block, at, length).value == at + |BytesIf(present, s)|
  {
    s := if present then block[at..at + length] else [];
  }

  // ----- compressed records

  /** Which optional fields a record sends. The program has no use for the flag at 64. */
  datatype Sends = Sends(id: bool, context: bool, thread: bool, stack: bool, activity: bool, related: bool, spare: bool,
                         size: bool)

  function One(b: bool): (n: nat)
    ensures n < 2
  {
    if b then 1 else 0
  }

  function Digits(b0: bool, b1: bool, b2: bool, b3: bool): (n: nat)
    ensures n < 16
  {
    One(b0) + 2 * One(b1) + 4 * One(b2) + 8 * One(b3)
  }

  /** The byte that says so: 1 for the id, 2, 4 and 8 for the context, the thread and the stack, 16 and 32 for the
      activities, and 128 for the size. */
  function FlagByte(s: Sends): byte {
    Digits(s.id, s.context, s.thread, s.stack) + 16 * Digits(s.activity, s.related, s.spare, s.size)
  }

  /** The low four digits, and those above them. */
  lemma LowDigits(b0: bool, b1: bool, b2: bool, b3: bool, high: nat)
    requires high < 16
    ensures var flags := Digits(b0, b1, b2, b3) + 16 * high;
      Flag(flags, 1) == b0 && Flag(flags, 2) == b1 && Flag(flags, 4) == b2 && Flag(flags, 8) == b3
  {
    var flags := Digits(b0, b1, b2, b3) + 16 * high;
    assert flags / 2 == One(b1) + 2 * One(b2) + 4 * One(b3) + 8 * high;
    assert flags / 4 == One(b2) + 2 * One(b3) + 4 * high;
    assert flags / 8 == One(b3) + 2 * high;
  }

  lemma HighDigits(low: nat, b4: bool, b5: bool, b6: bool, b7: bool)
    requires low < 16
    ensures var flags := low + 16 * Digits(b4, b5, b6, b7);
      Flag(flags, 16) == b4 && Flag(flags, 32) == b5 && Flag(flags, 128) == b7
  {
    var flags := low + 16 * Digits(b4, b5, b6, b7);
    assert flags / 16 == One(b4) + 2 * One(b5) + 4 * One(b6) + 8 * One(b7);
    assert flags / 32 == One(b5) + 2 * One(b6) + 4 * One(b7);
    assert flags / 128 == One(b7);
  }

  /** The parser asks the byte for exactly these. */
  lemma FlagsRead(s: Sends)
    ensures var flags := FlagByte(s);
      && Flag(flags, 1) == s.id && Flag(flags, 2) == s.context && Flag(flags, 4) == s.thread
      && Flag(flags, 8) == s.stack
      && Flag(flags, 16) == s.activity && Flag(flags, 32) == s.related && Flag(flags, 128) == s.size
  {
    hide Flag, Digits;
    LowDigits(s.id, s.context, s.thread, s.stack, Digits(s.activity, s.related, s.spare, s.size));
    HighDigits(Digits(s.id, s.context, s.thread, s.stack), s.activity, s.related, s.spare, s.size);
  }

  lemma FourDigits(n: nat) returns (b0: bool, b1: bool, b2: bool, b3: bool)
    requires n < 16
    ensures n == Digits(b0, b1, b2, b3)
  {
    b0, b1, b2, b3 := n % 2 == 1, n / 2 % 2 == 1, n / 4 % 2 == 1, n / 8 == 1;
  }

  /** Every byte says something. */
  lemma FlagsWritten(flags: byte) returns (s: Sends)
    ensures FlagByte(s) == flags
  {
    hide Digits;
    var id, context, thread, stack := FourDigits(flags % 16);
    var activity, related, spare, size := FourDigits(flags / 16);
    s := Sends(id, context, thread, stack, activity, related, spare, size);
  }

  /** The fields the program skips; those that are not sent are left out of the encoding. */
  datatype Details = Details(number: u32, capture: u64, processor: u32, thread: u64, stack: u32, time: u64,
                             activity: seq<byte>, related: seq<byte>)

  predicate ValidDetails(s: Sends, d: Details) {
    (s.activity ==> |d.activity| == 16) && (s.related ==> |d.related| == 16)
  }

  function EncodeDetails(s: Sends, d: Details): seq<byte> {
    Then(VarIf(s.context, d.number),
    Then(VarIf(s.context, d.capture),
    Then(VarIf(s.context, d.processor),
    Then(VarIf(s.thread, d.thread),
    Then(VarIf(s.stack, d.stack),
    Then(VarIf(true, d.time),
    Then(BytesIf(s.activity, d.activity), BytesIf(s.related, d.related))))))))
  }

  lemma {:induction false} ReadsDetails(s: Sends, d: Details, block: seq<byte>, at: nat)
    requires at <= |block| && ValidDetails(s, d) && At(block, at, EncodeDetails(s, d))
    ensures SkipDetails(FlagByte(s), block, at) == Some(at + |EncodeDetails(s, d)|)
  {
    hide Then, At, SkipVar, SkipVarIf, SkipIf, VarIf, BytesIf, Flag, FlagByte;
    FlagsRead(s);
    var related := BytesIf(s.related, d.related);
    var activity := Then(BytesIf(s.activity, d.activity), related);
    var time := Then(VarIf(true, d.time), activity);
    var stack := Then(VarIf(s.stack, d.stack), time);
    var thread := Then(VarIf(s.thread, d.thread), stack);
    var processor := Then(VarIf(s.context, d.processor), thread);
    var capture := Then(VarIf(s.context, d.capture), processor);
    var p := ReadsOne(s.context, d.number, capture, block, at, U32_LIMIT);
    p := ReadsOne(s.context, d.capture, processor, block, p, U64_LIMIT);
    p := ReadsOne(s.context, d.processor, thread, block, p, U32_LIMIT);
    p := ReadsOne(s.thread, d.thread, stack, block, p, U64_LIMIT);
    p := ReadsOne(s.stack, d.stack, time, block, p, U32_LIMIT);
    p := ReadsOne(true, d.time, activity, block, p, U64_LIMIT);
    AlwaysSent(block, p - |VarIf(true, d.time)|);
    p := ReadsBytes(s.activity, d.activity, related, block, p);
    ReadsLast(s.related, d.related, block, p);
  }

  lemma ReadsLast(present: bool, s: seq<byte>, block: seq<byte>, at: nat)
    requires at <= |block| && (present ==> |s| == 16) && At(block, at, BytesIf(present, s))
    ensures SkipIf(present, block, at, 16) == Some(at + |BytesIf(present, s)|)
  {
  }

  lemma AlwaysSent(block: seq<byte>, at: nat)
    requires at <= |block|
    ensures SkipVarIf(true, block, at, U64_LIMIT) == SkipVar(block, at, U64_LIMIT)
  {
  }

  lemma ReadsOne(present: bool, n: nat, rest: seq<byte>, block: seq<byte>, at: nat, limit: nat) returns (end: nat)
    requires at <= |block| && n < limit && At(block, at, Then(VarIf(present, n), rest))
    ensures end == at + |VarIf(present, n)| <= |block| && At(block, end, rest)
    ensures SkipVarIf(present, block, at, limit) == Some(end)
  {
    Joined(block, at, VarIf(present, n), rest);
    ReadsVar(present, n, block, at, limit);
    end := at + |VarIf(present, n)|;
  }

  lemma ReadsBytes(present: bool, s: seq<byte>, rest: seq<byte>, block: seq<byte>, at: nat) returns (end: nat)
    requires at <= |block| && (present ==> |s| == 16) && At(block, at, Then(BytesIf(present, s), rest))
    ensures end == at + |BytesIf(present, s)| <= |block| && At(block, end, rest)
    ensures SkipIf(present, block, at, 16) == Some(end)
  {
    Joined(block, at, BytesIf(present, s), rest);
    end := at + |BytesIf(present, s)|;
  }

  lemma WroteDetails(s: Sends, block: seq<byte>, at: nat) returns (d: Details)
    requires at <= |block| && SkipDetails(FlagByte(s), block, at).Some?
    ensures ValidDetails(s, d) && At(block, at, EncodeDetails(s, d))
    ensures SkipDetails(FlagByte(s), block, at).value == at + |EncodeDetails(s, d)|
  {
    hide Then, At, SkipVar, SkipVarIf, SkipIf, VarIf, BytesIf, Flag, FlagByte;
    FlagsRead(s);
    var b2 := s.context;
    var number := WroteVar(b2, block, at, U32_LIMIT);
    var p1 := at + |VarIf(b2, number)|;
    var capture := WroteVar(b2, block, p1, U64_LIMIT);
    var p2 := p1 + |VarIf(b2, capture)|;
    var processor := WroteVar(b2, block, p2, U32_LIMIT);
    var p3 := p2 + |VarIf(b2, processor)|;
    var thread := WroteVar(s.thread, block, p3, U64_LIMIT);
    var p4 := p3 + |VarIf(s.thread, thread)|;
    var stack := WroteVar(s.stack, block, p4, U32_LIMIT);
    var p5 := p4 + |VarIf(s.stack, stack)|;
    AlwaysSent(block, p5);
    var time := WroteVar(true, block, p5, U64_LIMIT);
    var p6 := p5 + |VarIf(true, time)|;
    var activity := WroteBytes(s.activity, block, p6, 16);
    var p7 := p6 + |BytesIf(s.activity, activity)|;
    var related := WroteBytes(s.related, block, p7, 16);
    d := Details(number, capture, processor, thread, stack, time, activity, related);
    var s7 := BytesIf(s.related, related);
    var s6 := Then(BytesIf(s.activity, activity), s7);
    var s5 := Then(VarIf(true, time), s6);
    var s4 := Then(VarIf(s.stack, stack), s5);
    var s3 := Then(VarIf(s.thread, thread), s4);
    var s2 := Then(VarIf(b2, processor), s3);
    var s1 := Then(VarIf(b2, capture), s2);
    Joined(block, p6, BytesIf(s.activity, activity), s7);
    Joined(block, p5, VarIf(true, time), s6);
    Joined(block, p4, VarIf(s.stack, stack), s5);
    Joined(block, p3, VarIf(s.thread, thread), s4);
    Joined(block, p2, VarIf(b2, processor), s3);
    Joined(block, p1, VarIf(b2, capture), s2);
    Joined(block, at, VarIf(b2, number), s1);
  }

  datatype Record = Record(sends: Sends, id: u32, details: Details, payload: seq<byte>)

  /** An encoder may leave out an id or a size only when it repeats the last one. */
  predicate Sendable(r: Record, last: Last): (ok: bool)
    ensures ok ==> |r.payload| < U32_LIMIT
  {
    && |r.payload| < U32_LIMIT && ValidDetails(r.sends, r.details)
    && (r.sends.id || r.id == last.id)
    && (r.sends.size || |r.payload| == last.size)
  }

  /** What the next record may repeat. */
  function Carried(r: Record): Last
    requires |r.payload| < U32_LIMIT
  {
    Last(r.id, |r.payload|)
  }

  function Encode(r: Record): (s: seq<byte>)
    requires |r.payload| < U32_LIMIT
    ensures |s| > 0
  {
    Then([FlagByte(r.sends)], Then(VarIf(r.sends.id, r.id), Then(EncodeDetails(r.sends, r.details),
    Then(VarIf(r.sends.size, |r.payload|), r.payload))))
  }

  predicate AllSendable(records: seq<Record>, last: Last) {
    records == [] ||
    (Sendable(records[0], last) && AllSendable(records[1..], Carried(records[0])))
  }

  function EncodeAll(records: seq<Record>, last: Last): seq<byte>
    requires AllSendable(records, last)
  {
    if records == [] then []
    else Then(Encode(records[0]), EncodeAll(records[1..], Carried(records[0])))
  }

  /** What the callback sees of an event: its metadata id and its payload bytes. */
  datatype Seen = Seen(id: u32, payload: seq<byte>)

  function SeenIn(block: seq<byte>, event: Event): Seen {
    Seen(event.id, if event.start + event.size <= |block| then block[event.start..event.start + event.size] else [])
  }

  function AllSeen(block: seq<byte>, events: seq<Event>): seq<Seen> {
    if events == [] then [] else [SeenIn(block, events[0])] + AllSeen(block, events[1..])
  }

  lemma SeenFirst(block: seq<byte>, event: Event, rest: Parsed)
    ensures AllSeen(block, Reported(event, rest).events) == [SeenIn(block, event)] + AllSeen(block, rest.events)
  {
    assert ([event] + rest.events)[1..] == rest.events;
  }

  function Sent(records: seq<Record>): seq<Seen> {
    if records == [] then [] else [Seen(records[0].id, records[0].payload)] + Sent(records[1..])
  }

  /** The parser reads back the head of an encoded record. */
  lemma ReadsRecord(r: Record, last: Last, rest: seq<byte>, block: seq<byte>, at: nat)
    requires |r.payload| < U32_LIMIT && Sendable(r, last) && At(block, at, Then(Encode(r), rest))
    ensures at < |block| && At(block, at, Encode(r)) && var end := at + |Encode(r)|;
      && CompressedHead(block, at, last) ==
           Some(Head(Event(r.id, end - |r.payload|, |r.payload|), Carried(r)))
      && end <= |block| && At(block, end - |r.payload|, r.payload) && At(block, end, rest)
  {
    hide Then, At, SkipDetails, EncodeDetails, Flag, FlagByte, VarIf, FieldIf, ValidDetails;
    FlagsRead(r.sends);
    var s4 := Then(VarIf(r.sends.size, |r.payload|), r.payload);
    var s3 := Then(EncodeDetails(r.sends, r.details), s4);
    var s2 := Then(VarIf(r.sends.id, r.id), s3);
    Joined(block, at, Encode(r), rest);
    Joined(block, at, [FlagByte(r.sends)], s2);
    ByteAt(block, at, FlagByte(r.sends));
    Joined(block, at + 1, VarIf(r.sends.id, r.id), s3);
    ReadsField(r.sends.id, r.id, block, at + 1, last.id);
    var p := at + 1 + |VarIf(r.sends.id, r.id)|;
    Fits(block, at + 1, VarIf(r.sends.id, r.id));
    Joined(block, p, EncodeDetails(r.sends, r.details), s4);
    Fits(block, p, EncodeDetails(r.sends, r.details));
    ReadsDetails(r.sends, r.details, block, p);
    var q := p + |EncodeDetails(r.sends, r.details)|;
    Joined(block, q, VarIf(r.sends.size, |r.payload|), r.payload);
    ReadsField(r.sends.size, |r.payload|, block, q, last.size);
    Fits(block, at + |Encode(r)| - |r.payload|, r.payload);
  }

  lemma WroteRecord(block: seq<byte>, at: nat, last: Last) returns (r: Record)
    requires at < |block| && CompressedHead(block, at, last).Some?
    requires var e := CompressedHead(block, at, last).value.event; e.start + e.size <= |block|
    ensures var e := CompressedHead(block, at, last).value.event;
      && |r.payload| == e.size && r.id == e.id && Sendable(r, last)
      && CompressedHead(block, at, last).value.last == Carried(r)
      && At(block, at, Encode(r)) && at + |Encode(r)| == e.start + e.size
  {
    hide Then, At, SkipDetails, EncodeDetails, Flag, FlagByte, VarIf, FieldIf, ValidDetails;
    var flags := block[at];
    var s := FlagsWritten(flags);
    FlagsRead(s);
    ByteAt(block, at, flags);
    WroteField(s.id, block, at + 1, last.id);
    var id := FieldIf(s.id, block, at + 1, last.id).value;
    var details := WroteDetails(s, block, id.end);
    var q := SkipDetails(flags, block, id.end).value;
    WroteField(s.size, block, q, last.size);
    var size := FieldIf(s.size, block, q, last.size).value;
    var payload := block[size.end..size.end + size.value];
    SliceAt(block, size.end, size.value);
    r := Record(s, id.value, details, payload);
    var s4 := Then(VarIf(s.size, |payload|), payload);
    var s3 := Then(EncodeDetails(s, details), s4);
    var s2 := Then(VarIf(s.id, id.value), s3);
    Joined(block, q, VarIf(s.size, |payload|), payload);
    Joined(block, id.end, EncodeDetails(s, details), s4);
    Joined(block, at + 1, VarIf(s.id, id.value), s3);
    Joined(block, at, [flags], s2);
  }

  // ----- compressed blocks

  lemma ReadsFirst(r: Record, last: Last, rest: seq<byte>, block: seq<byte>, at: nat) returns (event: Event)
    requires Sendable(r, last) && At(block, at, Then(Encode(r), rest))
    ensures SeenIn(block, event) == Seen(r.id, r.payload)
    ensures var end := at + |Encode(r)|;
      && end <= |block| && At(block, end, rest)
      && Compressed(block, at, last) == Reported(event, Compressed(block, end, Carried(r)))
  {
    hide Then, Encode, CompressedHead, Sendable;
    ReadsRecord(r, last, rest, block, at);
    event := Event(r.id, at + |Encode(r)| - |r.payload|, |r.payload|);
  }

  lemma {:induction false} ReadsRecords(records: seq<Record>, last: Last, block: seq<byte>, at: nat)
    requires AllSendable(records, last) && at <= |block| && block[at..] == EncodeAll(records, last)
    ensures Compressed(block, at, last).whole
    ensures AllSeen(block, Compressed(block, at, last).events) == Sent(records)
    decreases |records|
  {
    hide Then, At, Encode, CompressedHead, Sendable;
    if records != [] {
      var next := Carried(records[0]);
      var rest := EncodeAll(records[1..], next);
      AtEnd(block, at, EncodeAll(records, last));
      var event := ReadsFirst(records[0], last, rest, block, at);
      var end := at + |Encode(records[0])|;
      AtEnd(block, end, rest);
      ReadsRecords(records[1..], next, block, end);
      SeenFirst(block, event, Compressed(block, end, next));
    }
  }

  lemma {:induction false} WroteRecords(block: seq<byte>, at: nat, last: Last) returns (records: seq<Record>)
    requires at <= |block| && Compressed(block, at, last).whole
    ensures AllSendable(records, last) && block[at..] == EncodeAll(records, last)
    decreases |block| - at
  {
    hide Encode, CompressedHead, Sendable;
    records := [];
    if at < |block| {
      var r := WroteRecord(block, at, last);
      var head := CompressedHead(block, at, last).value;
      var end := head.event.start + head.event.size;
      var rest := WroteRecords(block, end, head.last);
      records := [r] + rest;
      assert records[1..] == rest;
      AtEnd(block, end, EncodeAll(rest, head.last));
      Joined(block, at, Encode(r), EncodeAll(rest, head.last));
      AtEnd(block, at, EncodeAll(records, last));
    }
  }

  // ----- plain records

  /** Eighty bytes, the payload and its padding. The top bit of the id's word is not part of the id. */
  datatype PlainRecord = PlainRecord(before: seq<byte>, word: u32, between: seq<byte>, payload: seq<byte>,
                                     padding: seq<byte>)

  predicate ValidPlain(r: PlainRecord) {
    && |r.before| == 4 && |r.between| == 68 && |r.payload| < 0x8000_0000
    && |r.padding| == Padding(|r.payload|)
  }

  function EncodePlain(r: PlainRecord): (s: seq<byte>)
    requires ValidPlain(r)
    ensures |s| == 80 + |r.payload| + |r.padding|
  {
    Then(r.before, Then(Le32(r.word), Then(r.between, Then(Le32(|r.payload|), Then(r.payload, r.padding)))))
  }

  predicate AllPlain(records: seq<PlainRecord>) {
    records == [] || (ValidPlain(records[0]) && AllPlain(records[1..]))
  }

  function EncodePlains(records: seq<PlainRecord>, tail: seq<byte>): seq<byte>
    requires AllPlain(records)
  {
    if records == [] then tail else Then(EncodePlain(records[0]), EncodePlains(records[1..], tail))
  }

  function SentPlain(records: seq<PlainRecord>): seq<Seen> {
    if records == [] then [] else [Seen(records[0].word % 0x8000_0000, records[0].payload)] + SentPlain(records[1..])
  }

  lemma ReadsPlainHead(r: PlainRecord, block: seq<byte>, at: nat)
    requires ValidPlain(r) && At(block, at, EncodePlain(r))
    ensures at + |EncodePlain(r)| <= |block| && At(block, at + 80, r.payload)
    ensures |EncodePlain(r)| == 80 + |r.payload| + Padding(|r.payload|)
    ensures PlainHead(block, at) == Some(Event(r.word % 0x8000_0000, at + 80, |r.payload|))
  {
    hide Then, At, U32At, Le32, Padding;
    var s4 := Then(r.payload, r.padding);
    var s3 := Then(Le32(|r.payload|), s4);
    var s2 := Then(r.between, s3);
    Fits(block, at, EncodePlain(r));
    Joined(block, at, r.before, Then(Le32(r.word), s2));
    Joined(block, at + 4, Le32(r.word), s2);
    Joined(block, at + 8, r.between, s3);
    Joined(block, at + 76, Le32(|r.payload|), s4);
    Joined(block, at + 80, r.payload, r.padding);
    ReadsWord(block, at + 4, r.word);
    ReadsWord(block, at + 76, |r.payload|);
  }

  lemma ReadsPlain(r: PlainRecord, rest: seq<byte>, block: seq<byte>, at: nat) returns (event: Event)
    requires ValidPlain(r) && At(block, at, Then(EncodePlain(r), rest))
    ensures SeenIn(block, event) == Seen(r.word % 0x8000_0000, r.payload)
    ensures var end := at + |EncodePlain(r)|;
      && end <= |block| && At(block, end, rest)
      && Plain(block, at) == Reported(event, Plain(block, end))
  {
    hide Then, At, PlainHead, EncodePlain, ValidPlain, Padding;
    Joined(block, at, EncodePlain(r), rest);
    ReadsPlainHead(r, block, at);
    event := Event(r.word % 0x8000_0000, at + 80, |r.payload|);
    Slice(block, at + 80, r.payload);
  }

  lemma WrotePlain(block: seq<byte>, at: nat) returns (r: PlainRecord)
    requires at + 80 <= |block| && PlainHead(block, at).Some?
    requires var e := PlainHead(block, at).value; e.start + e.size + Padding(e.size) <= |block|
    ensures ValidPlain(r) && At(block, at, EncodePlain(r))
    ensures var e := PlainHead(block, at).value; at + |EncodePlain(r)| == e.start + e.size + Padding(e.size)
  {
    hide Then, At, U32At, Le32, Padding;
    var word, size := U32At(block, at + 4), U32At(block, at + 76);
    var payload, padding := block[at + 80..][..size], block[at + 80 + size..][..Padding(size)];
    r := PlainRecord(block[at..][..4], word, block[at + 8..][..68], payload, padding);
    PieceAt(block, at, 4);
    PieceAt(block, at + 8, 68);
    PieceAt(block, at + 80, size);
    PieceAt(block, at + 80 + size, Padding(size));
    WroteWord(block, at + 4);
    WroteWord(block, at + 76);
    var s4 := Then(payload, padding);
    var s3 := Then(Le32(size), s4);
    var s2 := Then(r.between, s3);
    Joined(block, at + 80, payload, padding);
    Joined(block, at + 76, Le32(size), s4);
    Joined(block, at + 8, r.between, s3);
    Joined(block, at + 4, Le32(word), s2);
    Joined(block, at, r.before, Then(Le32(word), s2));
  }

  lemma {:induction false} ReadsPlains(records: seq<PlainRecord>, tail: seq<byte>, block: seq<byte>, at: nat)
    requires AllPlain(records) && |tail| < 80 && at <= |block| && block[at..] == EncodePlains(records, tail)
    ensures Plain(block, at).whole
    ensures AllSeen(block, Plain(block, at).events) == SentPlain(records)
    decreases |records|
  {
    hide Then, At, EncodePlain, PlainHead;
    if records != [] {
      var rest := EncodePlains(records[1..], tail);
      AtEnd(block, at, EncodePlains(records, tail));
      var event := ReadsPlain(records[0], rest, block, at);
      var end := at + |EncodePlain(records[0])|;
      AtEnd(block, end, rest);
      ReadsPlains(records[1..], tail, block, end);
      SeenFirst(block, event, Plain(block, end));
    }
  }

  lemma {:induction false} WrotePlains(block: seq<byte>, at: nat) returns (records: seq<PlainRecord>, tail: seq<byte>)
    requires at <= |block| && Plain(block, at).whole
    ensures AllPlain(records) && |tail| < 80 && block[at..] == EncodePlains(records, tail)
    decreases |block| - at
  {
    hide Then, At, EncodePlain, PlainHead, ValidPlain;
    if |block| - at < 80 {
      records, tail := [], block[at..];
    } else {
      var r := WrotePlain(block, at);
      var event := PlainHead(block, at).value;
      var end := event.start + event.size + Padding(event.size);
      var rest;
      rest, tail := WrotePlains(block, end);
      records := [r] + rest;
      assert records[1..] == rest;
      AtEnd(block, end, EncodePlains(rest, tail));
      Joined(block, at, EncodePlain(r), EncodePlains(rest, tail));
      AtEnd(block, at, EncodePlains(records, tail));
    }
  }

  // ----- whole blocks

  predicate WellHeaded(block: seq<byte>) {
    |block| >= 4 && 4 <= U16At(block, 0) <= |block|
  }

  predicate IsCompressed(block: seq<byte>)
    requires WellHeaded(block)
  {
    U16At(block, 2) % 2 == 1
  }

  /** The bytes after the block's header. */
  function Body(block: seq<byte>): seq<byte>
    requires WellHeaded(block)
  {
    block[U16At(block, 0)..]
  }

  ghost predicate IsEncoding(block: seq<byte>) {
    && WellHeaded(block)
    && if IsCompressed(block)
       then exists records :: AllSendable(records, Last(0, 0)) && Body(block) == EncodeAll(records, Last(0, 0))
       else exists records, tail :: AllPlain(records) && |tail| < 80 && Body(block) == EncodePlains(records, tail)
  }

  /** The parser accepts exactly the encodings of record lists under a sound header. */
  lemma AcceptsExactlyEncodings(block: seq<byte>)
    ensures Parse(block).whole <==> IsEncoding(block)
  {
    hide EncodeAll, EncodePlains, AllSendable, AllPlain, Compressed, Plain, U16At;
    if Parse(block).whole {
      var header := U16At(block, 0);
      if IsCompressed(block) {
        var records := WroteRecords(block, header, Last(0, 0));
      } else {
        var records, tail := WrotePlains(block, header);
      }
    }
    if IsEncoding(block) {
      var header := U16At(block, 0);
      if IsCompressed(block) {
        var records :| AllSendable(records, Last(0, 0)) && Body(block) == EncodeAll(records, Last(0, 0));
        ReadsRecords(records, Last(0, 0), block, header);
      } else {
        var records, tail :| AllPlain(records) && |tail| < 80 && Body(block) == EncodePlains(records, tail);
        ReadsPlains(records, tail, block, header);
      }
    }
  }

  /** From a compressed encoding the callback gets exactly the events encoded, in order,
      whichever repeated ids and sizes the encoder left out. */
  lemma CompressedRoundTrip(block: seq<byte>, records: seq<Record>)
    requires WellHeaded(block) && IsCompressed(block)
    requires AllSendable(records, Last(0, 0)) && Body(block) == EncodeAll(records, Last(0, 0))
    ensures Parse(block).whole && AllSeen(block, Parse(block).events) == Sent(records)
  {
    ReadsRecords(records, Last(0, 0), block, U16At(block, 0));
  }

  /** The same for the plain form, where ids have 31 bits and up to 79 bytes may trail. */
  lemma PlainRoundTrip(block: seq<byte>, records: seq<PlainRecord>, tail: seq<byte>)
    requires WellHeaded(block) && !IsCompressed(block)
    requires AllPlain(records) && |tail| < 80 && Body(block) == EncodePlains(records, tail)
    ensures Parse(block).whole && AllSeen(block, Parse(block).events) == SentPlain(records)
  {
    ReadsPlains(records, tail, block, U16At(block, 0));
  }
}
