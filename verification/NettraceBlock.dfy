/** Event blocks of a Nettrace stream: a compressed form that omits repeated fields, and a plain one. */
module NettraceBlock {
  import opened Bytes
  import opened Cursors

  /** What the parser hands to its callback: a metadata id and a slice of the block. */
  datatype Event = Event(id: u32, start: nat, size: nat)

  /** The callbacks made before the block ended or broke off, and whether it was whole. */
  datatype Parsed = Parsed(events: seq<Event>, whole: bool)

  /** The fields a compressed record may leave out. */
  datatype Last = Last(id: u32, size: u32)

  predicate Flag(flags: byte, bit: nat)
    requires bit > 0
  {
    flags / bit % 2 == 1
  }

  // ----- what the parser does, as functions of the block and a position

  /** The position after a number below `limit`, if one stands at `at`. */
  function SkipVar(block: seq<byte>, at: nat, limit: nat): (r: Option<nat>)
    requires at <= |block|
    ensures r.Some? ==> at < r.value <= |block|
  {
    var d :- DecodeBelow(block[at..], limit);
    Some(at + d.length)
  }

  function Skip(block: seq<byte>, at: nat, length: nat): (r: Option<nat>)
    ensures r.Some? ==> at <= r.value <= |block|
  {
    if at + length <= |block| then Some(at + length) else None
  }

  function SkipVarIf(present: bool, block: seq<byte>, at: nat, limit: nat): (r: Option<nat>)
    requires at <= |block|
    ensures r.Some? ==> at <= r.value <= |block|
  {
    if present then SkipVar(block, at, limit) else Some(at)
  }

  function SkipIf(present: bool, block: seq<byte>, at: nat, length: nat): (r: Option<nat>)
    requires at <= |block|
    ensures r.Some? ==> at <= r.value <= |block|
  {
    if present then Skip(block, at, length) else Some(at)
  }

  /** A number that may be left out, with what it was last time. */
  datatype Field = Field(value: u32, end: nat)

  function FieldIf(present: bool, block: seq<byte>, at: nat, last: u32): (r: Option<Field>)
    requires at <= |block|
    ensures r.Some? ==> at <= r.value.end <= |block|
  {
    if present then
      var d :- DecodeBelow(block[at..], U32_LIMIT);
      Some(Field(d.value, at + d.length))
    else Some(Field(last, at))
  }

  /** The fields between the metadata id and the payload size, none of which the program uses. */
  function SkipDetails(flags: byte, block: seq<byte>, at: nat): (r: Option<nat>)
    requires at <= |block|
    ensures r.Some? ==> at < r.value <= |block|
  {
    var sequence :- SkipVarIf(Flag(flags, 2), block, at, U32_LIMIT);
    var thread :- SkipVarIf(Flag(flags, 2), block, sequence, U64_LIMIT);
    var processor :- SkipVarIf(Flag(flags, 2), block, thread, U32_LIMIT);
    var threadId :- SkipVarIf(Flag(flags, 4), block, processor, U64_LIMIT);
    var stack :- SkipVarIf(Flag(flags, 8), block, threadId, U32_LIMIT);
    var time :- SkipVar(block, stack, U64_LIMIT);
    var activity :- SkipIf(Flag(flags, 16), block, time, 16);
    SkipIf(Flag(flags, 32), block, activity, 16)
  }

  /** A record's header: what to report, and what later records may leave out. */
  datatype Head = Head(event: Event, last: Last)

  function CompressedHead(block: seq<byte>, at: nat, last: Last): (r: Option<Head>)
    requires at < |block|
    ensures r.Some? ==> at < r.value.event.start <= |block|
  {
    var flags := block[at];
    var id :- FieldIf(Flag(flags, 1), block, at + 1, last.id);
    var details :- SkipDetails(flags, block, id.end);
    var size :- FieldIf(Flag(flags, 128), block, details, last.size);
    Some(Head(Event(id.value, size.end, size.value), Last(id.value, size.value)))
  }

  function PlainHead(block: seq<byte>, at: nat): (r: Option<Event>)
    requires at + 80 <= |block|
    ensures r.Some? ==> r.value.start == at + 80
  {
    var size := U32At(block, at + 76);
    if size >= 0x8000_0000 then None
    else Some(Event(U32At(block, at + 4) % 0x8000_0000, at + 80, size))
  }

  function Compressed(block: seq<byte>, at: nat, last: Last): Parsed
    requires at <= |block|
    decreases |block| - at
  {
    if at == |block| then Parsed([], true)
    else
      match CompressedHead(block, at, last)
      case None => Parsed([], false)
      case Some(head) =>
        var end := head.event.start + head.event.size;
        if end > |block| then Parsed([], false)
        else Reported(head.event, Compressed(block, end, head.last))
  }

  function Reported(event: Event, rest: Parsed): Parsed {
    Parsed([event] + rest.events, rest.whole)
  }

  /** A tail of fewer than 80 bytes is ignored; the last record must be padded like the others. */
  function Plain(block: seq<byte>, at: nat): Parsed
    requires at <= |block|
    decreases |block| - at
  {
    if |block| - at < 80 then Parsed([], true)
    else
      match PlainHead(block, at)
      case None => Parsed([], false)
      case Some(event) =>
        var end := event.start + event.size;
        if end > |block| then Parsed([], false)
        else if end + Padding(event.size) > |block| then Parsed([event], false)
        else Reported(event, Plain(block, end + Padding(event.size)))
  }

  function Parse(block: seq<byte>): Parsed {
    if |block| < 4 then Parsed([], false)
    else
      var header := U16At(block, 0);
      if header < 4 || header > |block| then Parsed([], false)
      else if U16At(block, 2) % 2 == 1 then Compressed(block, header, Last(0, 0))
      else Plain(block, header)
  }

  // ----- the parser

  method SkipVarU32(cursor: Cursor) returns (ok: bool)
    requires cursor.Valid()
    modifies cursor
    ensures cursor.Valid()
    ensures match SkipVar(cursor.data, old(cursor.position), U32_LIMIT)
            case None => !ok
            case Some(end) => ok && cursor.position == end
  {
    var value := cursor.ReadVarU32();
    ok := value.Some?;
  }

  method SkipVarU64(cursor: Cursor) returns (ok: bool)
    requires cursor.Valid()
    modifies cursor
    ensures cursor.Valid()
    ensures match SkipVar(cursor.data, old(cursor.position), U64_LIMIT)
            case None => !ok
            case Some(end) => ok && cursor.position == end
  {
    var value := cursor.ReadVarU64();
    ok := value.Some?;
  }

  method SkipBytes(cursor: Cursor, length: nat) returns (ok: bool)
    requires cursor.Valid()
    modifies cursor
    ensures cursor.Valid()
    ensures match Skip(cursor.data, old(cursor.position), length)
            case None => !ok
            case Some(end) => ok && cursor.position == end
  {
    var value := cursor.ReadSlice(length);
    ok := value.Some?;
  }

  method ReadDetails(cursor: Cursor, flags: byte) returns (ok: bool)
    requires cursor.Valid()
    modifies cursor
    ensures cursor.Valid()
    ensures match SkipDetails(flags, cursor.data, old(cursor.position))
            case None => !ok
            case Some(end) => ok && cursor.position == end
  {
    if Flag(flags, 0x02) {
      ok := SkipVarU32(cursor);
      if !ok { return; }
      ok := SkipVarU64(cursor);
      if !ok { return; }
      ok := SkipVarU32(cursor);
      if !ok { return; }
    }
    if Flag(flags, 0x04) {
      ok := SkipVarU64(cursor);
      if !ok { return; }
    }
    if Flag(flags, 0x08) {
      ok := SkipVarU32(cursor);
      if !ok { return; }
    }
    ok := SkipVarU64(cursor);
    if !ok { return; }
    if Flag(flags, 0x10) {
      ok := SkipBytes(cursor, 16);
      if !ok { return; }
    }
    if Flag(flags, 0x20) {
      ok := SkipBytes(cursor, 16);
      if !ok { return; }
    }
  }

  /** Runs the callback on each record in turn; here the callbacks are collected in order. */
  method ParseBlock(block: seq<byte>) returns (parsed: Parsed)
    ensures parsed == Parse(block)
  {
    var cursor := new Cursor(block);
    var header := cursor.ReadU16();
    if header.None? {
      return Parsed([], false);
    }
    var flags := cursor.ReadU16();
    if flags.None? {
      return Parsed([], false);
    }
    assert block[2..][0..2] == block[2..4] && block[0..][0..2] == block[0..2];
    if header.value < 4 || header.value > |block| {
      return Parsed([], false);
    }
    cursor.position := header.value;
    if flags.value % 2 == 1 {
      parsed := ParseCompressed(cursor);
    } else {
      parsed := ParsePlain(cursor);
    }
  }

  function After(done: seq<Event>, rest: Parsed): Parsed {
    Parsed(done + rest.events, rest.whole)
  }

  lemma AfterNothing(done: seq<Event>, whole: bool)
    ensures After(done, Parsed([], whole)) == Parsed(done, whole)
  {
    assert done + [] == done;
  }

  lemma NothingBefore(rest: Parsed)
    ensures After([], rest) == rest
  {
    assert [] + rest.events == rest.events;
  }

  /** One turn of the compressed loop, whatever was reported before. */
  lemma CompressedTurn(block: seq<byte>, at: nat, last: Last, done: seq<Event>)
    requires at <= |block|
    ensures var rest := After(done, Compressed(block, at, last));
      if at == |block| then rest == Parsed(done, true)
      else
        var head := CompressedHead(block, at, last);
        if head.None? || head.value.event.start + head.value.event.size > |block| then rest == Parsed(done, false)
        else rest == After(done + [head.value.event],
                           Compressed(block, head.value.event.start + head.value.event.size, head.value.last))
  {
    hide CompressedHead;
    AfterNothing(done, true);
    AfterNothing(done, false);
    if at < |block| && CompressedHead(block, at, last).Some? {
      var head := CompressedHead(block, at, last).value;
      var end := head.event.start + head.event.size;
      if end <= |block| {
        AfterReported(done, head.event, Compressed(block, end, head.last));
      }
    }
  }

  lemma PlainTurn(block: seq<byte>, at: nat, done: seq<Event>)
    requires at <= |block|
    ensures var rest := After(done, Plain(block, at));
      if |block| - at < 80 then rest == Parsed(done, true)
      else
        var head := PlainHead(block, at);
        if head.None? || head.value.start + head.value.size > |block| then rest == Parsed(done, false)
        else
          var next := head.value.start + head.value.size + Padding(head.value.size);
          if next > |block| then rest == Parsed(done + [head.value], false)
          else rest == After(done + [head.value], Plain(block, next))
  {
    AfterNothing(done, true);
    AfterNothing(done, false);
    if |block| - at >= 80 && PlainHead(block, at).Some? {
      var event := PlainHead(block, at).value;
      AfterNothing(done + [event], false);
      var next := event.start + event.size + Padding(event.size);
      if next <= |block| {
        AfterReported(done, event, Plain(block, next));
      }
    }
  }

  lemma AfterReported(done: seq<Event>, event: Event, rest: Parsed)
    ensures After(done, Reported(event, rest)) == After(done + [event], rest)
  {
    assert done + ([event] + rest.events) == done + [event] + rest.events;
  }

  /** Reads a compressed record up to its payload, remembering what later records may omit. */
  method ReadHead(cursor: Cursor, last: Last) returns (head: Option<Head>)
    requires cursor.Valid() && cursor.position < |cursor.data|
    modifies cursor
    ensures cursor.Valid()
    ensures head == CompressedHead(cursor.data, old(cursor.position), last)
    ensures head.Some? ==> cursor.position == head.value.event.start
  {
    hide SkipDetails, DecodeBelow;
    var lastMetadata, lastPayload := last.id, last.size;
    var flagByte := cursor.ReadU8();
    var flags := flagByte.value;
    if Flag(flags, 0x01) {
      var read := cursor.ReadVarU32();
      if read.None? {
        return None;
      }
      lastMetadata := read.value;
    }
    var ok := ReadDetails(cursor, flags);
    if !ok {
      return None;
    }
    if Flag(flags, 0x80) {
      var read := cursor.ReadVarU32();
      if read.None? {
        return None;
      }
      lastPayload := read.value;
    }
    head := Some(Head(Event(lastMetadata, cursor.position, lastPayload), Last(lastMetadata, lastPayload)));
  }

  method ParseCompressed(cursor: Cursor) returns (parsed: Parsed)
    requires cursor.Valid()
    modifies cursor
    ensures parsed == Compressed(cursor.data, old(cursor.position), Last(0, 0))
  {
    hide CompressedHead;
    var events: seq<Event> := [];
    var last := Last(0, 0);
    ghost var all := Compressed(cursor.data, cursor.position, Last(0, 0));
    NothingBefore(all);
    while cursor.position < |cursor.data|
      invariant cursor.Valid()
      invariant After(events, Compressed(cursor.data, cursor.position, last)) == all
      decreases |cursor.data| - cursor.position
    {
      CompressedTurn(cursor.data, cursor.position, last, events);
      var head := ReadHead(cursor, last);
      if head.None? {
        return Parsed(events, false);
      }
      var slice := cursor.ReadSlice(head.value.event.size);
      if slice.None? {
        return Parsed(events, false);
      }
      last := head.value.last;
      events := events + [head.value.event];
    }
    CompressedTurn(cursor.data, cursor.position, last, events);
    parsed := Parsed(events, true);
  }

  lemma WordAt(block: seq<byte>, at: nat)
    requires at + 4 <= |block|
    ensures U32At(block[at..], 0) == U32At(block, at)
  {
    assert block[at..][0..4] == block[at..at + 4];
  }

  /** Reads the 80 bytes before a plain record's payload. */
  method ReadPlainHead(cursor: Cursor) returns (head: Option<Event>)
    requires cursor.position + 80 <= |cursor.data|
    modifies cursor
    ensures cursor.Valid() && cursor.position == old(cursor.position) + 80
    ensures head == PlainHead(cursor.data, old(cursor.position))
  {
    hide U32At;
    ghost var block, at := cursor.data, cursor.position;
    var ok := SkipBytes(cursor, 4);
    var word := cursor.ReadU32();
    WordAt(block, at + 4);
    var metadata := word.value % 0x8000_0000;
    ok := SkipBytes(cursor, 68);
    var payload := cursor.ReadU32();
    WordAt(block, at + 76);
    if payload.value >= 0x8000_0000 {
      return None;
    }
    head := Some(Event(metadata, cursor.position, payload.value));
  }

  method ParsePlain(cursor: Cursor) returns (parsed: Parsed)
    requires cursor.Valid()
    modifies cursor
    ensures parsed == Plain(cursor.data, old(cursor.position))
  {
    hide PlainHead;
    var events: seq<Event> := [];
    ghost var all := Plain(cursor.data, cursor.position);
    NothingBefore(all);
    while cursor.position < |cursor.data|
      invariant cursor.Valid()
      invariant After(events, Plain(cursor.data, cursor.position)) == all
      decreases |cursor.data| - cursor.position
    {
      PlainTurn(cursor.data, cursor.position, events);
      if |cursor.data| - cursor.position < 80 {
        return Parsed(events, true);
      }
      var head := ReadPlainHead(cursor);
      if head.None? {
        return Parsed(events, false);
      }
      var slice := cursor.ReadSlice(head.value.size);
      if slice.None? {
        return Parsed(events, false);
      }
      events := events + [head.value];
      var ok := SkipBytes(cursor, Padding(head.value.size));
      if !ok {
        return Parsed(events, false);
      }
    }
    PlainTurn(cursor.data, cursor.position, events);
    parsed := Parsed(events, true);
  }

  // ----- on arbitrary bytes

  /** Every reported slice lies in the block, at or after `from`, and after the slice before it. */
  ghost predicate InOrder(events: seq<Event>, from: nat, limit: nat) {
    && (forall i :: 0 <= i < |events| ==> from <= events[i].start && events[i].start + events[i].size <= limit)
    && (forall i, j :: 0 <= i < j < |events| ==> events[i].start + events[i].size < events[j].start)
  }

  lemma ReportedInOrder(event: Event, rest: seq<Event>, from: nat, limit: nat)
    requires from <= event.start && event.start + event.size <= limit
    requires InOrder(rest, event.start + event.size + 1, limit)
    ensures InOrder([event] + rest, from, limit)
  {
  }

  lemma NoneInOrder(from: nat, limit: nat)
    ensures InOrder([], from, limit)
  {
  }

  lemma Later(events: seq<Event>, from: nat, later: nat, limit: nat)
    requires from <= later && InOrder(events, later, limit)
    ensures InOrder(events, from, limit)
  {
  }

  lemma {:induction false} CompressedInOrder(block: seq<byte>, at: nat, last: Last)
    requires at <= |block|
    ensures InOrder(Compressed(block, at, last).events, at + 1, |block|)
    decreases |block| - at
  {
    hide CompressedHead, InOrder;
    NoneInOrder(at + 1, |block|);
    if at < |block| && CompressedHead(block, at, last).Some? {
      var head := CompressedHead(block, at, last).value;
      var end := head.event.start + head.event.size;
      if end <= |block| {
        CompressedInOrder(block, end, head.last);
        ReportedInOrder(head.event, Compressed(block, end, head.last).events, at + 1, |block|);
      }
    }
  }

  lemma {:induction false} PlainInOrder(block: seq<byte>, at: nat)
    requires at <= |block|
    ensures InOrder(Plain(block, at).events, at + 1, |block|)
    decreases |block| - at
  {
    hide PlainHead, InOrder;
    NoneInOrder(at + 1, |block|);
    if |block| - at >= 80 && PlainHead(block, at).Some? {
      var event := PlainHead(block, at).value;
      var end := event.start + event.size;
      var next := end + Padding(event.size);
      if end <= |block| && next <= |block| {
        PlainInOrder(block, next);
        Later(Plain(block, next).events, end + 1, next + 1, |block|);
        ReportedInOrder(event, Plain(block, next).events, at + 1, |block|);
      } else if end <= |block| {
        NoneInOrder(end + 1, |block|);
        ReportedInOrder(event, [], at + 1, |block|);
        assert [event] + [] == [event];
      }
    }
  }

  /** Whatever the bytes, each slice given to the callback is inside the block and past its header,
      and begins after the end of the previous one. */
  lemma SlicesInBoundsAndDisjoint(block: seq<byte>)
    ensures InOrder(Parse(block).events, 4, |block|)
  {
    if |block| >= 4 {
      var header := U16At(block, 0);
      if 4 <= header <= |block| {
        CompressedInOrder(block, header, Last(0, 0));
        PlainInOrder(block, header);
      }
    }
  }
}
