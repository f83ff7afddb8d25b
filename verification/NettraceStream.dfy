/** The object stream around the blocks: tags, type names, and padding that depends on the position. */
module NettraceStream {
  import opened Bytes
  import opened Pieces
  import NettraceBlock

  const NULL_REFERENCE: byte := 1
  const BEGIN_OBJECT: byte := 5
  const END_OBJECT: byte := 6
  const MAX_STRING: nat := 1_048_576
  const MAX_BLOCK: nat := 16_777_216

  function Magic(): (s: seq<byte>)
    ensures |s| == 8
  {
    [78, 101, 116, 116, 114, 97, 99, 101]
  }

  function Serialization(): (s: seq<byte>)
    ensures |s| == 20
  {
    [33, 70, 97, 115, 116, 83, 101, 114, 105, 97, 108, 105, 122, 97, 116, 105, 111, 110, 46, 49]
  }

  function TraceName(): seq<byte> {
    [84, 114, 97, 99, 101]
  }

  function MetadataName(): seq<byte> {
    [77, 101, 116, 97, 100, 97, 116, 97, 66, 108, 111, 99, 107]
  }

  function EventName(): seq<byte> {
    [69, 118, 101, 110, 116, 66, 108, 111, 99, 107]
  }

  /** Why no more bytes come: the peer closed the stream, reading failed, or quitting was requested. After such a
      request each further read answers that it was interrupted, whatever the stream still holds. */
  datatype Ending = Closed | Broken | Cancelled

  datatype Error =
    | Disconnected
    | ReadFailed(ending: Ending)
    | InvalidMagic
    | InvalidSerialization(name: seq<byte>)
    | UnexpectedTag(tag: byte)
    | InvalidStringLength(length: int)
    | InvalidUtf8
    | InvalidBlockSize(size: int)
    | TruncatedBlock
    | DumpFailed
    | StillWaiting   // interrupted reads are tried again, without end

  /** All that a stream will deliver, from the magic on, why it then stops, and which byte strings are UTF-8. */
  datatype Source = Source(data: seq<byte>, ending: Ending, utf8: seq<byte> -> bool)

  datatype Block = Block(name: seq<byte>, bytes: seq<byte>)

  /** What evaluating the counters of an event block leads to. */
  datatype Verdict = Continue | Finish | Fail

  // ----- reading, as functions of the position

  datatype Got<+T> = Got(value: T, end: nat)

  /** How a read ends that needs more bytes than there are. */
  function Short(s: Source): Error {
    if s.ending == Cancelled then StillWaiting else ReadFailed(s.ending)
  }

  function Take(s: Source, at: nat, length: nat): (r: Result<Got<seq<byte>>, Error>)
    ensures r.Ok? ==> r.value.end == at + length <= |s.data| && |r.value.value| == length
  {
    if at + length <= |s.data| then Ok(Got(s.data[at..at + length], at + length)) else Err(Short(s))
  }

  function TakeByte(s: Source, at: nat): (r: Result<Got<byte>, Error>)
    ensures r.Ok? ==> r.value.end == at + 1 <= |s.data|
  {
    if at < |s.data| then Ok(Got(s.data[at], at + 1)) else Err(Short(s))
  }

  function Signed(word: u32): int {
    if word < 0x8000_0000 then word else word - U32_LIMIT
  }

  function TakeI32(s: Source, at: nat): (r: Result<Got<int>, Error>)
    ensures r.Ok? ==> r.value.end == at + 4 <= |s.data|
  {
    if at + 4 <= |s.data| then Ok(Got(Signed(U32At(s.data, at)), at + 4)) else Err(Short(s))
  }

  function TakeString(s: Source, at: nat): (r: Result<Got<seq<byte>>, Error>)
    ensures r.Ok? ==> at + 4 < r.value.end == at + 4 + |r.value.value| <= |s.data|
  {
    var length :- TakeI32(s, at);
    if length.value <= 0 || length.value > MAX_STRING then Err(InvalidStringLength(length.value))
    else
      var text :- Take(s, length.end, length.value);
      if s.utf8(text.value) then Ok(text) else Err(InvalidUtf8)
  }

  /** Both tags are read before either is looked at, and the first is the one reported. */
  function TakeTypeTags(s: Source, at: nat): (r: Result<nat, Error>)
    ensures r.Ok? ==> r.value == at + 2 <= |s.data|
  {
    var definition :- TakeByte(s, at);
    var reference :- TakeByte(s, at + 1);
    if definition.value == BEGIN_OBJECT && reference.value == NULL_REFERENCE then Ok(at + 2)
    else Err(UnexpectedTag(definition.value))
  }

  function TakeEnd(s: Source, at: nat): (r: Result<nat, Error>)
    ensures r.Ok? ==> r.value == at + 1 <= |s.data|
  {
    var tag :- TakeByte(s, at);
    if tag.value == END_OBJECT then Ok(at + 1) else Err(UnexpectedTag(tag.value))
  }

  datatype Type = Type(version: int, name: seq<byte>)

  function TakeType(s: Source, at: nat): (r: Result<Got<Type>, Error>)
    ensures r.Ok? ==> at < r.value.end <= |s.data|
  {
    var tags :- TakeTypeTags(s, at);
    var version :- TakeI32(s, tags);
    var minimum :- TakeI32(s, version.end);
    var name :- TakeString(s, minimum.end);
    var end :- TakeEnd(s, name.end);
    Ok(Got(Type(version.value, name.value), end))
  }

  function TakeBlock(s: Source, at: nat): (r: Result<Got<seq<byte>>, Error>)
    ensures r.Ok? ==> at < r.value.end <= |s.data|
  {
    var size :- TakeI32(s, at);
    if size.value <= 0 || size.value > MAX_BLOCK then Err(InvalidBlockSize(size.value))
    else
      var padding :- Take(s, size.end, Padding(size.end));
      Take(s, padding.end, size.value)
  }

  function TraceSize(version: int): nat {
    if version >= 3 then 48 else 32
  }

  /** An object's content: nothing for a trace header, otherwise a block to dispatch. */
  function TakeContent(s: Source, at: nat, t: Type): (r: Result<Got<Option<Block>>, Error>)
    ensures r.Ok? ==> at < r.value.end <= |s.data|
  {
    if t.name == TraceName() then
      var header :- Take(s, at, TraceSize(t.version));
      Ok(Got(None, header.end))
    else
      var block :- TakeBlock(s, at);
      Ok(Got(Some(Block(t.name, block.value)), block.end))
  }

  function TakeObject(s: Source, at: nat): (r: Result<Got<Option<Block>>, Error>)
    ensures r.Ok? ==> at < r.value.end <= |s.data|
  {
    var t :- TakeType(s, at);
    TakeContent(s, t.end, t.value)
  }

  /** What the last of the blocks handed out so far leads to. */
  function Judge(blocks: seq<Block>, evaluate: seq<Block> -> Verdict): Result<bool, Error>
    requires blocks != []
  {
    var block := blocks[|blocks| - 1];
    if block.name == MetadataName() then
      if NettraceBlock.Parse(block.bytes).whole then Ok(false) else Err(TruncatedBlock)
    else if block.name == EventName() then
      if !NettraceBlock.Parse(block.bytes).whole then Err(TruncatedBlock)
      else
        match evaluate(blocks)
        case Continue => Ok(false)
        case Finish => Ok(true)
        case Fail => Err(DumpFailed)
    else Ok(false)
  }

  /** How the monitor ends, and the blocks it handed out. */
  datatype Session = Session(outcome: Result<(), Error>, blocks: seq<Block>)

  /** The tag that opens an object or ends the stream; a closed stream here is a disconnection. */
  function TakeOuter(s: Source, at: nat): (r: Result<bool, Error>)
    ensures r.Ok? ==> at < |s.data|
  {
    if at >= |s.data| then Err(if s.ending == Closed then Disconnected else Short(s))
    else if s.data[at] == NULL_REFERENCE then Ok(false)
    else if s.data[at] == BEGIN_OBJECT then Ok(true)
    else Err(UnexpectedTag(s.data[at]))
  }

  function Handed(blocks: seq<Block>, content: Option<Block>): seq<Block> {
    if content.Some? then blocks + [content.value] else blocks
  }

  function JudgeContent(blocks: seq<Block>, content: Option<Block>, evaluate: seq<Block> -> Verdict)
    : Result<bool, Error>
    requires content.Some? ==> blocks != []
  {
    if content.Some? then Judge(blocks, evaluate) else Ok(false)
  }

  /** The monitor from the tag at `at` on, `blocks` having been handed out before. */
  function Run(s: Source, evaluate: seq<Block> -> Verdict, at: nat, blocks: seq<Block>): Session
    decreases |s.data| - at
  {
    match TakeOuter(s, at)
    case Err(error) => Session(Err(error), blocks)
    case Ok(more) =>
      if !more then Session(Ok(()), blocks)
      else
        match TakeObject(s, at + 1)
        case Err(error) => Session(Err(error), blocks)
        case Ok(got) =>
          var handed := Handed(blocks, got.value);
          match JudgeContent(handed, got.value, evaluate)
          case Err(error) => Session(Err(error), handed)
          case Ok(finish) =>
            if finish then Session(Ok(()), handed)
            else
              match TakeEnd(s, got.end)
              case Err(error) => Session(Err(error), handed)
              case Ok(next) => Run(s, evaluate, next, handed)
  }

  /** The stream's opening, before the first object. */
  function TakeOpening(s: Source): (r: Result<nat, Error>)
    ensures r.Ok? ==> r.value == 32 <= |s.data|
  {
    var magic :- Take(s, 0, 8);
    if magic.value != Magic() then Err(InvalidMagic)
    else
      var name :- TakeString(s, 8);
      if name.value != Serialization() then Err(InvalidSerialization(name.value)) else Ok(name.end)
  }

  function Monitored(s: Source, evaluate: seq<Block> -> Verdict): Session {
    match TakeOpening(s)
    case Err(error) => Session(Err(error), [])
    case Ok(at) => Run(s, evaluate, at, [])
  }

  // ----- the reader

  /** What one read of the socket gives. */
  datatype Answer = Bytes(bytes: seq<byte>) | EndOfFile | Interrupted | Failure

  /** A stream read in pieces: `piece` says how much each read gives, `patience` how often an interrupted read is tried
      again before it is called waiting. The program sets no such bound; the results hold for every one. */
  class Stream {
    const source: Source
    const piece: nat -> nat
    const patience: nat
    var consumed: nat
    var calls: nat

    ghost predicate Valid()
      reads this
    {
      consumed <= |source.data|
    }

    constructor (source: Source, piece: nat -> nat, patience: nat)
      ensures this.source == source && this.patience == patience && consumed == 0 && Valid()
    {
      this.source, this.piece, this.patience := source, piece, patience;
      consumed, calls := 0, 0;
    }

    /** One read: at least one byte if there is any left, and never more than asked for. */
    method Read(count: nat) returns (answer: Answer)
      requires Valid() && count > 0
      modifies this
      ensures Valid() && old(consumed) <= consumed
      ensures old(consumed) < |source.data| ==>
        answer == Bytes(source.data[old(consumed)..consumed]) && old(consumed) < consumed <= old(consumed) + count
      ensures old(consumed) == |source.data| ==>
        answer == match source.ending
                  case Closed => EndOfFile
                  case Broken => Failure
                  case Cancelled => Interrupted
    {
      if consumed == |source.data| {
        match source.ending
        case Closed => return EndOfFile;
        case Broken => return Failure;
        case Cancelled => return Interrupted;
      }
      var most := Min(count, |source.data| - consumed);
      var n := if piece(calls) == 0 then 1 else Min(piece(calls), most);
      calls := calls + 1;
      answer := Bytes(source.data[consumed..consumed + n]);
      consumed := consumed + n;
    }

    /** Reads until it has all the bytes; an interrupted read is tried again. */
    method ReadExact(length: nat) returns (r: Result<seq<byte>, Error>)
      requires Valid()
      modifies this
      ensures Valid()
      ensures match Take(source, old(consumed), length)
              case Err(e) => r == Err(e)
              case Ok(got) => r == Ok(got.value) && consumed == got.end
    {
      var bytes: seq<byte> := [];
      var tries := 0;
      while |bytes| < length
        invariant Valid() && consumed == old(consumed) + |bytes| && |bytes| <= length
        invariant bytes == source.data[old(consumed)..consumed]
        decreases length - |bytes|, patience - tries
      {
        var answer := Read(length - |bytes|);
        match answer
        case Bytes(more) => bytes := bytes + more;
        case EndOfFile => return Err(ReadFailed(Closed));
        case Failure => return Err(ReadFailed(Broken));
        case Interrupted =>
          if tries >= patience {
            return Err(StillWaiting);
          }
          tries := tries + 1;
      }
      r := Ok(bytes);
    }

    method ReadU8() returns (r: Result<byte, Error>)
      requires Valid()
      modifies this
      ensures Valid()
      ensures match TakeByte(source, old(consumed))
              case Err(e) => r == Err(e)
              case Ok(got) => r == Ok(got.value) && consumed == got.end
    {
      var value :- ReadExact(1);
      r := Ok(value[0]);
    }

    method ReadI32() returns (r: Result<int, Error>)
      requires Valid()
      modifies this
      ensures Valid()
      ensures match TakeI32(source, old(consumed))
              case Err(e) => r == Err(e)
              case Ok(got) => r == Ok(got.value) && consumed == got.end
    {
      var value :- ReadExact(4);
      assert value[0..4] == value;
      r := Ok(Signed(U32At(value, 0)));
    }

    method ReadSerializedString() returns (r: Result<seq<byte>, Error>)
      requires Valid()
      modifies this
      ensures Valid()
      ensures match TakeString(source, old(consumed))
              case Err(e) => r == Err(e)
              case Ok(got) => r == Ok(got.value) && consumed == got.end
    {
      var length :- ReadI32();
      if length <= 0 || length > MAX_STRING {
        return Err(InvalidStringLength(length));
      }
      var value :- ReadExact(length);
      r := if source.utf8(value) then Ok(value) else Err(InvalidUtf8);
    }

    /** Skips through a buffer of 4096 bytes. */
    method SkipExact(length: nat) returns (r: Result<(), Error>)
      requires Valid()
      modifies this
      ensures Valid()
      ensures match Take(source, old(consumed), length)
              case Err(e) => r == Err(e)
              case Ok(got) => r.Ok? && consumed == got.end
    {
      var left := length;
      while left > 0
        invariant Valid() && 0 <= left <= length && consumed == old(consumed) + (length - left)
      {
        var count := Min(left, 4096);
        var _ :- ReadExact(count);
        left := left - count;
      }
      r := Ok(());
    }

    /** An object's version and type name; `position` counts the bytes consumed since the magic. */
    method ReadType(position: nat) returns (r: Result<Type, Error>, newPosition: nat)
      requires Valid() && position == consumed
      modifies this
      ensures Valid()
      ensures match TakeType(source, old(consumed))
              case Err(e) => r == Err(e)
              case Ok(got) => r == Ok(got.value) && newPosition == consumed == got.end
    {
      hide TakeI32, TakeString, TakeByte, U32At;
      newPosition := position;
      var definition :- ReadU8();
      var reference :- ReadU8();
      newPosition := newPosition + 2;
      if definition != BEGIN_OBJECT || reference != NULL_REFERENCE {
        r := Err(UnexpectedTag(definition));
        return;
      }
      var version :- ReadI32();
      var _ :- ReadI32();
      newPosition := newPosition + 8;
      var name :- ReadSerializedString();
      newPosition := newPosition + 4 + |name|;
      var endType :- ReadU8();
      newPosition := newPosition + 1;
      if endType != END_OBJECT {
        r := Err(UnexpectedTag(endType));
        return;
      }
      r := Ok(Type(version, name));
    }

    /** The rest of an object, up to its end tag. */
    method ReadContent(t: Type, position: nat) returns (r: Result<Option<Block>, Error>, newPosition: nat)
      requires Valid() && position == consumed
      modifies this
      ensures Valid()
      ensures match TakeContent(source, old(consumed), t)
              case Err(e) => r == Err(e)
              case Ok(got) => r == Ok(got.value) && newPosition == consumed == got.end
    {
      hide TakeI32, TraceName;
      newPosition := position;
      if t.name == TraceName() {
        var traceSize := if t.version >= 3 then 48 else 32;
        var _ :- SkipExact(traceSize);
        newPosition := newPosition + traceSize;
        r := Ok(None);
      } else {
        var size :- ReadI32();
        newPosition := newPosition + 4;
        if size <= 0 || size > MAX_BLOCK {
          r := Err(InvalidBlockSize(size));
          return;
        }
        var padding := (4 - newPosition % 4) % 4;
        var _ :- SkipExact(padding);
        newPosition := newPosition + padding;
        var block :- ReadExact(size);
        newPosition := newPosition + |block|;
        r := Ok(Some(Block(t.name, block)));
      }
    }

    method ReadOpening() returns (r: Result<nat, Error>)
      requires Valid() && consumed == 0
      modifies this
      ensures Valid()
      ensures r == TakeOpening(source)
      ensures r.Ok? ==> r.value == consumed
    {
      var magic :- ReadExact(8);
      if magic != Magic() {
        return Err(InvalidMagic);
      }
      var serialization :- ReadSerializedString();
      if serialization != Serialization() {
        return Err(InvalidSerialization(serialization));
      }
      r := Ok(8 + 4 + |serialization|);
    }

    /** Decodes the stream, handing out each block as it is read. The position that the padding depends
        on is kept apart from the reader and never differs from the bytes consumed. */
    method RunCounterMonitor(evaluate: seq<Block> -> Verdict) returns (outcome: Result<(), Error>, blocks: seq<Block>)
      requires Valid() && consumed == 0
      modifies this
      ensures Session(outcome, blocks) == Monitored(source, evaluate)
    {
      hide TakeType, TakeContent, Judge, TakeOpening;
      blocks := [];
      var streamPosition :- ReadOpening();
      ghost var all := Run(source, evaluate, streamPosition, []);
      while true
        invariant Valid() && streamPosition == consumed
        invariant Run(source, evaluate, streamPosition, blocks) == all
        decreases |source.data| - consumed
      {
        var outer := ReadU8();
        if outer.Err? {
          outcome := Err(if outer.error == ReadFailed(Closed) then Disconnected else outer.error);
          return;
        }
        streamPosition := streamPosition + 1;
        if outer.value == NULL_REFERENCE {
          outcome := Ok(());
          return;
        }
        if outer.value != BEGIN_OBJECT {
          outcome := Err(UnexpectedTag(outer.value));
          return;
        }
        var objectType, typeEnd := ReadType(streamPosition);
        if objectType.Err? {
          outcome := Err(objectType.error);
          return;
        }
        streamPosition := typeEnd;
        var content, contentEnd := ReadContent(objectType.value, streamPosition);
        if content.Err? {
          outcome := Err(content.error);
          return;
        }
        streamPosition := contentEnd;
        if content.value.Some? {
          blocks := blocks + [content.value.value];
          var finish :- Dispatch(blocks, evaluate);
          if finish {
            outcome := Ok(());
            return;
          }
        }
        var end :- ReadU8();
        streamPosition := streamPosition + 1;
        if end != END_OBJECT {
          outcome := Err(UnexpectedTag(end));
          return;
        }
      }
    }
  }

  /** Parses metadata and event blocks and lets the counters decide; other blocks are passed over. */
  method Dispatch(blocks: seq<Block>, evaluate: seq<Block> -> Verdict) returns (r: Result<bool, Error>)
    requires blocks != []
    ensures r == Judge(blocks, evaluate)
  {
    var block := blocks[|blocks| - 1];
    if block.name == MetadataName() {
      var parsed := NettraceBlock.ParseBlock(block.bytes);
      r := if parsed.whole then Ok(false) else Err(TruncatedBlock);
    } else if block.name == EventName() {
      var parsed := NettraceBlock.ParseBlock(block.bytes);
      if !parsed.whole {
        return Err(TruncatedBlock);
      }
      match evaluate(blocks)
      case Continue => r := Ok(false);
      case Finish => r := Ok(true);
      case Fail => r := Err(DumpFailed);
    } else {
      r := Ok(false);
    }
  }
}
