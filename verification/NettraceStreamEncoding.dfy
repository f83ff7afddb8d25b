/** Object streams as a runtime writes them, and what the decoder makes of them. */
module NettraceStreamEncoding {
  import opened Bytes
  import opened Pieces
  import opened NettraceStream
  import NettraceBlock

  /** An object to send. Its padding has the length its position calls for; the bytes are free. */
  datatype Object = Object(version: u32, minimum: u32, name: seq<byte>, padding: seq<byte>, bytes: seq<byte>)

  /** The texts, tags and limits that the reader looks for. */
  lemma Names()
    ensures Magic() == Text("Nettrace") && Serialization() == Text("!FastSerialization.1")
    ensures TraceName() == Text("Trace") && MetadataName() == Text("MetadataBlock") && EventName() == Text("EventBlock")
    ensures NULL_REFERENCE == 1 && BEGIN_OBJECT == 5 && END_OBJECT == 6
    ensures MAX_STRING == 0x10_0000 && MAX_BLOCK == 0x100_0000
  {
    hide Serialization, MetadataName;
    LongNames();
  }

  lemma LongNames()
    ensures Serialization() == Text("!FastSerialization.1") && MetadataName() == Text("MetadataBlock")
  {
  }

  predicate ValidName(name: seq<byte>, utf8: seq<byte> -> bool): (ok: bool)
    ensures ok ==> 0 < |name| <= MAX_STRING
  {
    0 < |name| <= 0x10_0000 && utf8(name)
  }

  /** Where an object's content begins when its type begins at `at`. */
  function ContentStart(o: Object, at: nat): nat {
    at + 15 + |o.name|
  }

  predicate ValidContent(o: Object, start: nat): (ok: bool)
    ensures ok ==> |o.bytes| <= MAX_BLOCK
  {
    if o.name == Text("Trace") then |o.bytes| == if 3 <= o.version < 0x8000_0000 then 48 else 32
    else 0 < |o.bytes| <= 0x100_0000 && |o.padding| == Padding(start + 4)
  }

  predicate Valid(o: Object, at: nat, utf8: seq<byte> -> bool): (ok: bool)
    ensures ok ==> 0 < |o.name| <= MAX_STRING && |o.bytes| <= MAX_BLOCK
  {
    ValidName(o.name, utf8) && ValidContent(o, ContentStart(o, at))
  }

  function EncodeType(o: Object): (s: seq<byte>)
    requires 0 < |o.name| <= MAX_STRING
    ensures |s| == 15 + |o.name|
  {
    Then([5], Then([1], Then(Le32(o.version), Then(Le32(o.minimum),
    Then(Le32(|o.name|), Then(o.name, [6]))))))
  }

  function EncodeContent(o: Object): (s: seq<byte>)
    requires |o.bytes| <= MAX_BLOCK
  {
    if o.name == Text("Trace") then o.bytes else Then(Le32(|o.bytes|), Then(o.padding, o.bytes))
  }

  function Content(o: Object): Option<Block> {
    if o.name == Text("Trace") then None else Some(Block(o.name, o.bytes))
  }

  /** The position after an object, its tags included, whose first tag is at `at`. */
  function After(o: Object, at: nat): nat
    requires 0 < |o.name| <= MAX_STRING && |o.bytes| <= MAX_BLOCK
  {
    at + 1 + |EncodeType(o)| + |EncodeContent(o)| + 1
  }

  predicate AllValid(objects: seq<Object>, at: nat, utf8: seq<byte> -> bool) {
    objects == [] ||
    (Valid(objects[0], at + 1, utf8) && AllValid(objects[1..], After(objects[0], at), utf8))
  }

  /** The position after a list of objects that begins at `at`. */
  function AfterAll(objects: seq<Object>, at: nat, utf8: seq<byte> -> bool): (end: nat)
    requires AllValid(objects, at, utf8)
    ensures end >= at
  {
    if objects == [] then at else AfterAll(objects[1..], After(objects[0], at), utf8)
  }

  /** The objects one after the other, and then `tail`. */
  function Encoded(objects: seq<Object>, at: nat, tail: seq<byte>, utf8: seq<byte> -> bool): (s: seq<byte>)
    requires AllValid(objects, at, utf8)
    ensures |s| == AfterAll(objects, at, utf8) - at + |tail|
  {
    if objects == [] then tail
    else
      Then([5], Then(EncodeType(objects[0]), Then(EncodeContent(objects[0]),
      Then([6], Encoded(objects[1..], After(objects[0], at), tail, utf8)))))
  }

  /** What has to come after the objects for a session to end well: the end of the stream, or one more object up to
      its content; whether that object is ended, and what follows, makes no difference. */
  function Closing(last: Option<Object>): seq<byte>
    requires last.Some? ==> 0 < |last.value.name| <= MAX_STRING && |last.value.bytes| <= MAX_BLOCK
  {
    if last.None? then [1]
    else Then([5], Then(EncodeType(last.value), EncodeContent(last.value)))
  }

  function EncodeOpening(): (s: seq<byte>)
    ensures |s| == 32
  {
    Then(Text("Nettrace"), Then(Le32(20), Text("!FastSerialization.1")))
  }

  function EncodeStream(objects: seq<Object>, tail: seq<byte>, utf8: seq<byte> -> bool): seq<byte>
    requires AllValid(objects, 32, utf8)
  {
    Then(EncodeOpening(), Encoded(objects, 32, tail, utf8))
  }

  /** The blocks of a list of objects, after those of `blocks`. */
  function HandedAll(objects: seq<Object>, blocks: seq<Block>): seq<Block> {
    if objects == [] then blocks else HandedAll(objects[1..], Handed(blocks, Content(objects[0])))
  }

  /** What handing out one more object's block leads to: metadata and events must parse, events are evaluated, and
      anything else is passed over. */
  function Judged(o: Object, evaluate: seq<Block> -> Verdict, blocks: seq<Block>): Result<bool, Error> {
    if o.name != Text("MetadataBlock") && o.name != Text("EventBlock") then Ok(false)
    else if !NettraceBlock.Parse(o.bytes).whole then Err(TruncatedBlock)
    else if o.name == Text("MetadataBlock") then Ok(false)
    else
      match evaluate(blocks + [Block(o.name, o.bytes)])
      case Continue => Ok(false)
      case Finish => Ok(true)
      case Fail => Err(DumpFailed)
  }

  lemma JudgedSame(o: Object, evaluate: seq<Block> -> Verdict, blocks: seq<Block>)
    ensures JudgeContent(Handed(blocks, Content(o)), Content(o), evaluate) == Judged(o, evaluate, blocks)
  {
    hide Text, TraceName, MetadataName, EventName;
    Names();
    NamesDiffer();
  }

  lemma NamesDiffer()
    ensures Text("Trace") != Text("MetadataBlock") && Text("Trace") != Text("EventBlock")
  {
    assert |Text("Trace")| == 5 && |Text("MetadataBlock")| == 13 && |Text("EventBlock")| == 10;
  }

  /** Every block can be parsed, and none ends the session. */
  predicate Continues(objects: seq<Object>, evaluate: seq<Block> -> Verdict, blocks: seq<Block>) {
    objects == [] ||
    (Judged(objects[0], evaluate, blocks) == Ok(false) &&
     Continues(objects[1..], evaluate, Handed(blocks, Content(objects[0]))))
  }

  /** What a monitor should do with a list of objects: hand out each block in order until one
      cannot be parsed, or the counters say to stop. */
  function Expected(objects: seq<Object>, evaluate: seq<Block> -> Verdict, blocks: seq<Block>): Session {
    if objects == [] then Session(Ok(()), blocks)
    else
      var handed := Handed(blocks, Content(objects[0]));
      match Judged(objects[0], evaluate, blocks)
      case Err(error) => Session(Err(error), handed)
      case Ok(finish) => if finish then Session(Ok(()), handed) else Expected(objects[1..], evaluate, handed)
  }

  // ----- what is written is read

  lemma ReadsI32(s: Source, at: nat, word: u32)
    requires At(s.data, at, Le32(word))
    ensures TakeI32(s, at) == Ok(Got(Signed(word), at + 4))
  {
    ReadsWord(s.data, at, word);
  }

  lemma ReadsByte(s: Source, at: nat, b: byte)
    ensures At(s.data, at, [b]) <==> TakeByte(s, at) == Ok(Got(b, at + 1))
  {
    ByteAt(s.data, at, b);
  }

  lemma ReadsString(s: Source, at: nat, text: seq<byte>)
    requires ValidName(text, s.utf8) && At(s.data, at, Le32(|text|)) && At(s.data, at + 4, text)
    ensures TakeString(s, at) == Ok(Got(text, at + 4 + |text|))
  {
    ReadsI32(s, at, |text|);
  }

  lemma ReadsEnd(s: Source, at: nat)
    ensures At(s.data, at, [END_OBJECT]) <==> TakeEnd(s, at) == Ok(at + 1)
  {
    ReadsByte(s, at, END_OBJECT);
  }

  lemma ReadsTypeTags(s: Source, at: nat)
    ensures At(s.data, at, [BEGIN_OBJECT]) && At(s.data, at + 1, [NULL_REFERENCE]) <==>
            TakeTypeTags(s, at) == Ok(at + 2)
  {
    ReadsByte(s, at, BEGIN_OBJECT);
    ReadsByte(s, at + 1, NULL_REFERENCE);
  }

  lemma ReadsType(o: Object, s: Source, at: nat)
    requires ValidName(o.name, s.utf8) && At(s.data, at, EncodeType(o))
    ensures TakeType(s, at) == Ok(Got(Type(Signed(o.version), o.name), at + 15 + |o.name|))
  {
    hide Then, At, Le32, ValidName, TakeTypeTags, TakeI32, TakeString, TakeEnd, Signed;
    var s5 := Then(o.name, [END_OBJECT]);
    var s4 := Then(Le32(|o.name|), s5);
    var s3 := Then(Le32(o.minimum), s4);
    var s2 := Then(Le32(o.version), s3);
    var s1 := Then([NULL_REFERENCE], s2);
    Joined(s.data, at, [BEGIN_OBJECT], s1);
    Joined(s.data, at + 1, [NULL_REFERENCE], s2);
    Joined(s.data, at + 2, Le32(o.version), s3);
    Joined(s.data, at + 6, Le32(o.minimum), s4);
    Joined(s.data, at + 10, Le32(|o.name|), s5);
    Joined(s.data, at + 14, o.name, [END_OBJECT]);
    ReadsTypeTags(s, at);
    ReadsI32(s, at + 2, o.version);
    ReadsI32(s, at + 6, o.minimum);
    ReadsString(s, at + 10, o.name);
    ReadsEnd(s, at + 14 + |o.name|);
  }

  lemma ReadsBlock(o: Object, s: Source, at: nat)
    requires 0 < |o.bytes| <= MAX_BLOCK && |o.padding| == Padding(at + 4)
    requires At(s.data, at, Then(Le32(|o.bytes|), Then(o.padding, o.bytes)))
    ensures TakeBlock(s, at) == Ok(Got(o.bytes, at + 4 + |o.padding| + |o.bytes|))
  {
    hide Then, Le32, TakeI32, Padding;
    Joined(s.data, at, Le32(|o.bytes|), Then(o.padding, o.bytes));
    Joined(s.data, at + 4, o.padding, o.bytes);
    ReadsI32(s, at, |o.bytes|);
  }

  lemma ReadsContent(o: Object, s: Source, at: nat)
    requires ValidContent(o, at) && At(s.data, at, EncodeContent(o))
    ensures TakeContent(s, at, Type(Signed(o.version), o.name)) == Ok(Got(Content(o), at + |EncodeContent(o)|))
  {
    hide TraceName, Text, Le32, TakeBlock, Then;
    Names();
    if o.name != TraceName() {
      ReadsBlock(o, s, at);
    }
  }

  /** One object up to its content read back, with `rest` found after it. */
  lemma ReadsObject(o: Object, rest: seq<byte>, s: Source, at: nat)
    requires Valid(o, at + 1, s.utf8)
    requires At(s.data, at, Then([BEGIN_OBJECT], Then(EncodeType(o), Then(EncodeContent(o), rest))))
    ensures TakeOuter(s, at) == Ok(true)
    ensures TakeObject(s, at + 1) == Ok(Got(Content(o), After(o, at) - 1))
    ensures At(s.data, After(o, at) - 1, rest)
  {
    hide Then, At, ValidName, ValidContent, EncodeType, EncodeContent, TakeType, TakeContent, Content;
    var s2 := Then(EncodeContent(o), rest);
    var content := ContentStart(o, at + 1);
    Joined(s.data, at, [BEGIN_OBJECT], Then(EncodeType(o), s2));
    Joined(s.data, at + 1, EncodeType(o), s2);
    Joined(s.data, content, EncodeContent(o), rest);
    ByteAt(s.data, at, BEGIN_OBJECT);
    ReadsType(o, s, at + 1);
    ReadsContent(o, s, content);
  }

  /** Objects that do not end the session bring the monitor to what follows them; the first that does ends it,
      whatever follows. */
  lemma {:induction false} ReadsObjects(objects: seq<Object>, tail: seq<byte>, s: Source,
                                        evaluate: seq<Block> -> Verdict, at: nat, blocks: seq<Block>)
    requires AllValid(objects, at, s.utf8) && At(s.data, at, Encoded(objects, at, tail, s.utf8))
    ensures !Continues(objects, evaluate, blocks) ==>
      Run(s, evaluate, at, blocks) == Expected(objects, evaluate, blocks)
    ensures Continues(objects, evaluate, blocks) ==>
      && At(s.data, AfterAll(objects, at, s.utf8), tail)
      && Run(s, evaluate, at, blocks) == Run(s, evaluate, AfterAll(objects, at, s.utf8), HandedAll(objects, blocks))
      && Expected(objects, evaluate, blocks) == Session(Ok(()), HandedAll(objects, blocks))
    decreases |objects|
  {
    hide Then, At, Valid, EncodeType, EncodeContent, TakeOuter, TakeObject, TakeEnd, Content, JudgeContent, After,
      Judged;
    if objects != [] {
      var o := objects[0];
      JudgedSame(o, evaluate, blocks);
      var rest := Encoded(objects[1..], After(o, at), tail, s.utf8);
      ReadsObject(o, Then([END_OBJECT], rest), s, at);
      Joined(s.data, After(o, at) - 1, [END_OBJECT], rest);
      ReadsEnd(s, After(o, at) - 1);
      ReadsObjects(objects[1..], tail, s, evaluate, After(o, at), Handed(blocks, Content(o)));
    }
  }

  lemma OpensExactly(s: Source)
    requires s.utf8(Serialization())
    ensures TakeOpening(s).Ok? <==> At(s.data, 0, EncodeOpening())
  {
    hide Then, Le32, Magic, Serialization, TakeI32, Text;
    Names();
    var rest := Then(Le32(20), Serialization());
    Joined(s.data, 0, Magic(), rest);
    Joined(s.data, 8, Le32(20), Serialization());
    if At(s.data, 0, EncodeOpening()) {
      ReadsString(s, 8, Serialization());
    }
    if TakeOpening(s).Ok? {
      WroteString(s, 8);
    }
  }

  lemma WroteI32(s: Source, at: nat) returns (word: u32)
    requires TakeI32(s, at).Ok?
    ensures At(s.data, at, Le32(word)) && Signed(word) == TakeI32(s, at).value.value
  {
    word := U32At(s.data, at);
    WroteWord(s.data, at);
  }

  lemma WroteString(s: Source, at: nat)
    requires TakeString(s, at).Ok?
    ensures var text := TakeString(s, at).value.value;
      ValidName(text, s.utf8) && At(s.data, at, Le32(|text|)) && At(s.data, at + 4, text)
  {
    var word := WroteI32(s, at);
  }

  /** Whatever objects a runtime sends, and whatever follows the end of the stream or the object that ends the
      session, the blocks handed out are exactly the ones sent, and the session ends as it should. */
  lemma DecodesItsEncoding(objects: seq<Object>, tail: seq<byte>, s: Source, evaluate: seq<Block> -> Verdict)
    requires s.utf8(Serialization())
    requires AllValid(objects, 32, s.utf8) && At(s.data, 0, EncodeStream(objects, tail, s.utf8))
    requires (tail != [] && tail[0] == NULL_REFERENCE) || !Continues(objects, evaluate, [])
    ensures Monitored(s, evaluate) == Expected(objects, evaluate, [])
  {
    hide Then, TakeOpening, Encoded, Expected, Continues, AllValid;
    Joined(s.data, 0, EncodeOpening(), Encoded(objects, 32, tail, s.utf8));
    OpensExactly(s);
    ReadsObjects(objects, tail, s, evaluate, 32, []);
  }

  // ----- what is read was written

  lemma WroteType(s: Source, at: nat) returns (version: u32, minimum: u32)
    requires TakeType(s, at).Ok?
    ensures var t := TakeType(s, at).value.value;
      && t.version == Signed(version) && ValidName(t.name, s.utf8)
      && TakeType(s, at).value.end == at + 15 + |t.name|
      && forall o: Object :: o.version == version && o.minimum == minimum && o.name == t.name ==>
           At(s.data, at, EncodeType(o))
  {
    hide Then, At, Le32, ValidName, TakeTypeTags, TakeI32, TakeString, TakeEnd, Signed;
    version := WroteI32(s, at + 2);
    minimum := WroteI32(s, at + 6);
    WroteString(s, at + 10);
    var name := TakeType(s, at).value.value.name;
    ReadsTypeTags(s, at);
    ReadsEnd(s, at + 14 + |name|);
    var s5 := Then(name, [END_OBJECT]);
    var s4 := Then(Le32(|name|), s5);
    var s3 := Then(Le32(minimum), s4);
    var s2 := Then(Le32(version), s3);
    Joined(s.data, at + 14, name, [END_OBJECT]);
    Joined(s.data, at + 10, Le32(|name|), s5);
    Joined(s.data, at + 6, Le32(minimum), s4);
    Joined(s.data, at + 2, Le32(version), s3);
    Joined(s.data, at + 1, [NULL_REFERENCE], s2);
    Joined(s.data, at, [BEGIN_OBJECT], Then([NULL_REFERENCE], s2));
  }

  lemma WroteBlock(s: Source, at: nat) returns (padding: seq<byte>)
    requires TakeBlock(s, at).Ok?
    ensures var bytes := TakeBlock(s, at).value.value;
      && 0 < |bytes| <= MAX_BLOCK && |padding| == Padding(at + 4)
      && At(s.data, at, Then(Le32(|bytes|), Then(padding, bytes)))
      && TakeBlock(s, at).value.end == at + 4 + |padding| + |bytes|
  {
    hide Then, Le32, TakeI32, Padding;
    var word := WroteI32(s, at);
    var bytes := TakeBlock(s, at).value.value;
    padding := Take(s, at + 4, Padding(at + 4)).value.value;
    Joined(s.data, at + 4, padding, bytes);
    Joined(s.data, at, Le32(|bytes|), Then(padding, bytes));
  }

  lemma WroteContent(s: Source, at: nat, version: u32, minimum: u32, name: seq<byte>) returns (o: Object)
    requires TakeContent(s, at, Type(Signed(version), name)).Ok?
    ensures o.version == version && o.minimum == minimum && o.name == name && ValidContent(o, at)
    ensures At(s.data, at, EncodeContent(o))
    ensures TakeContent(s, at, Type(Signed(version), name)) == Ok(Got(Content(o), at + |EncodeContent(o)|))
  {
    hide TraceName, Text, Le32, TakeBlock, Then;
    Names();
    if name == TraceName() {
      o := Object(version, minimum, name, [], Take(s, at, TraceSize(Signed(version))).value.value);
    } else {
      var padding := WroteBlock(s, at);
      o := Object(version, minimum, name, padding, TakeBlock(s, at).value.value);
    }
  }

  lemma WroteObject(s: Source, at: nat) returns (o: Object)
    requires TakeOuter(s, at) == Ok(true) && TakeObject(s, at + 1).Ok?
    ensures Valid(o, at + 1, s.utf8)
    ensures TakeObject(s, at + 1) == Ok(Got(Content(o), After(o, at) - 1))
    ensures At(s.data, at, Then([BEGIN_OBJECT], Then(EncodeType(o), EncodeContent(o))))
  {
    hide Then, At, ValidName, ValidContent, EncodeType, EncodeContent, TakeType, TakeContent, Content, Signed;
    var t := TakeType(s, at + 1).value;
    var version, minimum := WroteType(s, at + 1);
    o := WroteContent(s, t.end, version, minimum, t.value.name);
    ByteAt(s.data, at, BEGIN_OBJECT);
    Joined(s.data, at + 1, EncodeType(o), EncodeContent(o));
    Joined(s.data, at, [BEGIN_OBJECT], Then(EncodeType(o), EncodeContent(o)));
  }

  /** An object that is ended, with `rest` after it. */
  lemma WroteEnded(o: Object, s: Source, at: nat, rest: seq<byte>)
    requires Valid(o, at + 1, s.utf8) && At(s.data, at, Then([BEGIN_OBJECT], Then(EncodeType(o), EncodeContent(o))))
    requires TakeEnd(s, After(o, at) - 1).Ok? && At(s.data, After(o, at), rest)
    ensures At(s.data, at, Then([BEGIN_OBJECT], Then(EncodeType(o), Then(EncodeContent(o), Then([END_OBJECT], rest)))))
  {
    hide Then, At, ValidName, ValidContent, EncodeType, EncodeContent, TakeEnd;
    var content := ContentStart(o, at + 1);
    var s3 := Then([END_OBJECT], rest);
    var s2 := Then(EncodeContent(o), s3);
    Joined(s.data, at, [BEGIN_OBJECT], Then(EncodeType(o), EncodeContent(o)));
    Joined(s.data, at + 1, EncodeType(o), EncodeContent(o));
    ReadsEnd(s, After(o, at) - 1);
    Joined(s.data, After(o, at) - 1, [END_OBJECT], rest);
    Joined(s.data, content, EncodeContent(o), s3);
    Joined(s.data, at + 1, EncodeType(o), s2);
    Joined(s.data, at, [BEGIN_OBJECT], Then(EncodeType(o), s2));
  }

  /** From `at` on there are objects that do not end the session, and then the end of the stream or `last`, an object
      whose block does. */
  ghost predicate Written(objects: seq<Object>, last: Option<Object>, s: Source, evaluate: seq<Block> -> Verdict,
                          at: nat, blocks: seq<Block>)
  {
    && AllValid(objects, at, s.utf8) && Continues(objects, evaluate, blocks)
    && (last.Some? ==>
          && Valid(last.value, AfterAll(objects, at, s.utf8) + 1, s.utf8)
          && Judged(last.value, evaluate, HandedAll(objects, blocks)) == Ok(true))
    && At(s.data, at, Encoded(objects, at, Closing(last), s.utf8))
  }

  function Sent(objects: seq<Object>, last: Option<Object>, blocks: seq<Block>): seq<Block> {
    var all := HandedAll(objects, blocks);
    if last.None? then all else Handed(all, Content(last.value))
  }

  lemma ReadsWritten(objects: seq<Object>, last: Option<Object>, s: Source, evaluate: seq<Block> -> Verdict, at: nat,
                     blocks: seq<Block>)
    requires Written(objects, last, s, evaluate, at, blocks)
    ensures Run(s, evaluate, at, blocks) == Session(Ok(()), Sent(objects, last, blocks))
  {
    hide At, Then, Valid, AllValid, Encoded, Continues, HandedAll, AfterAll, EncodeType, EncodeContent, Content,
      JudgeContent, TakeObject, After, Expected, Judged;
    ReadsObjects(objects, Closing(last), s, evaluate, at, blocks);
    var end := AfterAll(objects, at, s.utf8);
    if last.None? {
      ByteAt(s.data, end, NULL_REFERENCE);
    } else {
      var o := last.value;
      JudgedSame(o, evaluate, HandedAll(objects, blocks));
      assert Then(EncodeContent(o), []) == EncodeContent(o) by { WithNothing(EncodeContent(o)); }
      ReadsObject(o, [], s, end);
    }
  }

  lemma WithNothing(a: seq<byte>)
    ensures Then(a, []) == a
  {
  }

  lemma {:induction false} WroteObjects(s: Source, evaluate: seq<Block> -> Verdict, at: nat, blocks: seq<Block>)
    returns (objects: seq<Object>, last: Option<Object>)
    requires Run(s, evaluate, at, blocks).outcome.Ok?
    ensures Written(objects, last, s, evaluate, at, blocks)
    decreases |s.data| - at
  {
    hide Then, At, Valid, EncodeType, EncodeContent, TakeObject, TakeEnd, Content, After, JudgeContent, Judged;
    objects, last := [], None;
    if TakeOuter(s, at) == Ok(false) {
      ByteAt(s.data, at, NULL_REFERENCE);
    } else {
      var o := WroteObject(s, at);
      JudgedSame(o, evaluate, blocks);
      if Judged(o, evaluate, blocks) == Ok(true) {
        last := Some(o);
      } else {
        var rest;
        rest, last := WroteObjects(s, evaluate, After(o, at), Handed(blocks, Content(o)));
        WroteEnded(o, s, at, Encoded(rest, After(o, at), Closing(last), s.utf8));
        objects := [o] + rest;
        assert objects[1..] == rest;
      }
    }
  }

  /** A session ends well, having handed out `blocks`, on exactly the encodings of object lists with these blocks, all
      of which can be parsed, that are ended, or followed by one more object whose block ends the session. */
  lemma AcceptsExactlyEncodings(s: Source, evaluate: seq<Block> -> Verdict, blocks: seq<Block>)
    requires s.utf8(Serialization())
    ensures Monitored(s, evaluate) == Session(Ok(()), blocks) <==>
            At(s.data, 0, EncodeOpening()) &&
            exists objects, last :: Written(objects, last, s, evaluate, 32, []) && blocks == Sent(objects, last, [])
  {
    hide At, TakeOpening, Run, Written, Sent;
    OpensExactly(s);
    if Monitored(s, evaluate) == Session(Ok(()), blocks) {
      var objects, last := WroteObjects(s, evaluate, 32, []);
      ReadsWritten(objects, last, s, evaluate, 32, []);
    }
    if At(s.data, 0, EncodeOpening()) {
      forall objects, last | Written(objects, last, s, evaluate, 32, []) && blocks == Sent(objects, last, [])
        ensures Monitored(s, evaluate) == Session(Ok(()), blocks)
      {
        ReadsWritten(objects, last, s, evaluate, 32, []);
      }
    }
  }
}
