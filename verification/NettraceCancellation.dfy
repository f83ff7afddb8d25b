/** What becomes of a counter monitor that is asked to quit while it reads. */
module NettraceCancellation {
  import opened Bytes
  import opened NettraceStream
  import opened NettraceStreamEncoding
  import opened Pieces

  /** The stream `t` goes on where the bytes read from `s` before the request to quit end. */
  ghost predicate GoesOn(t: Source, s: Source) {
    s.ending == Cancelled && s.data <= t.data && t.utf8 == s.utf8
  }

  lemma SameBytes(t: Source, s: Source, at: nat, length: nat)
    requires GoesOn(t, s) && at + length <= |s.data|
    ensures t.data[at..at + length] == s.data[at..at + length]
  {
  }

  lemma SameTake(t: Source, s: Source, at: nat, length: nat)
    requires GoesOn(t, s) && Take(s, at, length) != Err(StillWaiting)
    ensures Take(t, at, length) == Take(s, at, length)
  {
    SameBytes(t, s, at, length);
  }

  lemma SameI32(t: Source, s: Source, at: nat)
    requires GoesOn(t, s) && TakeI32(s, at) != Err(StillWaiting)
    ensures TakeI32(t, at) == TakeI32(s, at)
  {
    SameBytes(t, s, at, 4);
  }

  lemma SameString(t: Source, s: Source, at: nat)
    requires GoesOn(t, s) && TakeString(s, at) != Err(StillWaiting)
    ensures TakeString(t, at) == TakeString(s, at)
  {
    hide TakeI32, Take;
    SameI32(t, s, at);
    var length := TakeI32(s, at);
    if length.Ok? && 0 < length.value.value <= MAX_STRING {
      SameTake(t, s, length.value.end, length.value.value);
    }
  }

  lemma SameTypeTags(t: Source, s: Source, at: nat)
    requires GoesOn(t, s) && TakeTypeTags(s, at) != Err(StillWaiting)
    ensures TakeTypeTags(t, at) == TakeTypeTags(s, at)
  {
  }

  lemma SameEnd(t: Source, s: Source, at: nat)
    requires GoesOn(t, s) && TakeEnd(s, at) != Err(StillWaiting)
    ensures TakeEnd(t, at) == TakeEnd(s, at)
  {
  }

  lemma SameType(t: Source, s: Source, at: nat)
    requires GoesOn(t, s) && TakeType(s, at) != Err(StillWaiting)
    ensures TakeType(t, at) == TakeType(s, at)
  {
    hide TakeTypeTags, TakeI32, TakeString, TakeEnd, GoesOn;
    SameTypeTags(t, s, at);
    if TakeTypeTags(s, at).Ok? {
      SameI32(t, s, at + 2);
      if TakeI32(s, at + 2).Ok? {
        SameI32(t, s, at + 6);
        if TakeI32(s, at + 6).Ok? {
          SameString(t, s, at + 10);
          if TakeString(s, at + 10).Ok? {
            SameEnd(t, s, TakeString(s, at + 10).value.end);
          }
        }
      }
    }
  }

  lemma SameBlock(t: Source, s: Source, at: nat)
    requires GoesOn(t, s) && TakeBlock(s, at) != Err(StillWaiting)
    ensures TakeBlock(t, at) == TakeBlock(s, at)
  {
    hide TakeI32, Take, GoesOn, Padding;
    SameI32(t, s, at);
    var size := TakeI32(s, at);
    if size.Ok? && 0 < size.value.value <= MAX_BLOCK {
      var padding := Padding(size.value.end);
      SameTake(t, s, size.value.end, padding);
      if Take(s, size.value.end, padding).Ok? {
        SameTake(t, s, Take(s, size.value.end, padding).value.end, size.value.value);
      }
    }
  }

  lemma SameContent(t: Source, s: Source, at: nat, k: Type)
    requires GoesOn(t, s) && TakeContent(s, at, k) != Err(StillWaiting)
    ensures TakeContent(t, at, k) == TakeContent(s, at, k)
  {
    hide Take, TakeBlock, GoesOn, TraceName;
    if k.name == TraceName() {
      SameTake(t, s, at, TraceSize(k.version));
    } else {
      SameBlock(t, s, at);
    }
  }

  lemma SameObject(t: Source, s: Source, at: nat)
    requires GoesOn(t, s) && TakeObject(s, at) != Err(StillWaiting)
    ensures TakeObject(t, at) == TakeObject(s, at)
  {
    hide TakeType, TakeContent, GoesOn;
    SameType(t, s, at);
    if TakeType(s, at).Ok? {
      SameContent(t, s, TakeType(s, at).value.end, TakeType(s, at).value.value);
    }
  }

  lemma SameOuter(t: Source, s: Source, at: nat)
    requires GoesOn(t, s) && TakeOuter(s, at) != Err(StillWaiting)
    ensures TakeOuter(t, at) == TakeOuter(s, at)
  {
  }

  lemma {:induction false} SameRun(t: Source, s: Source, evaluate: seq<Block> -> Verdict, at: nat, blocks: seq<Block>)
    requires GoesOn(t, s) && Run(s, evaluate, at, blocks).outcome != Err(StillWaiting)
    ensures Run(t, evaluate, at, blocks) == Run(s, evaluate, at, blocks)
    decreases |s.data| - at
  {
    hide TakeOuter, TakeObject, TakeEnd, GoesOn, JudgeContent;
    SameOuter(t, s, at);
    if TakeOuter(s, at) == Ok(true) {
      SameObject(t, s, at + 1);
      var content := TakeObject(s, at + 1);
      if content.Ok? {
        var handed := Handed(blocks, content.value.value);
        if JudgeContent(handed, content.value.value, evaluate) == Ok(false) {
          SameEnd(t, s, content.value.end);
          if TakeEnd(s, content.value.end).Ok? {
            SameRun(t, s, evaluate, TakeEnd(s, content.value.end).value, handed);
          }
        }
      }
    }
  }

  lemma SameOpening(t: Source, s: Source)
    requires GoesOn(t, s) && TakeOpening(s) != Err(StillWaiting)
    ensures TakeOpening(t) == TakeOpening(s)
  {
    hide Take, TakeString, GoesOn, Magic, Serialization;
    SameTake(t, s, 0, 8);
    if Take(s, 0, 8).Ok? && Take(s, 0, 8).value.value == Magic() {
      SameString(t, s, 8);
    }
  }

  lemma SameSession(t: Source, s: Source, evaluate: seq<Block> -> Verdict)
    requires GoesOn(t, s) && Monitored(s, evaluate).outcome != Err(StillWaiting)
    ensures Monitored(t, evaluate) == Monitored(s, evaluate)
  {
    hide TakeOpening, GoesOn, Run;
    SameOpening(t, s);
    if TakeOpening(s).Ok? {
      SameRun(t, s, evaluate, TakeOpening(s).value, []);
    }
  }

  // ----- other streams end

  lemma {:induction false} RunEnds(s: Source, evaluate: seq<Block> -> Verdict, at: nat, blocks: seq<Block>)
    requires s.ending != Cancelled
    ensures Run(s, evaluate, at, blocks).outcome != Err(StillWaiting)
    decreases |s.data| - at
  {
    hide TakeObject, Judge;
    ObjectEnds(s, at + 1);
    var content := TakeObject(s, at + 1);
    if TakeOuter(s, at) == Ok(true) && content.Ok? {
      var handed := Handed(blocks, content.value.value);
      if content.value.value.Some? {
        JudgeEnds(handed, evaluate);
      }
      if JudgeContent(handed, content.value.value, evaluate) == Ok(false) && TakeEnd(s, content.value.end).Ok? {
        RunEnds(s, evaluate, TakeEnd(s, content.value.end).value, handed);
      }
    }
  }

  lemma JudgeEnds(blocks: seq<Block>, evaluate: seq<Block> -> Verdict)
    requires blocks != []
    ensures Judge(blocks, evaluate) != Err(StillWaiting)
  {
  }

  lemma ObjectEnds(s: Source, at: nat)
    requires s.ending != Cancelled
    ensures TakeObject(s, at) != Err(StillWaiting)
  {
    hide TakeType, TakeContent;
    TypeEnds(s, at);
    if TakeType(s, at).Ok? {
      ContentEnds(s, TakeType(s, at).value.end, TakeType(s, at).value.value);
    }
  }

  lemma TypeEnds(s: Source, at: nat)
    requires s.ending != Cancelled
    ensures TakeType(s, at) != Err(StillWaiting)
  {
    hide U32At, Signed;
  }

  lemma ContentEnds(s: Source, at: nat, k: Type)
    requires s.ending != Cancelled
    ensures TakeContent(s, at, k) != Err(StillWaiting)
  {
    hide U32At, Signed, TraceName, Padding;
  }

  lemma SessionEnds(s: Source, evaluate: seq<Block> -> Verdict)
    requires s.ending != Cancelled
    ensures Monitored(s, evaluate).outcome != Err(StillWaiting)
  {
    hide U32At, Signed, Magic, Serialization, Run;
    if TakeOpening(s).Ok? {
      RunEnds(s, evaluate, TakeOpening(s).value, []);
    }
  }

  // ----- after a request to quit

  /** A monitor asked to quit ends exactly when the bytes it had read by then decide how: when no way in which the
      stream could have gone on would have made a difference. Otherwise it reads for ever, however often a read is
      tried again. */
  lemma EndsIffDecided(s: Source, evaluate: seq<Block> -> Verdict)
    requires s.ending == Cancelled
    ensures Monitored(s, evaluate).outcome != Err(StillWaiting) <==>
            forall t: Source :: GoesOn(t, s) ==> Monitored(t, evaluate) == Monitored(s, evaluate)
  {
    hide Monitored;
    if Monitored(s, evaluate).outcome != Err(StillWaiting) {
      forall t: Source | GoesOn(t, s) ensures Monitored(t, evaluate) == Monitored(s, evaluate) {
        SameSession(t, s, evaluate);
      }
    } else {
      var closed := s.(ending := Closed);
      assert GoesOn(closed, s);
      SessionEnds(closed, evaluate);
    }
  }

  /** In particular a monitor asked to quit between two objects never ends. */
  lemma IdleNeverEnds(objects: seq<Object>, s: Source, evaluate: seq<Block> -> Verdict)
    requires s.ending == Cancelled && s.utf8(Serialization())
    requires AllValid(objects, 32, s.utf8) && Continues(objects, evaluate, [])
    requires s.data == EncodeStream(objects, [], s.utf8)
    ensures Monitored(s, evaluate) == Session(Err(StillWaiting), HandedAll(objects, []))
  {
    hide At, Then, TakeOpening, Encoded, AllValid, Continues, HandedAll, AfterAll, Expected;
    Whole(s.data);
    Joined(s.data, 0, EncodeOpening(), Encoded(objects, 32, [], s.utf8));
    OpensExactly(s);
    ReadsObjects(objects, [], s, evaluate, 32, []);
  }

  // ----- which bytes leave a monitor waiting

  /** An object's type is cut short at the field that is read next, all fields before it being as they should. */
  predicate TypeCut(s: Source, at: nat) {
    || at + 2 > |s.data|
    || (TakeTypeTags(s, at).Ok? &&
        (|| at + 14 > |s.data|
         || NameCut(s, at + 14, Signed(U32At(s.data, at + 10)))))
  }

  predicate NameCut(s: Source, at: nat, length: int)
    requires at <= |s.data|
  {
    0 < length <= MAX_STRING &&
    (at + length > |s.data| || (s.utf8(s.data[at..at + length]) && at + length == |s.data|))
  }

  /** An object's content is cut short: the header of a trace, or a block, its size, or its padding. */
  predicate ContentCut(s: Source, at: nat, t: Type) {
    if t.name == TraceName() then at + TraceSize(t.version) > |s.data|
    else
      || at + 4 > |s.data|
      || (var size := Signed(U32At(s.data, at));
          0 < size <= MAX_BLOCK && at + 4 + Padding(at + 4) + size > |s.data|)
  }

  /** What stands at `at` is not a whole object, or one whose end tag is missing. */
  predicate ObjectCut(s: Source, evaluate: seq<Block> -> Verdict, at: nat, blocks: seq<Block>) {
    || at >= |s.data|
    || (s.data[at] == BEGIN_OBJECT &&
        (|| TypeCut(s, at + 1)
         || (var t := TakeType(s, at + 1);
             t.Ok? &&
             (|| ContentCut(s, t.value.end, t.value.value)
              || (var content := TakeContent(s, t.value.end, t.value.value);
                  && content.Ok? && content.value.end == |s.data|
                  && JudgeContent(Handed(blocks, content.value.value), content.value.value, evaluate) == Ok(false))))))
  }

  predicate OpeningCut(s: Source) {
    || |s.data| < 8
    || (s.data[..8] == Magic() &&
        (|| |s.data| < 12
         || (var length := Signed(U32At(s.data, 8)); 0 < length <= MAX_STRING && 12 + length > |s.data|)))
  }

  lemma TypeWaitsIff(s: Source, at: nat)
    requires s.ending == Cancelled
    ensures TakeType(s, at) == Err(StillWaiting) <==> TypeCut(s, at)
  {
    hide U32At, Signed;
  }

  lemma ContentWaitsIff(s: Source, at: nat, t: Type)
    requires s.ending == Cancelled
    ensures TakeContent(s, at, t) == Err(StillWaiting) <==> ContentCut(s, at, t)
  {
    hide U32At, Signed, TraceName, Padding;
  }

  lemma OpeningWaitsIff(s: Source)
    requires s.ending == Cancelled
    ensures TakeOpening(s) == Err(StillWaiting) <==> OpeningCut(s)
  {
    hide U32At, Signed, Magic, Serialization;
    if |s.data| >= 8 {
      assert s.data[0..8] == s.data[..8];
    }
  }

  /** The next object leaves the monitor waiting. */
  lemma ObjectWaits(s: Source, evaluate: seq<Block> -> Verdict, at: nat, blocks: seq<Block>)
    requires s.ending == Cancelled && ObjectCut(s, evaluate, at, blocks)
    ensures Run(s, evaluate, at, blocks).outcome == Err(StillWaiting)
  {
    hide TakeType, TakeContent, TypeCut, ContentCut, JudgeContent;
    TypeWaitsIff(s, at + 1);
    var t := TakeType(s, at + 1);
    if t.Ok? {
      ContentWaitsIff(s, t.value.end, t.value.value);
    }
  }

  /** The monitor goes on to the object after the one at `at`. */
  predicate GoesOnAfter(s: Source, evaluate: seq<Block> -> Verdict, at: nat, blocks: seq<Block>) {
    && TakeOuter(s, at) == Ok(true) && TakeObject(s, at + 1).Ok?
    && var got := TakeObject(s, at + 1).value;
    && JudgeContent(Handed(blocks, got.value), got.value, evaluate) == Ok(false) && TakeEnd(s, got.end).Ok?
  }

  lemma WaitsHere(s: Source, evaluate: seq<Block> -> Verdict, at: nat, blocks: seq<Block>)
    requires s.ending == Cancelled && Run(s, evaluate, at, blocks).outcome == Err(StillWaiting)
    requires !GoesOnAfter(s, evaluate, at, blocks)
    ensures ObjectCut(s, evaluate, at, blocks)
  {
    hide TakeType, TakeContent, TypeCut, ContentCut, Judge;
    TypeWaitsIff(s, at + 1);
    var t := TakeType(s, at + 1);
    if t.Ok? {
      ContentWaitsIff(s, t.value.end, t.value.value);
      var content := TakeContent(s, t.value.end, t.value.value);
      if content.Ok? && content.value.value.Some? {
        JudgeEnds(Handed(blocks, content.value.value), evaluate);
      }
    }
  }

  /** Whole objects that do not end the session, and then one that is cut short. */
  ghost predicate WholeThenCut(s: Source, evaluate: seq<Block> -> Verdict, at: nat, blocks: seq<Block>,
                               objects: seq<Object>)
  {
    && AllValid(objects, at, s.utf8) && Continues(objects, evaluate, blocks)
    && At(s.data, at, Encoded(objects, at, [], s.utf8))
    && ObjectCut(s, evaluate, AfterAll(objects, at, s.utf8), HandedAll(objects, blocks))
  }

  lemma {:induction false} WaitsAfter(s: Source, evaluate: seq<Block> -> Verdict, at: nat, blocks: seq<Block>)
    returns (objects: seq<Object>)
    requires s.ending == Cancelled && at <= |s.data| && Run(s, evaluate, at, blocks).outcome == Err(StillWaiting)
    ensures WholeThenCut(s, evaluate, at, blocks, objects)
    decreases |s.data| - at
  {
    hide Then, Valid, EncodeType, EncodeContent, TakeObject, TakeEnd, Content, After, JudgeContent, ObjectCut,
      Judged;
    objects := [];
    if GoesOnAfter(s, evaluate, at, blocks) {
      var o := WroteObject(s, at);
      JudgedSame(o, evaluate, blocks);
      var rest := WaitsAfter(s, evaluate, After(o, at), Handed(blocks, Content(o)));
      WroteEnded(o, s, at, Encoded(rest, After(o, at), [], s.utf8));
      objects := [o] + rest;
      assert objects[1..] == rest;
    } else {
      WaitsHere(s, evaluate, at, blocks);
    }
  }

  /** A monitor asked to quit reads for ever exactly when the bytes it had read by then are a part of the stream's
      opening, or the opening and whole objects, none of which ends the session, and then a part of one. */
  lemma WaitsIffCut(s: Source, evaluate: seq<Block> -> Verdict)
    requires s.ending == Cancelled && s.utf8(Serialization())
    ensures Monitored(s, evaluate).outcome == Err(StillWaiting) <==>
            OpeningCut(s) ||
            (At(s.data, 0, EncodeOpening()) && exists objects :: WholeThenCut(s, evaluate, 32, [], objects))
  {
    hide At, TakeOpening, Run, WholeThenCut, OpeningCut;
    OpensExactly(s);
    OpeningWaitsIff(s);
    if TakeOpening(s).Ok? {
      if Monitored(s, evaluate).outcome == Err(StillWaiting) {
        var objects := WaitsAfter(s, evaluate, 32, []);
      }
      forall objects | WholeThenCut(s, evaluate, 32, [], objects)
        ensures Monitored(s, evaluate).outcome == Err(StillWaiting)
      {
        CutWaits(s, evaluate, objects);
      }
    }
  }

  lemma CutWaits(s: Source, evaluate: seq<Block> -> Verdict, objects: seq<Object>)
    requires s.ending == Cancelled && WholeThenCut(s, evaluate, 32, [], objects)
    ensures Run(s, evaluate, 32, []).outcome == Err(StillWaiting)
  {
    hide At, Encoded, AllValid, Continues, AfterAll, HandedAll, Expected, ObjectCut, Run;
    ReadsObjects(objects, [], s, evaluate, 32, []);
    ObjectWaits(s, evaluate, AfterAll(objects, 32, s.utf8), HandedAll(objects, []));
  }
}
