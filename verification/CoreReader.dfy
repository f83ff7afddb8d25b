/** A reader of core files after the System V gABI, chapters 4 and 5, and what it makes of the writer's files. */
module CoreReader {
  import opened Bytes
  import opened Pieces
  import opened Records
  import opened CoreFile
  import opened CoreWriter

  const PN_XNUM: u16 := 0xffff

  /** A program header and the bytes of the file it covers. */
  datatype Entry = Entry(header: Header, bytes: seq<byte>)

  function HeaderAt(file: seq<byte>, at: nat): Header
    requires at + PROGRAM_HEADER_SIZE <= |file|
  {
    Header(U32At(file, at), U32At(file, at + 4), U64At(file, at + 8), U64At(file, at + 16), U64At(file, at + 32),
           U64At(file, at + 40), U64At(file, at + 48))
  }

  function EntryAt(file: seq<byte>, at: nat): Option<Entry> {
    if at + PROGRAM_HEADER_SIZE > |file| then None
    else
      var h := HeaderAt(file, at);
      if h.offset + h.fileSize > |file| then None
      else Some(Entry(h, file[h.offset..h.offset + h.fileSize]))
  }

  /** `count` program headers from `at` on, `size` bytes apart. */
  function Entries(file: seq<byte>, at: nat, count: nat): Option<seq<Entry>>
    decreases count
  {
    if count == 0 then Some([])
    else
      var first :- EntryAt(file, at);
      var rest :- Entries(file, at + PROGRAM_HEADER_SIZE, count - 1);
      Some([first] + rest)
  }

  /** The number of program headers; a count of `PN_XNUM` refers to section header 0, if there is one. */
  function HeaderCount(file: seq<byte>): Option<nat>
    requires |file| >= ELF_HEADER_SIZE
  {
    var count := U16At(file, 56);
    if count != PN_XNUM then Some(count)
    else
      var sections := U64At(file, 40);
      if sections == 0 || sections + 64 > |file| then None else Some(U32At(file, sections + 44))
  }

  /** A 64-bit little-endian core file for x86-64, with headers of the sizes these have. */
  predicate IsElfCore(file: seq<byte>) {
    && |file| >= ELF_HEADER_SIZE
    && file[0] == 0x7f && file[1] == 69 && file[2] == 76 && file[3] == 70
    && file[4] == 2 && file[5] == 1 && file[6] == 1
    && U16At(file, 16) == 4 && U16At(file, 18) == 62 && U32At(file, 20) == 1
    && U16At(file, 52) == 64 && U16At(file, 54) == 56
  }

  datatype Segment = Segment(start: u64, flags: u32, memorySize: u64, alignment: u64, bytes: seq<byte>)

  datatype Core = Core(notes: seq<seq<byte>>, segments: seq<Segment>)

  /** Entries of kind 4 (`PT_NOTE`) are notes, those of kind 1 (`PT_LOAD`) memory. */
  function Sorted(entries: seq<Entry>): Core {
    if entries == [] then Core([], [])
    else
      var e, rest := entries[0], Sorted(entries[1..]);
      if e.header.kind == 4 then rest.(notes := [e.bytes] + rest.notes)
      else if e.header.kind == 1 then
        rest.(segments := [Segment(e.header.address, e.header.flags, e.header.memorySize, e.header.alignment, e.bytes)]
                          + rest.segments)
      else rest
  }

  function ReadCore(file: seq<byte>): Option<Core> {
    if !IsElfCore(file) then None
    else
      var count :- HeaderCount(file);
      var entries :- Entries(file, U64At(file, 32), count);
      Some(Sorted(entries))
  }

  // ----- the writer's headers, read back

  lemma {:induction false} ReadsProgramHeader(file: seq<byte>, at: nat, h: Header)
    requires At(file, at, ProgramHeader(h))
    ensures at + PROGRAM_HEADER_SIZE <= |file| && HeaderAt(file, at) == h
  {
    hide At, Laid, Fit, Holds, Le32, Le64, U32At, U64At, Zeroes;
    Fits(file, at, ProgramHeader(h));
    var f := ProgramFields(h);
    LaidHolds(file, at, f, 0, PROGRAM_HEADER_SIZE);
    HoldsFirst(file, at, 0, f);
    ReadsWord(file, at, h.kind);
    HoldsFirst(file, at, 4, f.rest);
    ReadsWord(file, at + 4, h.flags);
    f := f.rest.rest;
    HoldsFirst(file, at, 8, f);
    ReadsLong(file, at + 8, h.offset);
    HoldsFirst(file, at, 16, f.rest);
    ReadsLong(file, at + 16, h.address);
    f := f.rest.rest;
    HoldsFirst(file, at, 24, f);
    ReadsLong(file, at + 32, h.fileSize);
    HoldsFirst(file, at, 40, f.rest);
    ReadsLong(file, at + 40, h.memorySize);
    HoldsFirst(file, at, 48, f.rest.rest);
    ReadsLong(file, at + 48, h.alignment);
  }

  lemma ReadsIdent(file: seq<byte>)
    requires At(file, 0, [0x7f, 69, 76, 70]) && At(file, 4, [2]) && At(file, 5, [1]) && At(file, 6, [1])
    ensures |file| >= 7 && file[0] == 0x7f && file[1] == 69 && file[2] == 76 && file[3] == 70
    ensures file[4] == 2 && file[5] == 1 && file[6] == 1
  {
    var magic := file[0..4];
    assert magic[0] == file[0] && magic[1] == file[1] && magic[2] == file[2] && magic[3] == file[3];
    ByteAt(file, 4, 2);
    ByteAt(file, 5, 1);
    ByteAt(file, 6, 1);
  }

  lemma NoSections(file: seq<byte>)
    requires At(file, 40, Zeroes(12))
    ensures |file| >= 52 && U64At(file, 40) == 0
  {
    assert file[40..48] == Zeroes(12)[..8];
    ValueOfZeroes(file[40..48]);
  }

  lemma {:induction false} ValueOfZeroes(s: seq<byte>)
    requires forall i :: 0 <= i < |s| ==> s[i] == 0
    ensures Value(s) == 0
  {
    if s != [] {
      ValueOfZeroes(s[1..]);
    }
  }

  lemma {:induction false} ReadsElfHeader(file: seq<byte>, count: u16)
    requires At(file, 0, ElfHeader(count))
    ensures IsElfCore(file) && U64At(file, 32) == ELF_HEADER_SIZE
    ensures HeaderCount(file) == if count == PN_XNUM then None else Some(count)
  {
    hide At, Laid, Fit, Holds, Le16, Le32, Le64, U16At, U32At, U64At, Zeroes;
    Fits(file, 0, ElfHeader(count));
    var f := ElfFields(count);
    LaidHolds(file, 0, f, 0, ELF_HEADER_SIZE);
    HoldsFirst(file, 0, 0, f);
    HoldsFirst(file, 0, 4, f.rest);
    f := f.rest.rest;
    HoldsFirst(file, 0, 5, f);
    HoldsFirst(file, 0, 6, f.rest);
    ReadsIdent(file);
    f := f.rest.rest;
    HoldsFirst(file, 0, 7, f);
    ReadsHalf(file, 16, ET_CORE);
    HoldsFirst(file, 0, 18, f.rest);
    ReadsHalf(file, 18, EM_X86_64);
    f := f.rest.rest;
    HoldsFirst(file, 0, 20, f);
    ReadsWord(file, 20, 1);
    HoldsFirst(file, 0, 24, f.rest);
    ReadsLong(file, 32, ELF_HEADER_SIZE);
    f := f.rest.rest;
    HoldsFirst(file, 0, 40, f);
    NoSections(file);
    ReadsHalf(file, 52, ELF_HEADER_SIZE);
    HoldsFirst(file, 0, 54, f.rest);
    ReadsHalf(file, 54, PROGRAM_HEADER_SIZE);
    HoldsFirst(file, 0, 56, f.rest.rest);
    ReadsHalf(file, 56, count);
  }

  // ----- the file as a whole

  /** What a reader should find: each dumped mapping in order, with its bytes. */
  function Segments(dumped: seq<Mapping>, pageSize: u64, contents: nat -> byte, gaps: seq<seq<Gap>>): seq<Segment>
    requires |gaps| == |dumped| && forall m :: m in dumped ==> m.start <= m.end
  {
    if dumped == [] then []
    else
      var m := dumped[0];
      var size := m.end - m.start;
      [Segment(m.start, m.flags, size, pageSize, Copy(contents, m.start, size, gaps[0]))]
      + Segments(dumped[1..], pageSize, contents, gaps[1..])
  }

  lemma ReadsLoad(file: seq<byte>, at: nat, m: Mapping, offset: u64, pageSize: u64, bytes: seq<byte>)
    requires m.start <= m.end && |bytes| == m.end - m.start
    requires At(file, at, ProgramHeader(LoadHeader(m, offset, pageSize))) && At(file, offset, bytes)
    ensures EntryAt(file, at) == Some(Entry(LoadHeader(m, offset, pageSize), bytes))
  {
    hide At, ProgramHeader, HeaderAt;
    ReadsProgramHeader(file, at, LoadHeader(m, offset, pageSize));
    Slice(file, offset, bytes);
  }

  lemma {:induction false} ReadsLoads(file: seq<byte>, at: nat, dumped: seq<Mapping>, next: u64, offsets: seq<u64>,
                                      pageSize: u64, contents: nat -> byte, gaps: seq<seq<Gap>>)
    requires LoadOffsets(dumped, next) == Ok(offsets) && |offsets| == |dumped| == |gaps|
    requires forall m :: m in dumped ==> m.start <= m.end
    requires At(file, at, LoadHeaders(dumped, offsets, pageSize)) && At(file, next, Bodies(contents, dumped, gaps))
    ensures Entries(file, at, |dumped|).Some?
    ensures Sorted(Entries(file, at, |dumped|).value) == Core([], Segments(dumped, pageSize, contents, gaps))
    decreases |dumped|
  {
    hide At, Then, Copy, ProgramHeader, EntryAt;
    if dumped != [] {
      var m, size := dumped[0], dumped[0].end - dumped[0].start;
      assert offsets[0] == next && LoadOffsets(dumped[1..], next + size) == Ok(offsets[1..]);
      var body := Copy(contents, m.start, size, gaps[0]);
      Joined(file, at, ProgramHeader(LoadHeader(m, next, pageSize)), LoadHeaders(dumped[1..], offsets[1..], pageSize));
      Joined(file, next, body, Bodies(contents, dumped[1..], gaps[1..]));
      ReadsLoad(file, at, m, next, pageSize, body);
      ReadsLoads(file, at + PROGRAM_HEADER_SIZE, dumped[1..], next + size, offsets[1..], pageSize, contents, gaps[1..]);
      var rest := Entries(file, at + PROGRAM_HEADER_SIZE, |dumped| - 1).value;
      assert ([Entry(LoadHeader(m, next, pageSize), body)] + rest)[1..] == rest;
    }
  }

  /** Where the parts of a core file stand. */
  lemma Parts(file: seq<byte>, mappings: seq<Mapping>, pageSize: u64, notes: seq<byte>, contents: nat -> byte,
              gaps: seq<seq<Gap>>)
    requires IsCore(file, mappings, pageSize, notes, contents, gaps)
    ensures var layout := Plan(mappings, pageSize, |notes|).value;
      && At(file, 0, ElfHeader(|layout.dumped| + 1))
      && At(file, 64, ProgramHeader(NoteHeader(layout, |notes|)))
      && At(file, 120, LoadHeaders(layout.dumped, layout.offsets, pageSize))
      && At(file, layout.noteOffset, notes)
      && At(file, layout.firstLoad, Bodies(contents, layout.dumped, gaps))
      && layout.firstLoad + |Bodies(contents, layout.dumped, gaps)| == |file|
  {
    hide At, Then, AlignPage, LoadOffsets, Dumped, ElfHeader, ProgramHeader, LoadHeaders, Bodies, Zeroes;
    var layout := Plan(mappings, pageSize, |notes|).value;
    PlanFacts(mappings, pageSize, |notes|);
    var s4 := Then(notes, Zeroes(layout.firstLoad - layout.noteOffset - |notes|));
    var s3 := Then(LoadHeaders(layout.dumped, layout.offsets, pageSize), s4);
    var s2 := Then(ProgramHeader(NoteHeader(layout, |notes|)), s3);
    var bodies := Bodies(contents, layout.dumped, gaps);
    Whole(file);
    Joined(file, 0, Prefix(layout, pageSize, notes), bodies);
    Joined(file, 0, ElfHeader(|layout.dumped| + 1), s2);
    Joined(file, 64, ProgramHeader(NoteHeader(layout, |notes|)), s3);
    Joined(file, 120, LoadHeaders(layout.dumped, layout.offsets, pageSize), s4);
    Joined(file, layout.noteOffset, notes, Zeroes(layout.firstLoad - layout.noteOffset - |notes|));
  }

  lemma ReadsNote(file: seq<byte>, layout: Layout, notes: seq<byte>)
    requires |notes| < U64_LIMIT
    requires At(file, 64, ProgramHeader(NoteHeader(layout, |notes|))) && At(file, layout.noteOffset, notes)
    ensures EntryAt(file, 64) == Some(Entry(NoteHeader(layout, |notes|), notes))
  {
    hide At, ProgramHeader, HeaderAt;
    ReadsProgramHeader(file, 64, NoteHeader(layout, |notes|));
    Slice(file, layout.noteOffset, notes);
  }

  lemma SortedNote(note: Entry, rest: seq<Entry>)
    requires note.header.kind == PT_NOTE
    ensures Sorted([note] + rest) == Sorted(rest).(notes := [note.bytes] + Sorted(rest).notes)
  {
    assert ([note] + rest)[1..] == rest;
  }

  /** A reader finds exactly the notes and the dumped mappings, in order, with their flags, sizes and bytes,
      unless the number of headers is the marker that stands for a larger one. */
  lemma ReadsBack(file: seq<byte>, mappings: seq<Mapping>, pageSize: u64, notes: seq<byte>, contents: nat -> byte,
                  gaps: seq<seq<Gap>>)
    requires IsCore(file, mappings, pageSize, notes, contents, gaps)
    ensures var dumped := Dumped(mappings);
      && |gaps| == |dumped| && (forall m :: m in dumped ==> m.start <= m.end)
      && ReadCore(file) == if |dumped| + 1 == 0xffff then None
                           else Some(Core([notes], Segments(dumped, pageSize, contents, gaps)))
  {
    hide At, ElfHeader, ProgramHeader, LoadHeaders, LoadOffsets, Bodies, Dumped, AlignPage, IsElfCore, EntryAt, Sorted;
    hide HeaderCount;
    var layout := Plan(mappings, pageSize, |notes|).value;
    Parts(file, mappings, pageSize, notes, contents, gaps);
    ReadsElfHeader(file, |layout.dumped| + 1);
    ReadsNote(file, layout, notes);
    ReadsLoads(file, 120, layout.dumped, layout.firstLoad, layout.offsets, pageSize, contents, gaps);
    var note := Entry(NoteHeader(layout, |notes|), notes);
    var rest := Entries(file, 120, |layout.dumped|).value;
    assert Entries(file, 64, |layout.dumped| + 1) == Some([note] + rest);
    SortedNote(note, rest);
    assert [notes] + [] == [notes];
  }

  // ----- segment by segment

  /** The segment of one mapping: its start, flags and size, and byte by byte its memory, or zero where no byte could be
      read. */
  ghost predicate Shows(g: Segment, m: Mapping, pageSize: u64, contents: nat -> byte, gaps: seq<Gap>) {
    && g.start == m.start && g.flags == m.flags && g.alignment == pageSize
    && m.start <= m.end && g.memorySize == m.end - m.start == |g.bytes|
    && forall j :: 0 <= j < |g.bytes| ==>
         g.bytes[j] == if Missing(gaps, m.start + j) then 0 else contents(m.start + j)
  }

  lemma {:induction false} SegmentsShow(dumped: seq<Mapping>, pageSize: u64, contents: nat -> byte,
                                        gaps: seq<seq<Gap>>)
    requires |gaps| == |dumped| && forall m :: m in dumped ==> m.start <= m.end
    ensures var segments := Segments(dumped, pageSize, contents, gaps);
      && |segments| == |dumped|
      && forall k :: 0 <= k < |dumped| ==> Shows(segments[k], dumped[k], pageSize, contents, gaps[k])
    decreases |dumped|
  {
    if dumped != [] {
      SegmentsShow(dumped[1..], pageSize, contents, gaps[1..]);
      var segments := Segments(dumped, pageSize, contents, gaps);
      var rest := Segments(dumped[1..], pageSize, contents, gaps[1..]);
      assert Shows(segments[0], dumped[0], pageSize, contents, gaps[0]);
      forall k | 0 <= k < |dumped| ensures Shows(segments[k], dumped[k], pageSize, contents, gaps[k]) {
        if k > 0 {
          assert segments[k] == rest[k - 1] && dumped[k] == dumped[1..][k - 1] && gaps[k] == gaps[1..][k - 1];
        }
      }
    }
  }

  /** A reader finds one segment for each mapping that is to be dumped, in order and no other, each showing its memory;
      and the notes. */
  lemma ReadsEachMapping(file: seq<byte>, mappings: seq<Mapping>, pageSize: u64, notes: seq<byte>,
                         contents: nat -> byte, gaps: seq<seq<Gap>>) returns (picked: seq<nat>)
    requires IsCore(file, mappings, pageSize, notes, contents, gaps)
    ensures DumpedAt(mappings, picked) && |gaps| == |picked| < 0xffff
    ensures if |picked| == 0xfffe then ReadCore(file) == None
            else
              && ReadCore(file).Some? && ReadCore(file).value.notes == [notes]
              && var segments := ReadCore(file).value.segments;
              && |segments| == |picked|
              && forall k :: 0 <= k < |picked| ==>
                   Shows(segments[k], mappings[picked[k]], pageSize, contents, gaps[k])
  {
    hide ReadCore, Shows, Segments, DumpedAt;
    picked := DumpedPicks(mappings);
    ReadsBack(file, mappings, pageSize, notes, contents, gaps);
    SegmentsShow(Dumped(mappings), pageSize, contents, gaps);
  }

  /** The note segment's header: kind 4, at its place in the file, with no address, and aligned to four. */
  lemma ReadsNoteHeader(file: seq<byte>, mappings: seq<Mapping>, pageSize: u64, notes: seq<byte>,
                        contents: nat -> byte, gaps: seq<seq<Gap>>)
    requires IsCore(file, mappings, pageSize, notes, contents, gaps)
    ensures var headers := 1 + |Dumped(mappings)|;
      EntryAt(file, 64) == Some(Entry(Header(4, 0, 64 + 56 * headers, 0, |notes|, 0, 4), notes))
  {
    hide At, ElfHeader, ProgramHeader, LoadHeaders, LoadOffsets, Bodies, Dumped, AlignPage, EntryAt, HeaderAt;
    var layout := Plan(mappings, pageSize, |notes|).value;
    Parts(file, mappings, pageSize, notes, contents, gaps);
    ReadsNote(file, layout, notes);
  }

  // ----- a core file that cannot be read

  /** Neighbouring mappings of one page each. */
  function Pages(n: nat, at: nat): seq<Mapping>
    requires at + n * 4096 < U64_LIMIT
  {
    if n == 0 then []
    else [Mapping(at, at + 4096, 4, 0, false, false, true, [])] + Pages(n - 1, at + 4096)
  }

  lemma {:induction false} PagesDumped(n: nat, at: nat)
    requires at + n * 4096 < U64_LIMIT
    ensures |Pages(n, at)| == n && Dumped(Pages(n, at)) == Pages(n, at)
  {
    if n > 0 {
      PagesDumped(n - 1, at + 4096);
      var m := Mapping(at, at + 4096, 4, 0, false, false, true, []);
      assert ([m] + Pages(n - 1, at + 4096))[1..] == Pages(n - 1, at + 4096);
    }
  }

  lemma {:induction false} PagesFit(n: nat, at: nat, next: u64)
    requires at + n * 4096 < U64_LIMIT && next + n * 4096 < U64_LIMIT
    ensures LoadOffsets(Pages(n, at), next).Ok?
  {
    if n > 0 {
      PagesFit(n - 1, at + 4096, next + 4096);
      var m := Mapping(at, at + 4096, 4, 0, false, false, true, []);
      assert ([m] + Pages(n - 1, at + 4096))[1..] == Pages(n - 1, at + 4096);
    }
  }

  lemma PagesPlan(n: nat, noteSize: nat)
    requires n < 0xffff && noteSize < U32_LIMIT
    ensures Plan(Pages(n, 4096), 4096, noteSize).Ok? && |Dumped(Pages(n, 4096))| == n
  {
    hide LoadOffsets, Pages, Dumped, AlignPage;
    PagesDumped(n, 4096);
    var after := ELF_HEADER_SIZE + PROGRAM_HEADER_SIZE * (n + 1) + noteSize;
    assert AlignPage(after, 4096).Ok?;
    PagesFit(n, 4096, AlignPage(after, 4096).value);
  }

  /** A process of 65534 one-page mappings: its core file is written, and no reader accepts it. */
  lemma MarkerUnreadable(notes: seq<byte>, contents: nat -> byte)
    returns (mappings: seq<Mapping>, file: seq<byte>, gaps: seq<seq<Gap>>)
    requires |notes| < U32_LIMIT
    ensures |Dumped(mappings)| == 0xfffe
    ensures IsCore(file, mappings, 4096, notes, contents, gaps) && ReadCore(file) == None
  {
    hide Plan, Prefix, Bodies, ReadCore, Pages, Dumped, Then;
    mappings := Pages(0xfffe, 4096);
    PagesPlan(0xfffe, |notes|);
    PlanFacts(mappings, 4096, |notes|);
    SameDumped(mappings, 4096, |notes|);
    var layout := Plan(mappings, 4096, |notes|).value;
    gaps := seq(|layout.dumped|, _ => []);
    file := Then(Prefix(layout, 4096, notes), Bodies(contents, layout.dumped, gaps));
    ReadsBack(file, mappings, 4096, notes, contents, gaps);
  }

  lemma SameDumped(mappings: seq<Mapping>, pageSize: u64, noteSize: nat)
    requires Plan(mappings, pageSize, noteSize).Ok?
    ensures Plan(mappings, pageSize, noteSize).value.dumped == Dumped(mappings)
  {
  }

  // ----- where the segments lie

  lemma {:induction false} BodyAt(file: seq<byte>, dumped: seq<Mapping>, next: u64, offsets: seq<u64>,
                                  contents: nat -> byte, gaps: seq<seq<Gap>>, i: nat)
    requires LoadOffsets(dumped, next) == Ok(offsets) && |offsets| == |dumped| == |gaps| && i < |dumped|
    requires forall m :: m in dumped ==> m.start <= m.end
    requires At(file, next, Bodies(contents, dumped, gaps))
    ensures dumped[i].start <= dumped[i].end
    ensures At(file, offsets[i], Copy(contents, dumped[i].start, dumped[i].end - dumped[i].start, gaps[i]))
    decreases i
  {
    hide At, Then, Copy;
    var size := dumped[0].end - dumped[0].start;
    Joined(file, next, Copy(contents, dumped[0].start, size, gaps[0]), Bodies(contents, dumped[1..], gaps[1..]));
    assert offsets[0] == next;
    if i > 0 {
      assert LoadOffsets(dumped[1..], next + size) == Ok(offsets[1..]);
      BodyAt(file, dumped[1..], next + size, offsets[1..], contents, gaps[1..], i - 1);
    }
  }

  /** The `i`-th range holds its mapping's bytes, begins after the notes, and ends before every later range. */
  ghost predicate Placed(file: seq<byte>, layout: Layout, noteSize: nat, contents: nat -> byte, gaps: seq<seq<Gap>>,
                         i: nat)
    requires i < |layout.dumped| == |layout.offsets| == |gaps|
  {
    var m, offset := layout.dumped[i], layout.offsets[i];
    && layout.noteOffset + noteSize <= offset
    && m.start <= m.end && At(file, offset, Copy(contents, m.start, m.end - m.start, gaps[i]))
    && forall j :: i < j < |layout.offsets| ==> offset + (m.end - m.start) <= layout.offsets[j]
  }

  /** Each load header's range starts where that mapping's bytes were written, lies inside the file after the
      notes, and ends before the next range begins. */
  lemma LoadsWhereWritten(file: seq<byte>, mappings: seq<Mapping>, pageSize: u64, notes: seq<byte>,
                          contents: nat -> byte, gaps: seq<seq<Gap>>, layout: Layout, i: nat)
    requires IsCore(file, mappings, pageSize, notes, contents, gaps)
    requires Plan(mappings, pageSize, |notes|) == Ok(layout) && i < |layout.dumped|
    ensures |layout.offsets| == |layout.dumped| == |gaps| && Placed(file, layout, |notes|, contents, gaps, i)
  {
    hide At, ElfHeader, ProgramHeader, LoadHeaders, LoadOffsets, Bodies, Dumped, AlignPage, Copy;
    PlanFacts(mappings, pageSize, |notes|);
    Parts(file, mappings, pageSize, notes, contents, gaps);
    BodyAt(file, layout.dumped, layout.firstLoad, layout.offsets, contents, gaps, i);
    forall j | i < j < |layout.offsets|
      ensures layout.offsets[i] + (layout.dumped[i].end - layout.dumped[i].start) <= layout.offsets[j]
    {
      OffsetsAscend(layout.dumped, layout.offsets, layout.firstLoad, i, j);
    }
    if i > 0 {
      OffsetsAscend(layout.dumped, layout.offsets, layout.firstLoad, 0, i);
    }
  }

  /** The `i`-th segment can be mapped at its address by whole pages. */
  predicate Congruent(layout: Layout, pageSize: u64, i: nat)
    requires pageSize > 0 && i < |layout.dumped| == |layout.offsets|
  {
    layout.offsets[i] % pageSize == layout.dumped[i].start % pageSize
  }

  /** The first mapping starts on a page boundary, and each other one as far into a page as the last one ended. */
  predicate PagesMeet(dumped: seq<Mapping>, pageSize: u64)
    requires pageSize > 0
  {
    && (dumped != [] ==> dumped[0].start % pageSize == 0)
    && forall i :: 0 < i < |dumped| ==> dumped[i].start % pageSize == dumped[i - 1].end % pageSize
  }

  lemma NextCongruent(layout: Layout, pageSize: u64, i: nat)
    requires Consecutive(layout.dumped, layout.offsets, layout.firstLoad) && pageSize > 0
    requires i + 1 < |layout.dumped| && Congruent(layout, pageSize, i)
    ensures layout.offsets[i + 1] % pageSize == layout.dumped[i].end % pageSize
  {
    var m := layout.dumped[i];
    Shifted(layout.offsets[i], m.start, m.end - m.start, pageSize);
  }

  lemma {:induction false} MeetingIsCongruent(layout: Layout, pageSize: u64, i: nat)
    requires pageSize > 0 && layout.firstLoad % pageSize == 0
    requires Consecutive(layout.dumped, layout.offsets, layout.firstLoad)
    requires PagesMeet(layout.dumped, pageSize) && i < |layout.dumped|
    ensures Congruent(layout, pageSize, i)
  {
    if i > 0 {
      MeetingIsCongruent(layout, pageSize, i - 1);
      NextCongruent(layout, pageSize, i - 1);
    }
  }

  /** File offsets agree with addresses modulo the page size exactly when the dumped mappings fit together page
      by page. */
  lemma CongruentIffPagesMeet(mappings: seq<Mapping>, pageSize: u64, noteSize: nat)
    requires Plan(mappings, pageSize, noteSize).Ok?
    ensures pageSize > 0
    ensures var layout := Plan(mappings, pageSize, noteSize).value;
      (forall i :: 0 <= i < |layout.dumped| ==> Congruent(layout, pageSize, i)) <==> PagesMeet(layout.dumped, pageSize)
  {
    hide AlignPage, LoadOffsets, Dumped, Congruent;
    var layout := Plan(mappings, pageSize, noteSize).value;
    PlanFacts(mappings, pageSize, noteSize);
    if PagesMeet(layout.dumped, pageSize) {
      forall i | 0 <= i < |layout.dumped| ensures Congruent(layout, pageSize, i) {
        MeetingIsCongruent(layout, pageSize, i);
      }
    }
    if forall i :: 0 <= i < |layout.dumped| ==> Congruent(layout, pageSize, i) {
      CongruentMeet(layout, pageSize);
    }
  }

  lemma CongruentMeet(layout: Layout, pageSize: u64)
    requires pageSize > 0 && layout.firstLoad % pageSize == 0
    requires Consecutive(layout.dumped, layout.offsets, layout.firstLoad)
    requires forall i :: 0 <= i < |layout.dumped| ==> Congruent(layout, pageSize, i)
    ensures PagesMeet(layout.dumped, pageSize)
  {
    assert layout.dumped != [] ==> Congruent(layout, pageSize, 0);
    forall i | 0 < i < |layout.dumped|
      ensures layout.dumped[i].start % pageSize == layout.dumped[i - 1].end % pageSize
    {
      NextCongruent(layout, pageSize, i - 1);
      assert Congruent(layout, pageSize, i);
    }
  }

  /** So whatever is dumped of a process can be mapped by whole pages, as all its mappings begin and end on page
      boundaries. */
  lemma AlignedLoadsCongruent(mappings: seq<Mapping>, pageSize: u64, noteSize: nat)
    requires Plan(mappings, pageSize, noteSize).Ok?
    requires forall m :: m in Dumped(mappings) ==> m.start % pageSize == 0 && m.end % pageSize == 0
    ensures var layout := Plan(mappings, pageSize, noteSize).value;
      forall i :: 0 <= i < |layout.dumped| ==> Congruent(layout, pageSize, i)
  {
    hide AlignPage, LoadOffsets, Dumped, Congruent;
    var dumped := Dumped(mappings);
    CongruentIffPagesMeet(mappings, pageSize, noteSize);
    forall i | 0 <= i < |dumped| ensures dumped[i].start % pageSize == 0 && dumped[i].end % pageSize == 0 {
      assert dumped[i] in dumped;
    }
  }
}
