/** The layout of a core file, and its headers. */
module CoreFile {
  import opened Bytes
  import opened Pieces
  import opened Records
  import opened Sequences

  const ELF_HEADER_SIZE: nat := 64
  const PROGRAM_HEADER_SIZE: nat := 56
  const PT_LOAD: u32 := 1
  const PT_NOTE: u32 := 4
  const ET_CORE: u16 := 4
  const EM_X86_64: u16 := 62

  datatype Mapping = Mapping(start: u64, end: u64, flags: u32, offset: u64, shared: bool, fileBacked: bool,
                             shouldDump: bool, path: seq<byte>)

  datatype Error =
    | TooManyHeaders
    | NoteSizeOverflow
    | ZeroPageSize
    | AlignmentOverflow
    | InvalidMapping(start: u64, end: u64)
    | LoadOffsetOverflow
    | CannotOpen
    | CannotRead(start: u64, end: u64)
    | CannotWrite
    | CannotFlush
    | Cancelled

  // ----- layout

  function Dumped(mappings: seq<Mapping>): (d: seq<Mapping>)
    ensures |d| <= |mappings|
  {
    if mappings == [] then []
    else (if mappings[0].shouldDump then [mappings[0]] else []) + Dumped(mappings[1..])
  }

  predicate ToBeDumped(m: Mapping) {
    m.shouldDump
  }

  lemma {:induction false} DumpedSelected(mappings: seq<Mapping>)
    ensures Dumped(mappings) == Selected(mappings, ToBeDumped)
  {
    if mappings != [] {
      DumpedSelected(mappings[1..]);
    }
  }

  /** These are, in order, the positions of the mappings that are to be dumped. */
  ghost predicate DumpedAt(mappings: seq<Mapping>, picked: seq<nat>) {
    && (forall k :: 0 <= k < |picked| ==> picked[k] < |mappings|)
    && (forall j, k :: 0 <= j < k < |picked| ==> picked[j] < picked[k])
    && (forall i: nat :: i < |mappings| ==> (mappings[i].shouldDump <==> i in picked))
  }

  /** Exactly the mappings to be dumped are dumped, in order. */
  lemma DumpedPicks(mappings: seq<Mapping>) returns (picked: seq<nat>)
    ensures DumpedAt(mappings, picked) && |Dumped(mappings)| == |picked|
    ensures forall k :: 0 <= k < |picked| ==> picked[k] < |mappings| && Dumped(mappings)[k] == mappings[picked[k]]
  {
    hide Dumped;
    DumpedSelected(mappings);
    picked := SelectedPicks(mappings, ToBeDumped);
  }

  function MappingSize(m: Mapping): (r: Result<u64, Error>)
    ensures r.Ok? ==> m.start + r.value == m.end
  {
    if m.start <= m.end then Ok(m.end - m.start) else Err(InvalidMapping(m.start, m.end))
  }

  /** The next multiple of the page size. */
  function AlignPage(value: u64, pageSize: u64): (r: Result<u64, Error>)
    ensures r.Ok? ==> pageSize > 0 && value <= r.value < value + pageSize && r.value % pageSize == 0
    ensures r.Err? <==> pageSize == 0 || value + pageSize > U64_LIMIT
  {
    if pageSize == 0 then Err(ZeroPageSize)
    else if value + (pageSize - 1) >= U64_LIMIT then Err(AlignmentOverflow)
    else
      RoundsUp(value, pageSize);
      Ok((value + (pageSize - 1)) / pageSize * pageSize)
  }

  lemma RoundsUp(value: nat, page: nat)
    requires page > 0
    ensures var up := (value + (page - 1)) / page * page; value <= up < value + page && up % page == 0
  {
    var q := (value + (page - 1)) / page;
    assert (value + (page - 1)) % page + q * page == value + (page - 1);
    MultipleMod(q, page);
  }

  lemma MultipleMod(q: nat, page: nat)
    requires page > 0
    ensures q * page % page == 0
  {
    Remainder(q * page, q, 0, page);
  }

  lemma Remainder(n: nat, q: nat, r: nat, page: nat)
    requires page > 0 && n == q * page + r && r < page
    ensures n % page == r
  {
    var d, m := n / page, n % page;
    assert d * page + m == n;
    if d < q {
      AtLeast(d + 1, q, page);
    } else if d > q {
      AtLeast(q + 1, d, page);
    }
  }

  /** Adding the same to two numbers keeps them congruent. */
  lemma Shifted(a: nat, b: nat, c: nat, page: nat)
    requires page > 0 && a % page == b % page
    ensures (a + c) % page == (b + c) % page
  {
    SameRemainder(a, c, page);
    SameRemainder(b, c, page);
  }

  lemma SameRemainder(a: nat, c: nat, page: nat)
    requires page > 0
    ensures (a + c) % page == (a % page + c) % page
  {
    var q, r := a / page, a % page;
    var d, m := (r + c) / page, (r + c) % page;
    Divides(a, page);
    Divides(r + c, page);
    Distributes(q, d, page);
    Remainder(a + c, q + d, m, page);
  }

  lemma Divides(n: nat, page: nat)
    requires page > 0
    ensures n / page * page + n % page == n && n % page < page
  {
  }

  lemma Distributes(q: nat, d: nat, page: nat)
    ensures (q + d) * page == q * page + d * page
  {
  }

  lemma AtLeast(a: nat, b: nat, page: nat)
    requires a <= b
    ensures a * page <= b * page
    ensures a > 0 ==> a * page == (a - 1) * page + page
  {
  }

  /** Where each dumped mapping's bytes begin, the first at `next`. */
  function LoadOffsets(dumped: seq<Mapping>, next: u64): (r: Result<seq<u64>, Error>)
    ensures r.Ok? ==> |r.value| == |dumped|
  {
    if dumped == [] then Ok([])
    else
      var size :- MappingSize(dumped[0]);
      if next + size >= U64_LIMIT then Err(LoadOffsetOverflow)
      else
        var rest :- LoadOffsets(dumped[1..], next + size);
        Ok([next] + rest)
  }

  datatype Layout = Layout(dumped: seq<Mapping>, noteOffset: u64, firstLoad: u64, offsets: seq<u64>)

  function Plan(mappings: seq<Mapping>, pageSize: u64, noteSize: nat): (r: Result<Layout, Error>)
    ensures r.Ok? ==> |r.value.offsets| == |r.value.dumped| < 0xffff
  {
    var dumped := Dumped(mappings);
    if |dumped| + 1 > 0xffff then Err(TooManyHeaders)
    else
      var noteOffset := ELF_HEADER_SIZE + PROGRAM_HEADER_SIZE * (|dumped| + 1);
      if noteOffset + noteSize >= U64_LIMIT then Err(NoteSizeOverflow)
      else
        var firstLoad :- AlignPage(noteOffset + noteSize, pageSize);
        var offsets :- LoadOffsets(dumped, firstLoad);
        Ok(Layout(dumped, noteOffset, firstLoad, offsets))
  }

  /** The sizes of the mappings, added up. */
  function Total(dumped: seq<Mapping>): int {
    if dumped == [] then 0 else dumped[0].end - dumped[0].start + Total(dumped[1..])
  }

  predicate Forward(dumped: seq<Mapping>) {
    forall i :: 0 <= i < |dumped| ==> dumped[i].start <= dumped[i].end
  }

  lemma {:induction false} TotalForward(dumped: seq<Mapping>)
    requires Forward(dumped)
    ensures Total(dumped) >= 0
  {
    if dumped != [] {
      TotalForward(dumped[1..]);
    }
  }

  lemma {:induction false} OffsetsOkIff(dumped: seq<Mapping>, next: u64)
    ensures LoadOffsets(dumped, next).Ok? <==> Forward(dumped) && next + Total(dumped) < 0x1_0000_0000_0000_0000
  {
    if dumped != [] {
      var m, rest := dumped[0], dumped[1..];
      assert Forward(dumped) <==> m.start <= m.end && Forward(rest) by {
        if m.start <= m.end && Forward(rest) {
          forall i | 0 <= i < |dumped| ensures dumped[i].start <= dumped[i].end {
            assert i > 0 ==> dumped[i] == rest[i - 1];
          }
        }
      }
      if Forward(dumped) {
        TotalForward(rest);
      }
      if m.start <= m.end && next + (m.end - m.start) < U64_LIMIT {
        OffsetsOkIff(rest, next + (m.end - m.start));
      }
    }
  }

  /** There is a layout exactly when the headers can be counted, no mapping runs backwards, and nothing passes 2^64. */
  lemma PlanOkIff(mappings: seq<Mapping>, pageSize: u64, noteSize: nat)
    ensures var dumped := Dumped(mappings);
      var notesEnd := 64 + 56 * (|dumped| + 1) + noteSize;
      Plan(mappings, pageSize, noteSize).Ok? <==>
        && |dumped| + 1 <= 0xffff && Forward(dumped) && pageSize > 0
        && notesEnd + pageSize <= 0x1_0000_0000_0000_0000
        && (notesEnd + (pageSize - 1)) / pageSize * pageSize + Total(dumped) < 0x1_0000_0000_0000_0000
  {
    hide LoadOffsets, Dumped;
    var dumped := Dumped(mappings);
    var notesEnd := 64 + 56 * (|dumped| + 1) + noteSize;
    if |dumped| + 1 <= 0xffff && pageSize > 0 && notesEnd + pageSize <= U64_LIMIT {
      OffsetsOkIff(dumped, AlignPage(notesEnd, pageSize).value);
    }
  }

  /** Facts about a list of load offsets that began at `next`: each block of bytes begins where the one before
      it ended. */
  ghost predicate Consecutive(dumped: seq<Mapping>, offsets: seq<u64>, next: nat) {
    && |offsets| == |dumped|
    && (forall i :: 0 <= i < |dumped| ==> dumped[i].start <= dumped[i].end)
    && (|offsets| > 0 ==> offsets[0] == next)
    && (forall i :: 0 <= i < |offsets| - 1 ==> offsets[i + 1] == offsets[i] + (dumped[i].end - dumped[i].start))
  }

  lemma {:induction false} OffsetsConsecutive(dumped: seq<Mapping>, next: u64)
    requires LoadOffsets(dumped, next).Ok?
    ensures Consecutive(dumped, LoadOffsets(dumped, next).value, next)
  {
    if dumped != [] {
      var size := MappingSize(dumped[0]).value;
      OffsetsConsecutive(dumped[1..], next + size);
      var offsets, rest := LoadOffsets(dumped, next).value, LoadOffsets(dumped[1..], next + size).value;
      forall i | 0 <= i < |dumped| ensures dumped[i].start <= dumped[i].end {
        assert i > 0 ==> dumped[i] == dumped[1..][i - 1];
      }
      forall i | 0 <= i < |offsets| - 1
        ensures offsets[i + 1] == offsets[i] + (dumped[i].end - dumped[i].start)
      {
        assert offsets[i + 1] == rest[i];
        assert i > 0 ==> offsets[i] == rest[i - 1] && dumped[i] == dumped[1..][i - 1];
      }
    }
  }

  lemma {:induction false} OffsetsAscend(dumped: seq<Mapping>, offsets: seq<u64>, next: nat, i: nat, j: nat)
    requires Consecutive(dumped, offsets, next) && i < j < |offsets|
    ensures next <= offsets[i] && offsets[i] + (dumped[i].end - dumped[i].start) <= offsets[j]
  {
    if i + 1 < j {
      OffsetsAscend(dumped, offsets, next, i, j - 1);
      assert offsets[j - 1 + 1] == offsets[j - 1] + (dumped[j - 1].end - dumped[j - 1].start);
    } else {
      assert offsets[i + 1] == offsets[i] + (dumped[i].end - dumped[i].start);
      if i > 0 {
        OffsetsAscend(dumped, offsets, next, i - 1, i);
      }
    }
  }

  // ----- headers

  function ElfFields(count: u16): (fields: Fields)
    ensures Fit(fields, 0, ELF_HEADER_SIZE)
  {
    var last := Field(56, Le16(count), End);
    assert Fit(last, 56, ELF_HEADER_SIZE);
    var sizes := Field(52, Le16(ELF_HEADER_SIZE), Field(54, Le16(PROGRAM_HEADER_SIZE), last));
    assert Fit(sizes, 40, ELF_HEADER_SIZE);
    var kind := Field(18, Le16(EM_X86_64), Field(20, Le32(1), Field(32, Le64(ELF_HEADER_SIZE), sizes)));
    assert Fit(kind, 18, ELF_HEADER_SIZE);
    var ident := Field(5, [1], Field(6, [1], Field(16, Le16(ET_CORE), kind)));
    assert Fit(ident, 5, ELF_HEADER_SIZE);
    Field(0, [0x7f, 69, 76, 70], Field(4, [2], ident))
  }

  function ElfHeader(count: u16): (s: seq<byte>)
    ensures |s| == ELF_HEADER_SIZE
  {
    Laid(ElfFields(count), 0, ELF_HEADER_SIZE)
  }

  datatype Header = Header(kind: u32, flags: u32, offset: u64, address: u64, fileSize: u64, memorySize: u64,
                           alignment: u64)

  function ProgramFields(h: Header): (fields: Fields)
    ensures Fit(fields, 0, PROGRAM_HEADER_SIZE)
  {
    var last := Field(48, Le64(h.alignment), End);
    assert Fit(last, 48, PROGRAM_HEADER_SIZE);
    var sizes := Field(32, Le64(h.fileSize), Field(40, Le64(h.memorySize), last));
    assert Fit(sizes, 24, PROGRAM_HEADER_SIZE);
    var place := Field(8, Le64(h.offset), Field(16, Le64(h.address), sizes));
    assert Fit(place, 8, PROGRAM_HEADER_SIZE);
    Field(0, Le32(h.kind), Field(4, Le32(h.flags), place))
  }

  function ProgramHeader(h: Header): (s: seq<byte>)
    ensures |s| == PROGRAM_HEADER_SIZE
  {
    Laid(ProgramFields(h), 0, PROGRAM_HEADER_SIZE)
  }

  method BuildElfHeader(count: u16) returns (header: array<byte>)
    ensures fresh(header) && header[..] == ElfHeader(count)
  {
    hide WriteAll, Laid, Fit, Le16, Le32, Le64, Zeroes;
    header := new byte[ELF_HEADER_SIZE](_ => 0);
    ghost var last :=
      Field(52, Le16(ELF_HEADER_SIZE), Field(54, Le16(PROGRAM_HEADER_SIZE), Field(56, Le16(count), End)));
    ghost var middle := Field(20, Le32(1), Field(32, Le64(ELF_HEADER_SIZE), last));
    ghost var kind := Field(16, Le16(ET_CORE), Field(18, Le16(EM_X86_64), middle));
    Blank(header[..]);
    Put(header, 0, [0x7f, 69, 76, 70], Field(4, [2], Field(5, [1], Field(6, [1], kind))));
    Put(header, 4, [2], Field(5, [1], Field(6, [1], kind)));
    Put(header, 5, [1], Field(6, [1], kind));
    Put(header, 6, [1], kind);
    Put(header, 16, Le16(ET_CORE), Field(18, Le16(EM_X86_64), middle));
    Put(header, 18, Le16(EM_X86_64), middle);
    Put(header, 20, Le32(1), middle.rest);
    Put(header, 32, Le64(ELF_HEADER_SIZE), last);
    Put(header, 52, Le16(ELF_HEADER_SIZE), last.rest);
    Put(header, 54, Le16(PROGRAM_HEADER_SIZE), last.rest.rest);
    Put(header, 56, Le16(count), End);
    Finished(header[..]);
    FilledRecord(ElfFields(count), ELF_HEADER_SIZE);
  }

  method BuildProgramHeader(h: Header) returns (header: array<byte>)
    ensures fresh(header) && header[..] == ProgramHeader(h)
  {
    hide WriteAll, Laid, Fit, Le16, Le32, Le64, Zeroes;
    header := new byte[PROGRAM_HEADER_SIZE](_ => 0);
    ghost var sizes := Field(32, Le64(h.fileSize), Field(40, Le64(h.memorySize), Field(48, Le64(h.alignment), End)));
    ghost var place := Field(8, Le64(h.offset), Field(16, Le64(h.address), sizes));
    Blank(header[..]);
    Put(header, 0, Le32(h.kind), Field(4, Le32(h.flags), place));
    Put(header, 4, Le32(h.flags), place);
    Put(header, 8, Le64(h.offset), place.rest);
    Put(header, 16, Le64(h.address), sizes);
    Put(header, 32, Le64(h.fileSize), sizes.rest);
    Put(header, 40, Le64(h.memorySize), sizes.rest.rest);
    Put(header, 48, Le64(h.alignment), End);
    Finished(header[..]);
    FilledRecord(ProgramFields(h), PROGRAM_HEADER_SIZE);
  }

  function NoteHeader(layout: Layout, noteSize: u64): Header {
    Header(PT_NOTE, 0, layout.noteOffset, 0, noteSize, 0, 4)
  }

  function LoadHeader(m: Mapping, offset: u64, pageSize: u64): Header
    requires m.start <= m.end
  {
    Header(PT_LOAD, m.flags, offset, m.start, m.end - m.start, m.end - m.start, pageSize)
  }

  /** The load headers of the mappings from the `i`-th on. */
  function LoadHeaders(dumped: seq<Mapping>, offsets: seq<u64>, pageSize: u64): (s: seq<byte>)
    requires |offsets| == |dumped| && forall m :: m in dumped ==> m.start <= m.end
    ensures |s| == PROGRAM_HEADER_SIZE * |dumped|
  {
    if dumped == [] then []
    else Then(ProgramHeader(LoadHeader(dumped[0], offsets[0], pageSize)),
              LoadHeaders(dumped[1..], offsets[1..], pageSize))
  }
}
