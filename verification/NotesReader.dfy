/** A reader of note segments after the System V gABI, chapter 5 "Note Section", and of the notes' contents. */
module NotesReader {
  import opened Bytes
  import opened Pieces
  import opened Records
  import opened CoreFile
  import opened Notes

  datatype Parsed = Parsed(note: Note, end: nat)

  /** The note at `at`: three words, the owner with its terminator, the descriptor, each padded to four bytes. */
  function NoteAt(s: seq<byte>, at: nat): (r: Option<Parsed>)
    ensures r.Some? ==> at + 12 <= r.value.end <= |s|
  {
    if at + 12 > |s| then None
    else
      var nameSize, size := U32At(s, at), U32At(s, at + 4);
      var start := at + 12 + nameSize + Padding(nameSize);
      var end := start + size + Padding(size);
      if end > |s| || nameSize == 0 || s[at + 12 + nameSize - 1] != 0 then None
      else Some(Parsed(Note(s[at + 12..at + 12 + nameSize - 1], U32At(s, at + 8), s[start..start + size]), end))
  }

  function NotesFrom(s: seq<byte>, at: nat): Option<seq<Note>>
    decreases |s| - at
  {
    if at == |s| then Some([])
    else
      var first :- NoteAt(s, at);
      var rest :- NotesFrom(s, first.end);
      Some([first.note] + rest)
  }

  lemma ReadsNote(n: Note, s: seq<byte>, at: nat)
    requires Encodable(n) && At(s, at, Encode(n))
    ensures NoteAt(s, at) == Some(Parsed(n, at + |Encode(n)|))
  {
    hide At, Then, Le32, Zeroes, Padding, U32At;
    var name, size := |n.owner| + 1, |n.descriptor|;
    var s7 := Then(n.descriptor, Zeroes(Padding(size)));
    var s6 := Then(Zeroes(Padding(name)), s7);
    var s4 := Then(n.owner, [0]);
    var s3 := Then(Le32(n.kind), s4);
    var s2 := Then(Le32(size), s3);
    Fits(s, at, Encode(n));
    Joined(s, at, Head(n), s6);
    Joined(s, at, Le32(name), s2);
    Joined(s, at + 4, Le32(size), s3);
    Joined(s, at + 8, Le32(n.kind), s4);
    Joined(s, at + 12, n.owner, [0]);
    Joined(s, at + 12 + name, Zeroes(Padding(name)), s7);
    Joined(s, at + 12 + name + Padding(name), n.descriptor, Zeroes(Padding(size)));
    ReadsWord(s, at, name);
    ReadsWord(s, at + 4, size);
    ReadsWord(s, at + 8, n.kind);
    Slice(s, at + 12, n.owner);
    ByteAt(s, at + 12 + |n.owner|, 0);
    Slice(s, at + 12 + name + Padding(name), n.descriptor);
  }

  lemma {:induction false} ReadsNotes(notes: seq<Note>, s: seq<byte>, at: nat)
    requires forall n :: n in notes ==> Encodable(n)
    requires At(s, at, EncodeAll(notes)) && at + |EncodeAll(notes)| == |s|
    ensures NotesFrom(s, at) == Some(notes)
    decreases |notes|
  {
    hide At, Then, Encode, NoteAt;
    if notes != [] {
      Joined(s, at, Encode(notes[0]), EncodeAll(notes[1..]));
      ReadsNote(notes[0], s, at);
      ReadsNotes(notes[1..], s, at + |Encode(notes[0])|);
      assert [notes[0]] + notes[1..] == notes;
    }
  }

  /** The segment that is built for any process and threads reads back as exactly its notes. */
  lemma SegmentReadsBack(p: Process, threads: seq<Thread>)
    requires p.pageSize > 0 && |p.mappings| < U64_LIMIT && Problem(p, threads).None?
    ensures forall t :: t in threads ==> Sized(t)
    ensures var notes := AllNotes(p, threads);
      && (forall n :: n in notes ==> Encodable(n))
      && NotesFrom(EncodeAll(notes), 0) == Some(notes)
  {
    hide EncodeAll, ThreadNotes, ProcessNotes, NotesFrom, Encodable;
    AllSized(p, threads);
    ThreadsEncodable(p, threads);
    ProcessEncodable(p, threads);
    var notes := AllNotes(p, threads);
    Whole(EncodeAll(notes));
    ReadsNotes(notes, EncodeAll(notes), 0);
  }

  lemma {:induction false} AllSized(p: Process, threads: seq<Thread>)
    requires p.pageSize > 0 && |p.mappings| < U64_LIMIT && Problem(p, threads).None?
    ensures Problem(p, []).None? && forall t :: t in threads ==> Sized(t) && |t.fp| < U32_LIMIT
  {
    hide FileNote;
    if threads != [] {
      AllSized(p, threads[1..]);
      assert ThreadProblem(threads[0]).None?;
      assert forall t :: t in threads ==> t == threads[0] || t in threads[1..];
    }
  }

  lemma {:induction false} ThreadsEncodable(p: Process, threads: seq<Thread>)
    requires forall t :: t in threads ==> Sized(t) && |t.fp| < U32_LIMIT
    ensures forall n :: n in AllThreadNotes(p, threads) ==> Encodable(n)
  {
    hide Status, MaskBytes;
    if threads != [] {
      var t := threads[|threads| - 1];
      ThreadsEncodable(p, threads[..|threads| - 1]);
      assert t in threads;
      StatusSize(p, t);
      if t.pac.Some? {
        MaskSize(t.pac.value);
      }
      assert forall n :: n in ThreadNotes(p, t) ==> Encodable(n);
    }
  }

  lemma ProcessEncodable(p: Process, threads: seq<Thread>)
    requires p.pageSize > 0 && |p.mappings| < U64_LIMIT && Problem(p, []).None?
    ensures forall n :: n in ProcessNotes(p) ==> Encodable(n)
  {
    hide Info, FileNote;
    InfoSize(p);
  }

  // ----- what the descriptors say

  /** The bytes from `at` up to the first zero. */
  function TextAt(s: seq<byte>, at: nat): (t: seq<byte>)
    ensures 0 !in t && at + |t| <= Max(at, |s|)
    decreases |s| - at
  {
    if at >= |s| || s[at] == 0 then [] else [s[at]] + TextAt(s, at + 1)
  }

  function Max(a: nat, b: nat): nat {
    if a >= b then a else b
  }

  lemma {:induction false} ReadsText(s: seq<byte>, at: nat, t: seq<byte>)
    requires At(s, at, t) && At(s, at + |t|, [0])
    ensures TextAt(s, at) == t <==> 0 !in t
    decreases |t|
  {
    ByteAt(s, at + |t|, 0);
    if t != [] && 0 !in t {
      assert s[at] == s[at..at + |t|][0];
      assert s[at + 1..at + |t|] == t[1..];
      ReadsText(s, at + 1, t[1..]);
      assert t == [t[0]] + t[1..];
    }
  }

  /** The signed 32-bit field at `offset`, in two's complement. */
  function I32At(s: seq<byte>, offset: nat): i32
    requires offset + 4 <= |s|
  {
    var word := U32At(s, offset);
    if word < 0x8000_0000 then word else word - 0x1_0000_0000
  }

  lemma ReadsSigned(s: seq<byte>, offset: nat, n: i32)
    requires At(s, offset, Le32(Word(n)))
    ensures offset + 4 <= |s| && I32At(s, offset) == n
  {
    hide At, Le32, U32At;
    ReadsWord(s, offset, Word(n));
  }

  /** The identities and the registers are where the kernel's `elf_prstatus` has them on 64-bit x86. */
  lemma StatusReads(p: Process, t: Thread)
    requires Sized(t)
    ensures var s := Status(p, t);
      && |s| == 336 && I32At(s, 32) == t.tid
      && I32At(s, 36) == I32At(s, 40) == I32At(s, 44) == p.pid
      && s[112..328] == t.gp
  {
    hide At, Laid, Fit, Holds, Le32, I32At, Zeroes, Word;
    var s, f := Status(p, t), StatusFields(p, t);
    Whole(s);
    LaidHolds(s, 0, f, 0, PRSTATUS_SIZE);
    HoldsFirst(s, 0, 0, f);
    ReadsSigned(s, 32, t.tid);
    HoldsFirst(s, 0, 36, f.rest);
    ReadsSigned(s, 36, p.pid);
    f := f.rest.rest;
    HoldsFirst(s, 0, 40, f);
    ReadsSigned(s, 40, p.pid);
    HoldsFirst(s, 0, 44, f.rest);
    ReadsSigned(s, 44, p.pid);
    HoldsFirst(s, 0, 48, f.rest.rest);
    Slice(s, PRSTATUS_REG_OFFSET, t.gp);
  }

  lemma MaskReads(mask: Mask)
    ensures var s := MaskBytes(mask);
      |s| == 16 && U64At(s, 0) == mask.first && U64At(s, 8) == mask.second
  {
    hide Le64;
    var s := MaskBytes(mask);
    assert s[0..8] == Le64(mask.first) && s[8..16] == Le64(mask.second);
  }

  /** A command line as it is shown: its first 79 bytes, separators as spaces, without the spaces at the end. */
  ghost predicate Shown(cmdline: seq<byte>, shown: seq<byte>) {
    && |shown| <= |cmdline| && |shown| <= 79
    && (forall i :: 0 <= i < |shown| ==> shown[i] == if cmdline[i] == 0 then 32 else cmdline[i])
    && (shown == [] || shown[|shown| - 1] != 32)
    && (forall i :: |shown| <= i < |cmdline| && i < 79 ==> cmdline[i] == 0 || cmdline[i] == 32)
  }

  lemma ArgumentsShown(cmdline: seq<byte>)
    ensures Shown(cmdline, Arguments(cmdline)) && 0 !in Arguments(cmdline)
  {
    var line := Spaced(cmdline)[..Min(|cmdline|, 79)];
    var shown := Arguments(cmdline);
    assert forall i :: 0 <= i < |line| ==> line[i] == if cmdline[i] == 0 then 32 else cmdline[i];
    assert shown == Trimmed(line) == line[..|shown|];
  }

  /** The identities are where the kernel's `elf_prpsinfo` has them, the process counts as running, the command name is
      cut to 15 bytes, and the command line is shown without zeroes. */
  lemma InfoReads(p: Process)
    ensures var s, comm := Info(p), p.comm[..Min(|p.comm|, 15)];
      && |s| == 136 && s[1] as char == 'R' && U32At(s, 16) == p.uid && U32At(s, 20) == p.gid
      && I32At(s, 24) == p.pid && I32At(s, 28) == p.ppid && I32At(s, 32) == p.pgrp && I32At(s, 36) == p.sid
      && (TextAt(s, 40) == comm <==> 0 !in comm)
      && Shown(p.cmdline, TextAt(s, 56))
  {
    hide At, Laid, Fit, Holds, Le32, U32At, I32At, Word, Zeroes, TextAt, Arguments, Shown;
    ArgumentsShown(p.cmdline);
    var s, f := Info(p), InfoFields(p);
    Whole(s);
    LaidHolds(s, 0, f, 0, PRPSINFO_SIZE);
    HoldsFirst(s, 0, 0, f);
    ByteAt(s, 1, 82);
    HoldsFirst(s, 0, 2, f.rest);
    ReadsWord(s, 16, p.uid);
    f := f.rest.rest;
    HoldsFirst(s, 0, 20, f);
    ReadsWord(s, 20, p.gid);
    HoldsFirst(s, 0, 24, f.rest);
    ReadsSigned(s, 24, p.pid);
    f := f.rest.rest;
    HoldsFirst(s, 0, 28, f);
    ReadsSigned(s, 28, p.ppid);
    HoldsFirst(s, 0, 32, f.rest);
    ReadsSigned(s, 32, p.pgrp);
    f := f.rest.rest;
    HoldsFirst(s, 0, 36, f);
    ReadsSigned(s, 36, p.sid);
    InfoTexts(p, s, f.rest);
  }

  lemma InfoTexts(p: Process, s: seq<byte>, f: Fields)
    requires |s| == PRPSINFO_SIZE && At(s, 0, Info(p)) && Holds(s, 0, 40, f)
    requires f == Field(40, Truncated(p.comm, 16), Field(56, Truncated(Arguments(p.cmdline), 80), End))
    ensures TextAt(s, 40) == Truncated(p.comm, 16) <==> 0 !in Truncated(p.comm, 16)
    ensures TextAt(s, 56) == Arguments(p.cmdline)
  {
    hide At, Laid, Fit, Holds, TextAt, Arguments, Shown;
    var comm, arguments := Truncated(p.comm, 16), Truncated(Arguments(p.cmdline), 80);
    assert arguments == Arguments(p.cmdline);
    HoldsFirst(s, 0, 40, f);
    HoldsFirst(s, 0, 40 + |comm|, f.rest);
    ZeroIn(s, 40 + |comm|, 16 - |comm|);
    ReadsText(s, 40, comm);
    LastZeroes(p, s);
    ZeroIn(s, 56 + |arguments|, 80 - |arguments|);
    ReadsText(s, 56, arguments);
    ArgumentsShown(p.cmdline);
  }

  lemma ZeroIn(s: seq<byte>, at: nat, n: nat)
    requires At(s, at, Zeroes(n)) && n > 0
    ensures At(s, at, [0])
  {
    assert s[at] == s[at..at + n][0];
    ByteAt(s, at, 0);
  }

  lemma LastZeroes(p: Process, s: seq<byte>)
    requires |s| == PRPSINFO_SIZE && At(s, 0, Info(p))
    ensures At(s, 56 + |Arguments(p.cmdline)|, Zeroes(80 - |Arguments(p.cmdline)|))
  {
    hide At, Fit, Then, Arguments, Zeroes;
    LaidTail(s, InfoFields(p), 0, PRPSINFO_SIZE);
    var f := InfoFields(p);
    var g := f.rest.rest.rest.rest;
    var texts := g.rest.rest.rest;
    assert LastEnd(f, 0) == LastEnd(f.rest.rest, 20);
    assert LastEnd(f.rest.rest, 20) == LastEnd(g, 28);
    assert LastEnd(g, 28) == LastEnd(g.rest.rest, 36);
    assert LastEnd(g.rest.rest, 36) == LastEnd(texts, 40);
    assert texts == Field(40, Truncated(p.comm, 16), Field(56, Truncated(Arguments(p.cmdline), 80), End));
    var shown := |Truncated(Arguments(p.cmdline), 80)|;
    assert LastEnd(texts, 40) == LastEnd(texts.rest, 40 + |Truncated(p.comm, 16)|);
    assert LastEnd(texts.rest, 40 + |Truncated(p.comm, 16)|) == LastEnd(End, 56 + shown);
    assert LastEnd(End, 56 + shown) == 56 + shown;
  }

  /** Where a record's last field ends. */
  function LastEnd(fields: Fields, from: nat): nat {
    match fields
    case End => from
    case Field(offset, bytes, rest) => LastEnd(rest, offset + |bytes|)
  }

  lemma {:induction false} LaidTail(s: seq<byte>, fields: Fields, from: nat, size: nat)
    requires Fit(fields, from, size) && At(s, from, Laid(fields, from, size))
    ensures LastEnd(fields, from) <= size && At(s, LastEnd(fields, from), Zeroes(size - LastEnd(fields, from)))
    decreases fields
  {
    hide At, Then, Zeroes;
    FitsInSize(fields, from, size);
    match fields
    case End =>
    case Field(offset, bytes, rest) =>
      var tail := Laid(rest, offset + |bytes|, size);
      Joined(s, from, Zeroes(offset - from), Then(bytes, tail));
      Joined(s, offset, bytes, tail);
      LaidTail(s, rest, offset + |bytes|, size);
  }

  // ----- the file mappings

  datatype FileEntry = FileEntry(start: u64, end: u64, pageOffset: u64, path: seq<byte>)

  datatype FileTable = FileTable(pageSize: u64, entries: seq<FileEntry>)

  /** `count` ranges from `at` on, and their paths from `pathAt` on, which must end where the descriptor does. */
  function FileEntries(d: seq<byte>, at: nat, pathAt: nat, count: nat): Option<seq<FileEntry>>
    decreases count
  {
    if count == 0 then if pathAt == |d| then Some([]) else None
    else if at + 24 > |d| || pathAt >= |d| then None
    else
      var path := TextAt(d, pathAt);
      var rest :- FileEntries(d, at + 24, pathAt + |path| + 1, count - 1);
      Some([FileEntry(U64At(d, at), U64At(d, at + 8), U64At(d, at + 16), path)] + rest)
  }

  function DecodeFile(d: seq<byte>): Option<FileTable> {
    if |d| < 16 then None
    else
      var count := U64At(d, 0);
      var entries :- FileEntries(d, 16, 16 + 24 * count, count);
      Some(FileTable(U64At(d, 8), entries))
  }

  function Entry(m: Mapping, pageSize: u64): FileEntry
    requires pageSize > 0
  {
    PageOffsetFits(m.offset, pageSize);
    FileEntry(m.start, m.end, m.offset / pageSize, m.path)
  }

  function EntriesOf(named: seq<Mapping>, pageSize: u64): seq<FileEntry>
    requires pageSize > 0
  {
    if named == [] then [] else [Entry(named[0], pageSize)] + EntriesOf(named[1..], pageSize)
  }

  predicate NulFree(named: seq<Mapping>) {
    forall m :: m in named ==> 0 !in m.path
  }

  lemma ReadsRange(d: seq<byte>, at: nat, m: Mapping, pageSize: u64)
    requires pageSize > 0 && At(d, at, Range(m, pageSize))
    ensures at + 24 <= |d|
    ensures FileEntry(U64At(d, at), U64At(d, at + 8), U64At(d, at + 16), m.path) == Entry(m, pageSize)
  {
    hide At, Then, Le64, U64At;
    PageOffsetFits(m.offset, pageSize);
    var offset: u64 := m.offset / pageSize;
    Joined(d, at, Le64(m.start), Then(Le64(m.end), Le64(offset)));
    Joined(d, at + 8, Le64(m.end), Le64(offset));
    ReadsLong(d, at, m.start);
    ReadsLong(d, at + 8, m.end);
    ReadsLong(d, at + 16, offset);
  }

  lemma {:induction false} ReadsEntries(d: seq<byte>, at: nat, pathAt: nat, named: seq<Mapping>, pageSize: u64)
    requires pageSize > 0 && At(d, at, Ranges(named, pageSize))
    requires At(d, pathAt, Paths(named)) && pathAt + |Paths(named)| == |d|
    ensures FileEntries(d, at, pathAt, |named|) == Some(EntriesOf(named, pageSize)) <==> NulFree(named)
    decreases |named|
  {
    hide At, Then, Range, U64At, Entry, TextAt, NulFree;
    if named == [] {
      assert NulFree([]) by { NoneNamed(); }
    } else {
      var m, rest := named[0], named[1..];
      Joined(d, at, Range(m, pageSize), Ranges(rest, pageSize));
      Joined(d, pathAt, m.path, Then([0], Paths(rest)));
      Joined(d, pathAt + |m.path|, [0], Paths(rest));
      ReadsRange(d, at, m, pageSize);
      ReadsText(d, pathAt, m.path);
      Fits(d, pathAt + |m.path|, [0]);
      NulFreeFirst(named);
      if 0 !in m.path {
        ReadsEntries(d, at + 24, pathAt + |m.path| + 1, rest, pageSize);
        var others := FileEntries(d, at + 24, pathAt + |m.path| + 1, |rest|);
        SameFirst(Entry(m, pageSize), others, EntriesOf(rest, pageSize));
      } else {
        OtherPath(d, at, pathAt, named, pageSize);
      }
    }
  }

  lemma NoneNamed()
    ensures NulFree([])
  {
  }

  lemma NulFreeFirst(named: seq<Mapping>)
    requires named != []
    ensures NulFree(named) <==> 0 !in named[0].path && NulFree(named[1..])
  {
    assert forall m :: m in named <==> m == named[0] || m in named[1..];
  }

  lemma OtherPath(d: seq<byte>, at: nat, pathAt: nat, named: seq<Mapping>, pageSize: u64)
    requires pageSize > 0 && named != [] && TextAt(d, pathAt) != named[0].path
    ensures FileEntries(d, at, pathAt, |named|) != Some(EntriesOf(named, pageSize))
  {
    hide TextAt, U64At;
    var read := FileEntries(d, at, pathAt, |named|);
    if read.Some? {
      assert read.value[0].path == TextAt(d, pathAt);
      assert EntriesOf(named, pageSize)[0].path == named[0].path;
    }
  }

  lemma SameFirst(first: FileEntry, a: Option<seq<FileEntry>>, b: seq<FileEntry>)
    ensures a.Some? ==> ([first] + a.value == [first] + b <==> a.value == b)
  {
    if a.Some? {
      assert ([first] + a.value)[1..] == a.value && ([first] + b)[1..] == b;
    }
  }

  lemma DecodesFileNote(p: Process)
    requires p.pageSize > 0 && |p.mappings| < U64_LIMIT && FileNote(p).Some?
    ensures DecodeFile(FileNote(p).value) == Some(FileTable(p.pageSize, EntriesOf(Named(p.mappings), p.pageSize)))
            <==> NulFree(Named(p.mappings))
  {
    hide At, Then, Le64, U64At, Ranges, Paths, FileEntries, EntriesOf, NulFree, Named;
    var d, named := FileNote(p).value, Named(p.mappings);
    NamedFew(p.mappings);
    Whole(d);
    Joined(d, 0, Le64(|named|), Then(Le64(p.pageSize), Then(Ranges(named, p.pageSize), Paths(named))));
    Joined(d, 8, Le64(p.pageSize), Then(Ranges(named, p.pageSize), Paths(named)));
    Joined(d, 16, Ranges(named, p.pageSize), Paths(named));
    ReadsLong(d, 0, |named|);
    ReadsLong(d, 8, p.pageSize);
    ReadsEntries(d, 16, 16 + 24 * |named|, named, p.pageSize);
  }

  /** The table has the page size and, for the mappings at these positions, range, page offset and path. */
  ghost predicate Lists(table: FileTable, p: Process, picked: seq<nat>)
    requires p.pageSize > 0 && forall k :: 0 <= k < |picked| ==> picked[k] < |p.mappings|
  {
    && table.pageSize == p.pageSize && |table.entries| == |picked|
    && forall k :: 0 <= k < |picked| ==>
         var e, m := table.entries[k], p.mappings[picked[k]];
         e.start == m.start && e.end == m.end && e.pageOffset == m.offset / p.pageSize && e.path == m.path
  }

  lemma {:induction false} EntryOfEach(named: seq<Mapping>, pageSize: u64)
    requires pageSize > 0
    ensures |EntriesOf(named, pageSize)| == |named|
    ensures forall k :: 0 <= k < |named| ==> EntriesOf(named, pageSize)[k] == Entry(named[k], pageSize)
  {
    hide Entry;
    if named != [] {
      EntryOfEach(named[1..], pageSize);
      assert forall k :: 0 < k < |named| ==> named[k] == named[1..][k - 1];
    }
  }

  lemma ListsExactly(table: FileTable, p: Process, named: seq<Mapping>, picked: seq<nat>)
    requires p.pageSize > 0 && |named| == |picked|
    requires forall k :: 0 <= k < |picked| ==> picked[k] < |p.mappings| && named[k] == p.mappings[picked[k]]
    ensures Lists(table, p, picked) <==> table == FileTable(p.pageSize, EntriesOf(named, p.pageSize))
  {
    hide EntriesOf;
    EntryOfEach(named, p.pageSize);
    var entries := EntriesOf(named, p.pageSize);
    if Lists(table, p, picked) {
      assert table.entries == entries;
    }
  }

  /** There is a file note exactly when some mapping's path begins with a slash. It decodes to the page size and, for
      these mappings and in their order, range, page offset and path, exactly when none of the paths has a zero byte
      in it. */
  lemma FileNoteReads(p: Process) returns (picked: seq<nat>)
    requires p.pageSize > 0 && |p.mappings| < U64_LIMIT
    ensures NamedAt(p.mappings, picked) && (FileNote(p).None? <==> picked == [])
    ensures picked != [] ==>
      ((DecodeFile(FileNote(p).value).Some? && Lists(DecodeFile(FileNote(p).value).value, p, picked)) <==>
       forall k :: 0 <= k < |picked| ==> 0 !in p.mappings[picked[k]].path)
  {
    hide DecodeFile, EntriesOf, Named, NamedAt, Lists, FileNote;
    picked := NamedPicks(p.mappings);
    NoteIffNamed(p);
    if picked != [] {
      assert forall k :: 0 <= k < |picked| ==> picked[k] < |p.mappings|;
      DecodesFileNote(p);
      if DecodeFile(FileNote(p).value).Some? {
        ListsExactly(DecodeFile(FileNote(p).value).value, p, Named(p.mappings), picked);
      }
    }
  }

  lemma NoteIffNamed(p: Process)
    requires p.pageSize > 0 && |p.mappings| < U64_LIMIT
    ensures FileNote(p).Some? <==> Named(p.mappings) != []
  {
  }
}
