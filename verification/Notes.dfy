/** The note segment of a core file: registers, process information and file mappings. */
module Notes {
  import opened Bytes
  import opened Pieces
  import opened Records
  import opened Sequences
  import opened CoreFile

  const NT_PRSTATUS: u32 := 1
  const NT_FPREGSET: u32 := 2
  const NT_PRPSINFO: u32 := 3
  const NT_AUXV: u32 := 6
  const NT_SIGINFO: u32 := 0x5349_4749
  const NT_FILE: u32 := 0x4649_4c45
  const NT_ARM_PAC_MASK: u32 := 0x406

  const SPACE: byte := 32
  const SLASH: byte := 47

  /** The sizes and the register offset of 64-bit x86. */
  const GP_REGSET_SIZE: nat := 216
  const PRSTATUS_SIZE: nat := 336
  const PRSTATUS_REG_OFFSET: nat := 112
  const PRPSINFO_SIZE: nat := 136

  datatype Process = Process(pid: i32, ppid: i32, pgrp: i32, sid: i32, uid: u32, gid: u32, comm: seq<byte>,
                             cmdline: seq<byte>, mappings: seq<Mapping>, auxv: seq<byte>, pageSize: u64)

  datatype Mask = Mask(first: u64, second: u64)

  datatype Thread = Thread(tid: i32, gp: seq<byte>, fp: seq<byte>, pac: Option<Mask>)

  datatype NoteError = RegisterSize(tid: i32, size: nat) | DescriptorTooLarge

  datatype Note = Note(owner: seq<byte>, kind: u32, descriptor: seq<byte>)

  function Core(): seq<byte> {
    [67, 79, 82, 69]
  }

  function Linux(): seq<byte> {
    [76, 73, 78, 85, 88]
  }

  lemma Owners()
    ensures Core() == Text("CORE") && Linux() == Text("LINUX")
  {
  }

  // ----- descriptors

  function StatusFields(p: Process, t: Thread): (fields: Fields)
    requires |t.gp| == GP_REGSET_SIZE
    ensures Fit(fields, 0, PRSTATUS_SIZE)
  {
    var registers := Field(44, Le32(Word(p.pid)), Field(PRSTATUS_REG_OFFSET, t.gp, End));
    assert Fit(registers, 44, PRSTATUS_SIZE);
    var ids := Field(36, Le32(Word(p.pid)), Field(40, Le32(Word(p.pid)), registers));
    assert Fit(ids, 36, PRSTATUS_SIZE);
    Field(32, Le32(Word(t.tid)), ids)
  }

  function Status(p: Process, t: Thread): seq<byte>
    requires |t.gp| == GP_REGSET_SIZE
  {
    Laid(StatusFields(p, t), 0, PRSTATUS_SIZE)
  }

  method BuildStatus(p: Process, t: Thread) returns (r: Result<seq<byte>, NoteError>)
    ensures r == if |t.gp| == 216 then Ok(Status(p, t)) else Err(RegisterSize(t.tid, |t.gp|))
  {
    hide WriteAll, Laid, Fit, Le32, Zeroes;
    if |t.gp| != GP_REGSET_SIZE {
      return Err(RegisterSize(t.tid, |t.gp|));
    }
    var status := new byte[PRSTATUS_SIZE](_ => 0);
    ghost var registers := Field(44, Le32(Word(p.pid)), Field(PRSTATUS_REG_OFFSET, t.gp, End));
    ghost var ids := Field(36, Le32(Word(p.pid)), Field(40, Le32(Word(p.pid)), registers));
    Blank(status[..]);
    Put(status, 32, Le32(Word(t.tid)), ids);
    Put(status, 36, Le32(Word(p.pid)), ids.rest);
    Put(status, 40, Le32(Word(p.pid)), registers);
    Put(status, 44, Le32(Word(p.pid)), registers.rest);
    Put(status, PRSTATUS_REG_OFFSET, t.gp, End);
    Finished(status[..]);
    FilledRecord(StatusFields(p, t), PRSTATUS_SIZE);
    r := Ok(status[..]);
  }

  /** The start of `value` that leaves room for a terminating zero. */
  function Truncated(value: seq<byte>, room: nat): (s: seq<byte>)
    requires room > 0
    ensures |s| < room && s <= value
  {
    value[..Min(|value|, room - 1)]
  }

  function Spaced(cmdline: seq<byte>): (s: seq<byte>)
    ensures |s| == |cmdline|
  {
    seq(|cmdline|, i requires 0 <= i < |cmdline| => if cmdline[i] == 0 then SPACE else cmdline[i])
  }

  /** `s` without the spaces at its end. */
  function Trimmed(s: seq<byte>): (r: seq<byte>)
    ensures r <= s && (r == [] || r[|r| - 1] != SPACE)
    ensures forall i :: |r| <= i < |s| ==> s[i] == SPACE
  {
    if s != [] && s[|s| - 1] == SPACE then Trimmed(s[..|s| - 1]) else s
  }

  /** The command line shown for a process: at most 79 bytes, its separators as spaces. */
  function Arguments(cmdline: seq<byte>): (s: seq<byte>)
    ensures |s| <= 79
  {
    Trimmed(Spaced(cmdline)[..Min(|cmdline|, 79)])
  }

  function InfoFields(p: Process): (fields: Fields)
    ensures Fit(fields, 0, PRPSINFO_SIZE)
  {
    var texts := Field(40, Truncated(p.comm, 16), Field(56, Truncated(Arguments(p.cmdline), 80), End));
    assert Fit(texts, 40, PRPSINFO_SIZE);
    var groups := Field(28, Le32(Word(p.ppid)), Field(32, Le32(Word(p.pgrp)), Field(36, Le32(Word(p.sid)), texts)));
    assert Fit(groups, 28, PRPSINFO_SIZE);
    var ids := Field(16, Le32(p.uid), Field(20, Le32(p.gid), Field(24, Le32(Word(p.pid)), groups)));
    assert Fit(ids, 2, PRPSINFO_SIZE);
    Field(1, [82], ids)
  }

  function Info(p: Process): seq<byte> {
    Laid(InfoFields(p), 0, PRPSINFO_SIZE)
  }

  method BuildArguments(cmdline: seq<byte>) returns (arguments: seq<byte>)
    ensures arguments == Arguments(cmdline)
  {
    arguments := Spaced(cmdline)[..Min(|cmdline|, 79)];
    while arguments != [] && arguments[|arguments| - 1] == SPACE
      invariant Trimmed(arguments) == Arguments(cmdline)
      decreases |arguments|
    {
      arguments := arguments[..|arguments| - 1];
    }
  }

  method BuildInfo(p: Process) returns (info: array<byte>)
    ensures fresh(info) && info[..] == Info(p)
  {
    hide WriteAll, Laid, Fit, Le32, Zeroes, Truncated, Arguments;
    info := new byte[PRPSINFO_SIZE](_ => 0);
    ghost var texts := Field(40, Truncated(p.comm, 16), Field(56, Truncated(Arguments(p.cmdline), 80), End));
    ghost var groups :=
      Field(28, Le32(Word(p.ppid)), Field(32, Le32(Word(p.pgrp)), Field(36, Le32(Word(p.sid)), texts)));
    ghost var ids := Field(16, Le32(p.uid), Field(20, Le32(p.gid), Field(24, Le32(Word(p.pid)), groups)));
    Blank(info[..]);
    Put(info, 1, [82], ids);
    Put(info, 16, Le32(p.uid), ids.rest);
    Put(info, 20, Le32(p.gid), ids.rest.rest);
    Put(info, 24, Le32(Word(p.pid)), groups);
    Put(info, 28, Le32(Word(p.ppid)), groups.rest);
    Put(info, 32, Le32(Word(p.pgrp)), groups.rest.rest);
    Put(info, 36, Le32(Word(p.sid)), texts);
    Put(info, 40, Truncated(p.comm, 16), texts.rest);
    var arguments := BuildArguments(p.cmdline);
    Put(info, 56, Truncated(arguments, 80), End);
    Finished(info[..]);
    FilledRecord(InfoFields(p), PRPSINFO_SIZE);
  }

  /** The mappings that have a path. */
  function Named(mappings: seq<Mapping>): (named: seq<Mapping>)
    ensures forall m :: m in named ==> m in mappings
  {
    if mappings == [] then []
    else (if mappings[0].path != [] && mappings[0].path[0] == SLASH then [mappings[0]] else []) + Named(mappings[1..])
  }

  predicate HasPath(m: Mapping) {
    m.path != [] && m.path[0] == SLASH
  }

  lemma {:induction false} NamedSelected(mappings: seq<Mapping>)
    ensures Named(mappings) == Selected(mappings, HasPath)
  {
    if mappings != [] {
      NamedSelected(mappings[1..]);
    }
  }

  /** These are, in order, the positions of the mappings whose path begins with a slash. */
  ghost predicate NamedAt(mappings: seq<Mapping>, picked: seq<nat>) {
    && (forall k :: 0 <= k < |picked| ==> picked[k] < |mappings|)
    && (forall j, k :: 0 <= j < k < |picked| ==> picked[j] < picked[k])
    && (forall i: nat :: i < |mappings| ==> (Text("/") <= mappings[i].path <==> i in picked))
  }

  lemma Slashed(m: Mapping)
    ensures HasPath(m) <==> Text("/") <= m.path
  {
    assert Text("/") == [47];
  }

  lemma NamedPicks(mappings: seq<Mapping>) returns (picked: seq<nat>)
    ensures NamedAt(mappings, picked) && |Named(mappings)| == |picked|
    ensures forall k :: 0 <= k < |picked| ==> picked[k] < |mappings| && Named(mappings)[k] == mappings[picked[k]]
  {
    hide Named, HasPath, Text;
    NamedSelected(mappings);
    picked := SelectedPicks(mappings, HasPath);
    forall i: nat | i < |mappings| ensures Text("/") <= mappings[i].path <==> i in picked {
      Slashed(mappings[i]);
    }
  }

  function Range(m: Mapping, pageSize: u64): (s: seq<byte>)
    requires pageSize > 0
    ensures |s| == 24
  {
    PageOffsetFits(m.offset, pageSize);
    Then(Le64(m.start), Then(Le64(m.end), Le64(m.offset / pageSize)))
  }

  lemma PageOffsetFits(offset: u64, pageSize: u64)
    requires pageSize > 0
    ensures 0 <= offset / pageSize < U64_LIMIT
  {
    Divides(offset, pageSize);
    AtLeast(1, pageSize, offset / pageSize);
  }

  function Ranges(named: seq<Mapping>, pageSize: u64): (s: seq<byte>)
    requires pageSize > 0
    ensures |s| == 24 * |named|
  {
    if named == [] then [] else Then(Range(named[0], pageSize), Ranges(named[1..], pageSize))
  }

  function Paths(named: seq<Mapping>): seq<byte> {
    if named == [] then [] else Then(named[0].path, Then([0], Paths(named[1..])))
  }

  function FileNote(p: Process): Option<seq<byte>>
    requires p.pageSize > 0 && |p.mappings| < U64_LIMIT
  {
    var named := Named(p.mappings);
    NamedFew(p.mappings);
    if named == [] then None
    else Some(Then(Le64(|named|), Then(Le64(p.pageSize), Then(Ranges(named, p.pageSize), Paths(named)))))
  }

  lemma {:induction false} NamedFew(mappings: seq<Mapping>)
    ensures |Named(mappings)| <= |mappings|
  {
    if mappings != [] {
      NamedFew(mappings[1..]);
    }
  }

  method BuildFileNote(p: Process) returns (descriptor: Option<seq<byte>>)
    requires p.pageSize > 0 && |p.mappings| < U64_LIMIT
    ensures descriptor == FileNote(p)
  {
    hide Le64, Range, Named;
    var named := Named(p.mappings);
    NamedFew(p.mappings);
    if named == [] {
      return None;
    }
    var bytes := Le64(|named|) + Le64(p.pageSize);
    bytes := AppendRanges(bytes, named, p.pageSize);
    bytes := AppendPaths(bytes, named);
    descriptor := Some(bytes);
    assert bytes == Then(Le64(|named|), Then(Le64(p.pageSize), Then(Ranges(named, p.pageSize), Paths(named))));
  }

  method AppendRanges(before: seq<byte>, named: seq<Mapping>, pageSize: u64) returns (bytes: seq<byte>)
    requires pageSize > 0
    ensures bytes == before + Ranges(named, pageSize)
  {
    hide Range;
    bytes := before;
    var i := 0;
    assert named[0..] == named;
    while i < |named|
      invariant 0 <= i <= |named|
      invariant bytes + Ranges(named[i..], pageSize) == before + Ranges(named, pageSize)
    {
      assert named[i..][1..] == named[i + 1..];
      bytes := bytes + Range(named[i], pageSize);
      i := i + 1;
    }
    assert bytes + [] == bytes;
  }

  method AppendPaths(before: seq<byte>, named: seq<Mapping>) returns (bytes: seq<byte>)
    ensures bytes == before + Paths(named)
  {
    bytes := before;
    var i := 0;
    assert named[0..] == named;
    while i < |named|
      invariant 0 <= i <= |named|
      invariant bytes + Paths(named[i..]) == before + Paths(named)
    {
      assert named[i..][1..] == named[i + 1..];
      bytes := bytes + named[i].path + [0];
      i := i + 1;
    }
    assert bytes + [] == bytes;
  }

  // ----- notes

  predicate Sized(t: Thread) {
    |t.gp| == 216
  }

  function MaskBytes(mask: Mask): seq<byte> {
    Le64(mask.first) + Le64(mask.second)
  }

  function ThreadNotes(p: Process, t: Thread): seq<Note>
    requires Sized(t)
  {
    [Note(Text("CORE"), 1, Status(p, t)), Note(Text("CORE"), 2, t.fp)] +
    if t.pac.Some? then [Note(Text("LINUX"), 0x406, MaskBytes(t.pac.value))] else []
  }

  function AllThreadNotes(p: Process, threads: seq<Thread>): seq<Note>
    requires forall t :: t in threads ==> Sized(t)
  {
    if threads == [] then []
    else AllThreadNotes(p, threads[..|threads| - 1]) + ThreadNotes(p, threads[|threads| - 1])
  }

  function ProcessNotes(p: Process): seq<Note>
    requires p.pageSize > 0 && |p.mappings| < U64_LIMIT
  {
    [Note(Text("CORE"), 3, Info(p)), Note(Text("CORE"), 0x5349_4749, Zeroes(128))] +
    (if p.auxv != [] then [Note(Text("CORE"), 6, p.auxv)] else []) +
    (if FileNote(p).Some? then [Note(Text("CORE"), 0x4649_4c45, FileNote(p).value)] else [])
  }

  /** The notes of a core file, in order. */
  function AllNotes(p: Process, threads: seq<Thread>): seq<Note>
    requires p.pageSize > 0 && |p.mappings| < U64_LIMIT && forall t :: t in threads ==> Sized(t)
  {
    AllThreadNotes(p, threads) + ProcessNotes(p)
  }

  // ----- what can go wrong

  function ThreadProblem(t: Thread): Option<NoteError> {
    if !Sized(t) then Some(RegisterSize(t.tid, |t.gp|))
    else if |t.fp| >= U32_LIMIT then Some(DescriptorTooLarge)
    else None
  }

  function Problem(p: Process, threads: seq<Thread>): Option<NoteError>
    requires p.pageSize > 0 && |p.mappings| < U64_LIMIT
  {
    if threads != [] then
      if ThreadProblem(threads[0]).Some? then ThreadProblem(threads[0]) else Problem(p, threads[1..])
    else if |p.auxv| >= U32_LIMIT || (FileNote(p).Some? && |FileNote(p).value| >= U32_LIMIT) then
      Some(DescriptorTooLarge)
    else None
  }

  lemma {:induction false} ProblemAfter(p: Process, threads: seq<Thread>, i: nat)
    requires p.pageSize > 0 && |p.mappings| < U64_LIMIT && i <= |threads|
    requires forall j :: 0 <= j < i ==> ThreadProblem(threads[j]).None?
    ensures Problem(p, threads) == Problem(p, threads[i..])
    decreases i
  {
    hide FileNote, ThreadProblem;
    if i > 0 {
      ProblemAfter(p, threads[1..], i - 1);
      assert threads[1..][i - 1..] == threads[i..];
    } else {
      assert threads[0..] == threads;
    }
  }

  // ----- encoding

  predicate Encodable(n: Note) {
    |n.owner| + 1 < U32_LIMIT && |n.descriptor| < U32_LIMIT
  }

  function Head(n: Note): (s: seq<byte>)
    requires Encodable(n)
    ensures |s| == 12 + |n.owner| + 1
  {
    hide Le32;
    Then(Le32(|n.owner| + 1), Then(Le32(|n.descriptor|), Then(Le32(n.kind), Then(n.owner, [0]))))
  }

  lemma HeadAppended(bytes: seq<byte>, n: Note)
    requires Encodable(n)
    ensures bytes + Le32(|n.owner| + 1) + Le32(|n.descriptor|) + Le32(n.kind) + n.owner + [0] == bytes + Head(n)
  {
    hide Le32;
  }

  function Encode(n: Note): (s: seq<byte>)
    requires Encodable(n)
    ensures |s| == 12 + |n.owner| + 1 + Padding(|n.owner| + 1) + |n.descriptor| + Padding(|n.descriptor|)
  {
    hide Head, Zeroes, Padding;
    Then(Head(n), Then(Zeroes(Padding(|n.owner| + 1)), Then(n.descriptor, Zeroes(Padding(|n.descriptor|)))))
  }

  function EncodeAll(notes: seq<Note>): seq<byte>
    requires forall n :: n in notes ==> Encodable(n)
  {
    hide Encode;
    if notes == [] then [] else Then(Encode(notes[0]), EncodeAll(notes[1..]))
  }

  lemma {:induction false} EncodeAppend(notes: seq<Note>, n: Note)
    requires Encodable(n) && forall n :: n in notes ==> Encodable(n)
    ensures EncodeAll(notes + [n]) == EncodeAll(notes) + Encode(n)
  {
    hide Encode, Encodable;
    if notes == [] {
      assert [n][1..] == [];
    } else {
      EncodeAppend(notes[1..], n);
      assert (notes + [n])[1..] == notes[1..] + [n];
    }
  }

  // ----- building the segment

  class NoteBuffer {
    var bytes: seq<byte>
    ghost var notes: seq<Note>

    /** The bytes are the notes so far, and end on a four-byte boundary. */
    ghost predicate Valid()
      reads this
    {
      && |bytes| % 4 == 0
      && (forall n :: n in notes ==> Encodable(n))
      && bytes == EncodeAll(notes)
    }

    constructor ()
      ensures bytes == [] && notes == [] && Valid()
    {
      bytes, notes := [], [];
    }

    method Pad()
      modifies `bytes
      ensures |bytes| % 4 == 0 && bytes == old(bytes) + Zeroes(Padding(|old(bytes)|))
    {
      var aligned := (|bytes| + 3) / 4 * 4;
      assert aligned == |bytes| + Padding(|bytes|);
      bytes := bytes + Zeroes(aligned - |bytes|);
    }

    method Put(n: Note)
      requires |bytes| % 4 == 0 && Encodable(n)
      modifies `bytes
      ensures |bytes| % 4 == 0 && bytes == old(bytes) + Encode(n)
    {
      hide Le32, Head, Zeroes, Padding;
      PaddingFrom(|bytes|, |Head(n)|);
      PaddingFrom(12, |n.owner| + 1);
      HeadAppended(bytes, n);
      bytes := bytes + Le32(|n.owner| + 1) + Le32(|n.descriptor|) + Le32(n.kind) + n.owner + [0];
      Pad();
      PaddingFrom(|bytes|, |n.descriptor|);
      bytes := bytes + n.descriptor;
      Pad();
      assert bytes == old(bytes) + Encode(n);
    }

    /** One more note, or none at all. */
    method Append(owner: seq<byte>, kind: u32, descriptor: seq<byte>) returns (r: Result<(), NoteError>)
      requires Valid() && |owner| + 1 < U32_LIMIT
      modifies this
      ensures Valid()
      ensures r == if |descriptor| < U32_LIMIT then Ok(()) else Err(DescriptorTooLarge)
      ensures if r.Ok? then notes == old(notes) + [Note(owner, kind, descriptor)]
              else notes == old(notes) && bytes == old(bytes)
    {
      hide EncodeAll, Encode;
      if |descriptor| >= U32_LIMIT {
        return Err(DescriptorTooLarge);
      }
      ghost var n := Note(owner, kind, descriptor);
      Put(Note(owner, kind, descriptor));
      EncodeAppend(notes, n);
      notes := notes + [n];
      r := Ok(());
    }

    method AppendThread(p: Process, t: Thread) returns (r: Result<(), NoteError>)
      requires Valid()
      modifies this
      ensures Valid()
      ensures match ThreadProblem(t)
              case Some(error) => r == Err(error)
              case None => r.Ok? && notes == old(notes) + ThreadNotes(p, t)
    {
      hide Valid, Status, MaskBytes, Text, Core, Linux;
      Owners();
      var status :- BuildStatus(p, t);
      StatusSize(p, t);
      var fits := Append(Core(), NT_PRSTATUS, status);
      assert fits.Ok?;
      var _ :- Append(Core(), NT_FPREGSET, t.fp);
      if t.pac.Some? {
        MaskSize(t.pac.value);
        fits := Append(Linux(), NT_ARM_PAC_MASK, MaskBytes(t.pac.value));
        assert fits.Ok?;
      }
      r := Ok(());
    }

    method AppendProcess(p: Process) returns (r: Result<(), NoteError>)
      requires Valid() && p.pageSize > 0 && |p.mappings| < U64_LIMIT
      modifies this
      ensures Valid()
      ensures match Problem(p, [])
              case Some(error) => r == Err(error)
              case None => r.Ok? && notes == old(notes) + ProcessNotes(p)
    {
      hide Valid, Info, FileNote, Text, Core, Linux;
      Owners();
      var info := BuildInfo(p);
      InfoSize(p);
      var fits := Append(Core(), NT_PRPSINFO, info[..]);
      assert fits.Ok?;
      fits := Append(Core(), NT_SIGINFO, Zeroes(128));
      assert fits.Ok?;
      if p.auxv != [] {
        var _ :- Append(Core(), NT_AUXV, p.auxv);
      }
      var descriptor := BuildFileNote(p);
      if descriptor.Some? {
        var _ :- Append(Core(), NT_FILE, descriptor.value);
      }
      r := Ok(());
    }
  }

  lemma StatusSize(p: Process, t: Thread)
    requires Sized(t)
    ensures |Status(p, t)| == PRSTATUS_SIZE
  {
  }

  lemma InfoSize(p: Process)
    ensures |Info(p)| == PRPSINFO_SIZE
  {
  }

  lemma MaskSize(mask: Mask)
    ensures |MaskBytes(mask)| == 16
  {
  }

  method Build(p: Process, threads: seq<Thread>) returns (r: Result<seq<byte>, NoteError>)
    requires p.pageSize > 0 && |p.mappings| < U64_LIMIT
    ensures match Problem(p, threads)
            case Some(error) => r == Err(error)
            case None =>
              && (forall t :: t in threads ==> Sized(t)) && (forall n :: n in AllNotes(p, threads) ==> Encodable(n))
              && r == Ok(EncodeAll(AllNotes(p, threads))) && |r.value| % 4 == 0
  {
    hide Problem, ThreadProblem, ThreadNotes, ProcessNotes, EncodeAll, Encodable;
    var buffer := new NoteBuffer();
    var i := 0;
    while i < |threads|
      invariant 0 <= i <= |threads| && fresh(buffer) && buffer.Valid()
      invariant forall j :: 0 <= j < i ==> ThreadProblem(threads[j]).None?
      invariant forall t :: t in threads[..i] ==> Sized(t)
      invariant buffer.notes == AllThreadNotes(p, threads[..i])
    {
      ProblemAfter(p, threads, i);
      ProblemFirst(p, threads[i..]);
      var _ :- buffer.AppendThread(p, threads[i]);
      assert threads[..i + 1][..i] == threads[..i];
      i := i + 1;
    }
    ProblemAfter(p, threads, i);
    assert threads[i..] == [] && threads[..i] == threads;
    var _ :- buffer.AppendProcess(p);
    r := Ok(buffer.bytes);
  }

  lemma ProblemFirst(p: Process, threads: seq<Thread>)
    requires p.pageSize > 0 && |p.mappings| < U64_LIMIT && threads != []
    ensures ThreadProblem(threads[0]).Some? ==> Problem(p, threads) == ThreadProblem(threads[0])
    ensures ThreadProblem(threads[0]).None? ==> Sized(threads[0])
  {
  }

  /** Padding depends only on how far past a four-byte boundary the end is. */
  lemma PaddingFrom(base: nat, length: nat)
    requires base % 4 == 0
    ensures Padding(base + length) == Padding(length)
  {
  }
}
