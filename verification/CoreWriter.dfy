/** Writes a core file: headers, notes, padding, and memory in chunks. */
module CoreWriter {
  import opened Bytes
  import opened Pieces
  import opened CoreFile

  const MEMORY_CHUNK_SIZE: nat := 1_048_576

  // ----- the world outside

  /** A file being written. Any write may fail after some of its bytes; `refused` marks that one did since the mark
      was last cleared, as `broken` and `seen` below mark a failed read and a cancellation that was noticed. */
  class CoreOutput {
    var bytes: seq<byte>
    var present: bool
    var writes: nat
    ghost var refused: bool
    const accepted: (nat, nat) -> nat
    const flushes: bool
    const removable: bool

    constructor (accepted: (nat, nat) -> nat, flushes: bool, removable: bool)
      ensures bytes == [] && present && !refused
    {
      bytes, present, writes, refused := [], true, 0, false;
      this.accepted, this.flushes, this.removable := accepted, flushes, removable;
    }

    method WriteAll(s: seq<byte>) returns (ok: bool)
      modifies this
      ensures present == old(present)
      ensures if ok then bytes == old(bytes) + s else old(bytes) <= bytes
      ensures refused == (old(refused) || !ok)
    {
      var count := Min(accepted(writes, |s|), |s|);
      writes := writes + 1;
      ok := count == |s|;
      bytes := bytes + s[..count];
      refused := refused || !ok;
    }
  }

  /** What one read of the memory file gives: up to `count` bytes (0 at the end of the file), `EIO` or
      `EFAULT`, or some other error. */
  datatype Reading = Read(count: nat) | Fault | Failed

  /** A read that gave no bytes. */
  datatype Gap = Gap(address: nat, length: nat)

  class MemoryFile {
    const contents: nat -> byte
    const answer: (nat, nat, nat) -> Reading
    const opens: bool
    var calls: nat
    ghost var gaps: seq<Gap>
    ghost var broken: bool

    method ReadAt(buffer: array<byte>, count: nat, address: nat) returns (r: Reading)
      requires 0 < count <= buffer.Length
      modifies this, buffer
      ensures r.Read? ==> r.count <= count
      ensures r.Read? ==> buffer[..r.count] == Stored(contents, address, r.count)
      ensures gaps == if (r.Read? && r.count > 0) || r.Failed? then old(gaps) else old(gaps) + [Gap(address, count)]
      ensures broken == (old(broken) || r.Failed?)
    {
      r := answer(calls, address, count);
      calls := calls + 1;
      if r.Read? {
        r := Read(Min(r.count, count));
        forall i | 0 <= i < r.count {
          buffer[i] := contents(address + i);
        }
      }
      if r == Fault || r == Read(0) {
        gaps := gaps + [Gap(address, count)];
      }
      broken := broken || r.Failed?;
    }
  }

  /** A token that other threads may set; each poll sees it set or not. */
  class Cancellation {
    const requested: nat -> bool
    var polls: nat
    ghost var seen: bool

    method Poll() returns (r: Result<(), Error>)
      modifies this
      ensures r == if requested(old(polls)) then Err(Error.Cancelled) else Ok(())
      ensures seen == (old(seen) || r.Err?) && polls == old(polls) + 1
    {
      r := if requested(polls) then Err(Error.Cancelled) else Ok(());
      polls := polls + 1;
      seen := seen || r.Err?;
    }
  }

  /** A result is good exactly when nothing went wrong, and otherwise names the one thing that did. */
  ghost predicate Explains(r: Result<(), Error>, refused: bool, broken: bool, seen: bool) {
    match r
    case Ok(_) => !refused && !broken && !seen
    case Err(CannotWrite) => refused && !broken && !seen
    case Err(CannotRead(_, _)) => broken && !refused && !seen
    case Err(Cancelled) => seen && !refused && !broken
    case Err(_) => false
  }

  lemma Causes(start: u64, end: u64)
    ensures Explains(Ok(()), false, false, false) && Explains(Err(CannotWrite), true, false, false)
    ensures Explains(Err(CannotRead(start, end)), false, true, false)
    ensures Explains(Err(Error.Cancelled), false, false, true)
  {
  }

  function Stored(contents: nat -> byte, address: nat, length: nat): (s: seq<byte>)
    ensures |s| == length
  {
    seq(length, i requires 0 <= i => contents(address + i))
  }

  // ----- what is written for a range of memory

  predicate Missing(gaps: seq<Gap>, address: nat) {
    exists i :: 0 <= i < |gaps| && gaps[i].address <= address < gaps[i].address + gaps[i].length
  }

  /** Byte `k` is the process's byte at `start + k`, or zero exactly when its chunk could not be read. */
  function Copy(contents: nat -> byte, start: nat, length: nat, gaps: seq<Gap>): (s: seq<byte>)
    ensures |s| == length
  {
    seq(length, i requires 0 <= i => if Missing(gaps, start + i) then 0 else contents(start + i))
  }

  lemma CopyByte(contents: nat -> byte, start: nat, length: nat, gaps: seq<Gap>, k: nat)
    requires k < length
    ensures Copy(contents, start, length, gaps)[k] == if Missing(gaps, start + k) then 0 else contents(start + k)
  {
  }

  /** All gaps so far end at or before `address`. */
  predicate Below(gaps: seq<Gap>, address: nat) {
    forall i :: 0 <= i < |gaps| ==> gaps[i].address + gaps[i].length <= address
  }

  lemma CopyNothing(contents: nat -> byte, start: nat)
    ensures Copy(contents, start, 0, []) == []
  {
  }

  lemma CopyRead(contents: nat -> byte, start: nat, done: nat, count: nat, gaps: seq<Gap>)
    requires Below(gaps, start + done)
    ensures Copy(contents, start, done, gaps) + Stored(contents, start + done, count) ==
            Copy(contents, start, done + count, gaps)
  {
    var all := Copy(contents, start, done + count, gaps);
    forall k | done <= k < done + count ensures all[k] == Stored(contents, start + done, count)[k - done] {
      assert !Missing(gaps, start + k);
    }
  }

  lemma CopyGap(contents: nat -> byte, start: nat, done: nat, count: nat, gaps: seq<Gap>)
    requires Below(gaps, start + done)
    ensures var more := gaps + [Gap(start + done, count)];
      && Below(more, start + done + count)
      && Copy(contents, start, done, gaps) + Zeroes(count) == Copy(contents, start, done + count, more)
  {
    hide Copy;
    var more := gaps + [Gap(start + done, count)];
    var all := Copy(contents, start, done + count, more);
    forall k | 0 <= k < done ensures all[k] == Copy(contents, start, done, gaps)[k] {
      CopyByte(contents, start, done, gaps, k);
      CopyByte(contents, start, done + count, more, k);
      if i :| 0 <= i < |gaps| && gaps[i].address <= start + k < gaps[i].address + gaps[i].length {
        assert more[i] == gaps[i];
        assert Missing(more, start + k);
      }
      if i :| 0 <= i < |more| && more[i].address <= start + k < more[i].address + more[i].length {
        assert i < |gaps| && more[i] == gaps[i];
        assert Missing(gaps, start + k);
      }
    }
    forall k | done <= k < done + count ensures all[k] == 0 {
      assert more[|gaps|] == Gap(start + done, count);
      assert Missing(more, start + k);
      CopyByte(contents, start, done + count, more, k);
    }
  }

  /** Every dumped mapping's bytes in order; `gaps[i]` are the reads of mapping `i` that gave nothing. */
  function Bodies(contents: nat -> byte, dumped: seq<Mapping>, gaps: seq<seq<Gap>>): seq<byte>
    requires |gaps| == |dumped| && forall m :: m in dumped ==> m.start <= m.end
  {
    if dumped == [] then []
    else Then(Copy(contents, dumped[0].start, dumped[0].end - dumped[0].start, gaps[0]),
              Bodies(contents, dumped[1..], gaps[1..]))
  }

  function Prefix(layout: Layout, pageSize: u64, notes: seq<byte>): seq<byte>
    requires |layout.offsets| == |layout.dumped| < 0xffff && |notes| < U64_LIMIT
    requires forall m :: m in layout.dumped ==> m.start <= m.end
  {
    Then(ElfHeader(|layout.dumped| + 1),
    Then(ProgramHeader(NoteHeader(layout, |notes|)),
    Then(LoadHeaders(layout.dumped, layout.offsets, pageSize),
    Then(notes, Zeroes(if layout.firstLoad >= layout.noteOffset + |notes|
                       then layout.firstLoad - layout.noteOffset - |notes| else 0)))))
  }

  /** The file that a successful run leaves. */
  ghost predicate IsCore(file: seq<byte>, mappings: seq<Mapping>, pageSize: u64, notes: seq<byte>,
                         contents: nat -> byte, gaps: seq<seq<Gap>>)
  {
    && Plan(mappings, pageSize, |notes|).Ok? && |notes| < U64_LIMIT
    && var layout := Plan(mappings, pageSize, |notes|).value;
    && |gaps| == |layout.dumped| && (forall m :: m in layout.dumped ==> m.start <= m.end)
    && file == Then(Prefix(layout, pageSize, notes), Bodies(contents, layout.dumped, gaps))
  }

  // ----- the writer

  method WriteZeroes(output: CoreOutput, size: nat) returns (r: Result<(), Error>)
    requires !output.refused
    modifies output
    ensures output.present == old(output.present) && Explains(r, output.refused, false, false)
    ensures r.Ok? ==> output.bytes == old(output.bytes) + Zeroes(size)
  {
    var left := size;
    while left > 0
      invariant 0 <= left <= size && output.present == old(output.present) && !output.refused
      invariant output.bytes == old(output.bytes) + Zeroes(size - left)
    {
      var count := Min(left, 4096);
      var ok := output.WriteAll(Zeroes(count));
      if !ok {
        return Err(CannotWrite);
      }
      assert Zeroes(size - left) + Zeroes(count) == Zeroes(size - left + count);
      left := left - count;
    }
    r := Ok(());
  }

  /** Fills the buffer with the next chunk; a read that gives nothing counts as zeroes. */
  method ReadChunk(memory: MemoryFile, buffer: array<byte>, requested: nat, address: nat) returns (read: Option<nat>)
    requires 0 < requested <= buffer.Length
    modifies memory, buffer
    ensures read.Some? ==> 0 < read.value <= requested
    ensures read.Some? ==>
      || (memory.gaps == old(memory.gaps) && buffer[..read.value] == Stored(memory.contents, address, read.value))
      || (memory.gaps == old(memory.gaps) + [Gap(address, requested)] && read.value == requested &&
          buffer[..read.value] == Zeroes(requested))
    ensures read.None? ==> memory.gaps == old(memory.gaps)
    ensures memory.broken == (old(memory.broken) || read.None?)
  {
    var outcome := memory.ReadAt(buffer, requested, address);
    match outcome
    case Failed => read := None;
    case Fault =>
      Fill(buffer, requested);
      read := Some(requested);
    case Read(count) =>
      if count == 0 {
        Fill(buffer, requested);
        read := Some(requested);
      } else {
        read := Some(count);
      }
  }

  method Fill(buffer: array<byte>, count: nat)
    requires count <= buffer.Length
    modifies buffer
    ensures buffer[..count] == Zeroes(count)
  {
    forall i | 0 <= i < count {
      buffer[i] := 0;
    }
  }

  method WriteMapping(output: CoreOutput, memory: MemoryFile, mapping: Mapping, cancellation: Cancellation)
    returns (r: Result<(), Error>)
    requires !output.refused && !memory.broken && !cancellation.seen
    modifies output, memory, cancellation
    ensures output.present == old(output.present)
    ensures old(memory.gaps) <= memory.gaps
    ensures if mapping.start <= mapping.end then Explains(r, output.refused, memory.broken, cancellation.seen)
            else r == Err(InvalidMapping(mapping.start, mapping.end))
    ensures forall i :: |old(memory.gaps)| <= i < |memory.gaps| ==> memory.gaps[i].length <= 1_048_576
    ensures r.Ok? ==>
      output.bytes == old(output.bytes) + Copy(memory.contents, mapping.start, mapping.end - mapping.start,
                                               memory.gaps[|old(memory.gaps)|..])
  {
    hide Copy, Stored, Below, Zeroes, Explains;
    Causes(mapping.start, mapping.end);
    var size :- MappingSize(mapping);
    var buffer := new byte[MEMORY_CHUNK_SIZE](_ => 0);
    var address: nat := mapping.start;
    var remaining: nat := size;
    ghost var gaps: seq<Gap> := [];
    CopyNothing(memory.contents, mapping.start);
    NoGaps(mapping.start);
    while remaining > 0
      invariant remaining <= size && address == mapping.start + (size - remaining)
      invariant output.present == old(output.present) && fresh(buffer)
      invariant !output.refused && !memory.broken && !cancellation.seen
      invariant forall i :: 0 <= i < |gaps| ==> gaps[i].length <= 1_048_576
      invariant memory.gaps == old(memory.gaps) + gaps && Below(gaps, address)
      invariant output.bytes == old(output.bytes) + Copy(memory.contents, mapping.start, size - remaining, gaps)
    {
      var _ :- cancellation.Poll();
      var requested: nat := Min(remaining, MEMORY_CHUNK_SIZE);
      var read := ReadChunk(memory, buffer, requested, address);
      if read.None? {
        return Err(CannotRead(mapping.start, mapping.end));
      }
      ghost var done: nat := size - remaining;
      if memory.gaps == old(memory.gaps) + gaps {
        CopyRead(memory.contents, mapping.start, done, read.value, gaps);
        StillBelow(gaps, address, address + read.value);
      } else {
        CopyGap(memory.contents, mapping.start, done, read.value, gaps);
        gaps := gaps + [Gap(address, read.value)];
      }
      var ok := output.WriteAll(buffer[..read.value]);
      if !ok {
        return Err(CannotWrite);
      }
      address := address + read.value;
      remaining := remaining - read.value;
    }
    r := Ok(());
  }

  lemma NoGaps(address: nat)
    ensures Below([], address)
  {
  }

  lemma StillBelow(gaps: seq<Gap>, address: nat, later: nat)
    requires Below(gaps, address) && address <= later
    ensures Below(gaps, later)
  {
  }

  /** The layout loop: the mappings' offsets in the file. */
  method ComputeOffsets(dumped: seq<Mapping>, first: u64) returns (r: Result<seq<u64>, Error>)
    ensures r == LoadOffsets(dumped, first)
  {
    var next: u64 := first;
    var offsets: seq<u64> := [];
    var i := 0;
    assert dumped[0..] == dumped;
    OffsetsAfterNone(LoadOffsets(dumped, first));
    while i < |dumped|
      invariant 0 <= i <= |dumped|
      invariant OffsetsAfter(offsets, LoadOffsets(dumped[i..], next)) == LoadOffsets(dumped, first)
    {
      assert dumped[i..][1..] == dumped[i + 1..];
      var size :- MappingSize(dumped[i]);
      OffsetsAfterOne(offsets, next, LoadOffsets(dumped[i + 1..], Min(next + size, U64_LIMIT - 1)));
      offsets := offsets + [next];
      if next + size >= U64_LIMIT {
        return Err(LoadOffsetOverflow);
      }
      next := next + size;
      i := i + 1;
    }
    assert offsets + [] == offsets;
    r := Ok(offsets);
  }

  function OffsetsAfter(done: seq<u64>, rest: Result<seq<u64>, Error>): Result<seq<u64>, Error> {
    match rest
    case Err(error) => Err(error)
    case Ok(offsets) => Ok(done + offsets)
  }

  lemma OffsetsAfterNone(rest: Result<seq<u64>, Error>)
    ensures OffsetsAfter([], rest) == rest
  {
    if rest.Ok? {
      assert [] + rest.value == rest.value;
    }
  }

  lemma OffsetsAfterOne(done: seq<u64>, next: u64, rest: Result<seq<u64>, Error>)
    ensures OffsetsAfter(done, OffsetsAfter([next], rest)) == OffsetsAfter(done + [next], rest)
  {
    if rest.Ok? {
      assert done + ([next] + rest.value) == done + [next] + rest.value;
    }
  }

  method ComputeLayout(mappings: seq<Mapping>, pageSize: u64, noteSize: u64) returns (r: Result<Layout, Error>)
    ensures r == Plan(mappings, pageSize, noteSize)
  {
    hide AlignPage, Dumped;
    var dumped := Dumped(mappings);
    if |dumped| + 1 > 0xffff {
      return Err(TooManyHeaders);
    }
    var noteOffset := ELF_HEADER_SIZE + PROGRAM_HEADER_SIZE * (|dumped| + 1);
    if noteOffset + noteSize >= U64_LIMIT {
      return Err(NoteSizeOverflow);
    }
    var firstLoad :- AlignPage(noteOffset + noteSize, pageSize);
    var offsets :- ComputeOffsets(dumped, firstLoad);
    r := Ok(Layout(dumped, noteOffset, firstLoad, offsets));
  }

  /** Everything before the first mapping's bytes. */
  method WritePrefix(output: CoreOutput, layout: Layout, pageSize: u64, notes: seq<byte>) returns (r: Result<(), Error>)
    requires |layout.offsets| == |layout.dumped| < 0xffff && |notes| < U64_LIMIT
    requires forall m :: m in layout.dumped ==> m.start <= m.end
    requires layout.firstLoad >= layout.noteOffset + |notes|
    requires !output.refused
    modifies output
    ensures output.present == old(output.present) && Explains(r, output.refused, false, false)
    ensures r.Ok? ==> output.bytes == old(output.bytes) + Prefix(layout, pageSize, notes)
  {
    hide ElfHeader, ProgramHeader, Zeroes, NoteHeader, LoadHeader;
    var header := BuildElfHeader(|layout.dumped| + 1);
    var ok := output.WriteAll(header[..]);
    if !ok {
      return Err(CannotWrite);
    }
    header := BuildProgramHeader(NoteHeader(layout, |notes|));
    ok := output.WriteAll(header[..]);
    if !ok {
      return Err(CannotWrite);
    }
    r := WriteLoadHeaders(output, layout, pageSize);
    if r.Err? {
      return;
    }
    ok := output.WriteAll(notes);
    if !ok {
      return Err(CannotWrite);
    }
    r := WriteZeroes(output, layout.firstLoad - layout.noteOffset - |notes|);
  }

  method WriteLoadHeaders(output: CoreOutput, layout: Layout, pageSize: u64) returns (r: Result<(), Error>)
    requires |layout.offsets| == |layout.dumped|
    requires forall m :: m in layout.dumped ==> m.start <= m.end
    requires !output.refused
    modifies output
    ensures output.present == old(output.present) && Explains(r, output.refused, false, false)
    ensures r.Ok? ==> output.bytes == old(output.bytes) + LoadHeaders(layout.dumped, layout.offsets, pageSize)
  {
    hide ProgramHeader, LoadHeader;
    var dumped, offsets := layout.dumped, layout.offsets;
    var i := 0;
    assert dumped[0..] == dumped && offsets[0..] == offsets;
    while i < |dumped|
      invariant 0 <= i <= |dumped| && output.present == old(output.present) && !output.refused
      invariant output.bytes + LoadHeaders(dumped[i..], offsets[i..], pageSize) ==
                old(output.bytes) + LoadHeaders(dumped, offsets, pageSize)
    {
      assert dumped[i] in dumped;
      assert dumped[i..][1..] == dumped[i + 1..] && offsets[i..][1..] == offsets[i + 1..];
      var header := BuildProgramHeader(LoadHeader(dumped[i], offsets[i], pageSize));
      var ok := output.WriteAll(header[..]);
      if !ok {
        return Err(CannotWrite);
      }
      i := i + 1;
    }
    r := Ok(());
  }

  /** The dumped mappings' bytes, one mapping after the other. */
  method WriteBodies(output: CoreOutput, memory: MemoryFile, dumped: seq<Mapping>, cancellation: Cancellation)
    returns (r: Result<(), Error>, ghost gaps: seq<seq<Gap>>)
    requires forall m :: m in dumped ==> m.start <= m.end
    requires !output.refused && !memory.broken && !cancellation.seen
    modifies output, memory, cancellation
    ensures output.present == old(output.present)
    ensures Explains(r, output.refused, memory.broken, cancellation.seen)
    ensures r.Ok? ==> |gaps| == |dumped|
    ensures r.Ok? ==> output.bytes == old(output.bytes) + Bodies(memory.contents, dumped, gaps)
  {
    hide Copy, Bodies;
    gaps := [];
    NoBodies(memory.contents);
    var i := 0;
    while i < |dumped|
      invariant 0 <= i <= |dumped| && output.present == old(output.present) && |gaps| == i
      invariant !output.refused && !memory.broken && !cancellation.seen
      invariant forall m :: m in dumped[..i] ==> m.start <= m.end
      invariant output.bytes == old(output.bytes) + Bodies(memory.contents, dumped[..i], gaps)
    {
      var _ :- cancellation.Poll();
      ghost var before := memory.gaps;
      assert dumped[i] in dumped;
      r := WriteMapping(output, memory, dumped[i], cancellation);
      if r.Err? {
        return;
      }
      assert dumped[..i + 1] == dumped[..i] + [dumped[i]];
      BodiesAppend(memory.contents, dumped[..i], gaps, dumped[i], memory.gaps[|before|..]);
      gaps := gaps + [memory.gaps[|before|..]];
      i := i + 1;
    }
    assert dumped[..i] == dumped;
    r := Ok(());
  }

  lemma NoBodies(contents: nat -> byte)
    ensures Bodies(contents, [], []) == []
  {
  }

  lemma {:induction false} BodiesAppend(contents: nat -> byte, dumped: seq<Mapping>, gaps: seq<seq<Gap>>, m: Mapping,
                                        last: seq<Gap>)
    requires |gaps| == |dumped| && m.start <= m.end && forall m :: m in dumped ==> m.start <= m.end
    ensures Bodies(contents, dumped + [m], gaps + [last]) ==
            Bodies(contents, dumped, gaps) + Copy(contents, m.start, m.end - m.start, last)
  {
    hide Copy;
    if dumped != [] {
      BodiesAppend(contents, dumped[1..], gaps[1..], m, last);
      assert (dumped + [m])[1..] == dumped[1..] + [m] && (gaps + [last])[1..] == gaps[1..] + [last];
    }
  }

  /** How writing ends, when there is a layout. */
  ghost predicate Ends(r: Result<(), Error>, output: CoreOutput, memory: MemoryFile, cancellation: Cancellation)
    reads output, memory, cancellation
  {
    match r
    case Err(CannotOpen) => !memory.opens && !output.refused
    case Err(CannotFlush) => !output.flushes && Explains(Ok(()), output.refused, memory.broken, cancellation.seen)
    case Ok(_) => memory.opens && output.flushes && Explains(r, output.refused, memory.broken, cancellation.seen)
    case Err(_) => Explains(r, output.refused, memory.broken, cancellation.seen)
  }

  /** Writes the file, or fails; a layout that cannot be made fails before anything is written, and otherwise it fails
      exactly when something went wrong: a write, opening or reading the memory, flushing, or a request to stop. */
  method WriteInner(output: CoreOutput, mappings: seq<Mapping>, pageSize: u64, notes: seq<byte>, memory: MemoryFile,
                    cancellation: Cancellation)
    returns (r: Result<(), Error>, ghost gaps: seq<seq<Gap>>)
    requires |notes| < U64_LIMIT && !output.refused && !memory.broken && !cancellation.seen
    modifies output, memory, cancellation
    ensures output.present == old(output.present)
    ensures Plan(mappings, pageSize, |notes|).Ok? ==> Ends(r, output, memory, cancellation)
    ensures r.Ok? ==> exists file :: output.bytes == old(output.bytes) + file &&
                                     IsCore(file, mappings, pageSize, notes, memory.contents, gaps)
    ensures Plan(mappings, pageSize, |notes|).Err? ==>
      r == Err(Plan(mappings, pageSize, |notes|).error) && output.bytes == old(output.bytes)
  {
    hide Prefix, Bodies, AlignPage, LoadOffsets, Dumped;
    gaps := [];
    var layout :- ComputeLayout(mappings, pageSize, |notes|);
    PlanFacts(mappings, pageSize, |notes|);
    r := WritePrefix(output, layout, pageSize, notes);
    if r.Err? {
      return;
    }
    if !memory.opens {
      r := Err(CannotOpen);
      return;
    }
    r, gaps := WriteBodies(output, memory, layout.dumped, cancellation);
    if r.Err? {
      return;
    }
    if !output.flushes {
      r := Err(CannotFlush);
      return;
    }
    ghost var file := Then(Prefix(layout, pageSize, notes), Bodies(memory.contents, layout.dumped, gaps));
    assert output.bytes == old(output.bytes) + file;
  }

  lemma PlanFacts(mappings: seq<Mapping>, pageSize: u64, noteSize: nat)
    requires Plan(mappings, pageSize, noteSize).Ok?
    ensures var layout := Plan(mappings, pageSize, noteSize).value;
      && layout.firstLoad >= layout.noteOffset + noteSize
      && (forall m :: m in layout.dumped ==> m.start <= m.end)
      && Consecutive(layout.dumped, layout.offsets, layout.firstLoad)
  {
    var layout := Plan(mappings, pageSize, noteSize).value;
    OffsetsConsecutive(layout.dumped, layout.firstLoad);
  }

  /** A failed dump leaves no file behind, unless removing it fails too. */
  method Write(output: CoreOutput, mappings: seq<Mapping>, pageSize: u64, notes: seq<byte>, memory: MemoryFile,
               cancellation: Cancellation)
    returns (r: Result<(), Error>, ghost gaps: seq<seq<Gap>>)
    requires |notes| < U64_LIMIT && output.bytes == [] && output.present
    requires !output.refused && !memory.broken && !cancellation.seen
    modifies output, memory, cancellation
    ensures r.Ok? ==> output.present && IsCore(output.bytes, mappings, pageSize, notes, memory.contents, gaps)
    ensures r.Err? ==> output.present == !output.removable
    ensures Plan(mappings, pageSize, |notes|).Err? ==> r == Err(Plan(mappings, pageSize, |notes|).error)
    ensures Plan(mappings, pageSize, |notes|).Ok? ==> Ends(r, output, memory, cancellation)
  {
    hide IsCore, Plan, Explains;
    r, gaps := WriteInner(output, mappings, pageSize, notes, memory, cancellation);
    if r.Err? {
      output.present := !output.removable;
    } else {
      ghost var file :| output.bytes == old(output.bytes) + file &&
                        IsCore(file, mappings, pageSize, notes, memory.contents, gaps);
      assert output.bytes == file;
    }
  }
}
