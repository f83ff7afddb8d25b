# A verified model of ProcDump for Linux

ProcDump watches processes and writes core dumps when a trigger fires. This project models the parts of it whose
behaviour spans many functions or many threads, and proves what they promise for every input, every run and every
interleaving. `dafny verify dfyconfig.toml` checks everything.

Code that changes state is modelled by classes and methods, each proved against a function of the old state; what the
program promises is then proved about those functions. Concurrency is a transition system with one program counter per
thread, and the theorems are about all its runs. System calls answer through parameters that range over every possible
answer, so each theorem holds whatever the system does within the stated contract.

**Leak tracking.** `Probes` are the eBPF entry and return probes of the allocation functions, with the per-thread
pending record, the sampling counter, the ring buffer and the loss counter. `Allocations` is the map that user space
rebuilds from the ring's 848-byte records. `LeakRuns` puts threads around them: each call enters, may nest, changes the
heap, and returns, output by output, in any interleaving. In every run of calls whose sizes the probes get right,
without sampling and with no output lost, the map is what the heap would be had it changed in the order of the outputs,
so it is exact once all of them have been made in the order of the changes at each address. `LeakLimits` has the limits:
the map is exact if and only if nothing is sampled; two calls at one address come out right if and only if they are
reported in the order in which they changed the heap there, or leave the same; a `calloc` count that does not fit the
probe's `int`, and an overflowing `reallocarray` that passes the size check, come out wrong under exactly the conditions
stated; and a lost output goes uncounted if and only if it was to report that a block was reallocated to nothing, be it
so or only because a refused, overflowing `reallocarray` passed the size check as one of nothing. `ArraySize` is the
size check, `Wildcard` the exclusion filter, `Report` the printed totals.

**Core files.** `CoreFile` lays out a core file and builds its headers, `CoreWriter` writes it with short reads, gaps
and failures, `Notes` builds the note segment. `CoreReader` and `NotesReader` are readers written from chapters 4 and 5
of the System V gABI ("ELF Header", "Program Header", "Note Section"), and find exactly what was to be dumped. `Attach`
is the loop that stops every thread of a process that keeps starting threads, and the cleanup on each path of a dump.

**Coordination.** `DumpProtocol` is the dump gate, the cancellation flag and the bounded counter; `StartBarrier` is the
creation, release, quitting and joining of a monitor's threads; `Orchestrator` is the loop that keeps one monitor per
process instance while process numbers are reused.

**Counters.** `Cursors` reads the shortest LEB128 numbers (DWARF 5, section 7.6), `NettraceBlock` parses event blocks,
`NettraceStream` the object stream around them. The two encoding modules show that the parsers accept exactly the
encodings of record and object lists, and `NettraceCancellation` what becomes of a monitor that is asked to quit while
it reads.

**Command line.** `Arguments` is the option parser over words, with word-level parsing as partial functions.
`ArgumentMeaning` says on the words alone, without the parser's own steps, which lines are accepted and what each option
of an accepted line does to the configuration, wherever it stands.

`Bytes`, `Pieces`, `Records` and `Sequences` hold shared vocabulary: little-endian integers, byte strings at positions,
zero-filled records written in place, lists without repetition and selections from them.

What the code does where its comments or names promise more:

- The size check in the probes is right for every element size only for counts up to 2^32 + 1; above that a wrapped
  partial product is accepted (`ArraySize.ExactIffCountBounded`).
- The wildcard matcher is wrong for some patterns as soon as the value has a `*` before its last byte
  (`Wildcard.ExactIffNoEarlyStar`).
- A core file with exactly 0xffff program headers is written without error but cannot be read: that count stands for a
  larger one kept elsewhere (`CoreReader.ReadsBack`; `CoreReader.MarkerUnreadable` is such a file).
- A session is taken out of the map but its monitor not asked to quit if and only if it cannot be told whether its
  process is alive (`Orchestrator.Orchestrator.FinishSession`). At the end of a run, well or not, every monitor started
  has been asked to quit if and only if none is left in the map and that could be told of each
  (`Orchestrator.Orchestrator.MonitorProcesses`). `Orchestrator.DroppedUnasked` is a run that asks none.
- A counter monitor that is asked to quit while it reads does not stop: each read then answers that it was interrupted,
  reading tries interrupted reads again, and the arm that would turn the interruption into a good end
  (crates/procdump/src/eventpipe.rs:45-50) is not reached. It reads for ever if and only if the bytes it had read by
  then are a part of the stream's opening, or the opening and whole objects that do not end the session and then no more
  than a part of one (`NettraceCancellation.WaitsIffCut`); between two objects, for example
  (`NettraceCancellation.IdleNeverEnds`).
- When `realloc(p, 0)` or `reallocarray(p, n, 0)` returns null and the output of its one event fails, nothing is
  counted; nor when the output fails for a refused `reallocarray` whose overflowing size the check takes for zero
  (`LeakLimits.UncountedIffGivesUp`; `LeakLimits.RefusedUncounted` is a run of the second kind).
- A free is reported when it returns. If its address was handed out again by then and that call's probe fired first,
  the new block is missing from the map (`LeakLimits.ReissueRightIffFreeFirst`).

## Model

| member | source | states |
|---|---|---|
| `LeakRuns.MapFollowsTheProbes` | crates/procdump/native/ebpf/procdump_ebpf.bpf.c:134-604 | in every state of every interleaving of calls whose sizes the probes get right, without sampling and unless an output was lost: each address holds in the map what the reports in the order of the outputs leave, and on the heap what the changes in their own order leave; the map is right if and only if these agree at every address |
| `LeakRuns.TrackerIsExact` | crates/procdump/native/ebpf/procdump_ebpf.bpf.c:134-604 | in every such interleaving in which, at each address but zero, the outputs are made in the order of the changes: once none is due and none was lost the map is exactly the live allocations with their last requested sizes, and no pending record is left once no call is in progress |
| `LeakLimits.ExactIffNotSampling` | crates/procdump/native/ebpf/procdump_ebpf.bpf.c:268-317 | the map is exact in every such run if and only if the sample rate is at most one |
| `LeakLimits.RightIffInOrder` | crates/procdump/native/ebpf/procdump_ebpf.bpf.c:134-217 | two calls change the heap at one address, the second before the first is reported there: after both are reported the map is right there if and only if that was in the order of the changes, or the two changes leave the same |
| `LeakLimits.ReissueRightIffFreeFirst` | crates/procdump/native/ebpf/procdump_ebpf.bpf.c:457-471 | an address handed out again by `malloc` while its `free` has not returned: after both probes the map is right there if and only if the probe of the `free` fired first; otherwise the live block is missing, and no loss is counted |
| `LeakLimits.OverflowingReallocArray` | crates/procdump/native/ebpf/procdump_ebpf.bpf.c:564-604 | a refused `reallocarray` of a live block whose size overflows leaves the map right if and only if the size check does not accept it with a total of zero, or the output reporting the block gone fails; the loss counter stays zero |
| `LeakLimits.WideCalloc` | crates/procdump/native/ebpf/procdump_ebpf.bpf.c:476-492 | a successful `calloc` of a new block leaves the map right, with count times size, if and only if its count is below 2^31, or modulo 2^32 it is and the elements are of size zero |
| `LeakLimits.UncountedIffGivesUp` | crates/procdump/native/ebpf/procdump_ebpf.bpf.c:150-170 | at any point of any run without sampling, whatever its calls, a failed output goes uncounted if and only if it was to report that `realloc(p, 0)`, or a `reallocarray` of nothing, gave up its block, or that a refused `reallocarray` did which the size check took for one of nothing |
| `LeakLimits.RefusedUncounted` | crates/procdump/native/ebpf/procdump_ebpf.bpf.c:150-170 | a run with `reallocarray(8, 2^62, 4)` in which an output fails, nothing is counted, and no block was given up |
| `LeakLimits.WrongAndUncountedIff` | crates/procdump/native/ebpf/procdump_ebpf.bpf.c:134-217 | any call the probes account for, made alone, whichever outputs fail: the map is wrong while the loss counter is zero if and only if a live block was reallocated to nothing and that output failed |
| `LeakLimits.NestedReallocSendsOnce` | crates/procdump/native/ebpf/procdump_ebpf.bpf.c:519-604 | the four probes of a `reallocarray` and the `realloc` inside it leave the kernel side exactly as that one `realloc` would |
| `LeakRuns.StepKeeps` | crates/procdump/native/ebpf/procdump_ebpf.bpf.c:322-604 | every probe of every call keeps the invariant that ties the pending records, the ring and the heap together |
| `LeakRuns.EntryArms` | crates/procdump/native/ebpf/procdump_ebpf.bpf.c:322-588 | an entry probe whose call is sampled, at any rate, or that of a release, changes only its thread's pending record, which then fits the call, and its processor's count of calls |
| `LeakRuns.DeliverCarries` | crates/procdump/native/ebpf/procdump_ebpf.bpf.c:134-217 | replaying what a return probe sends, none of it lost, does to each address of the map what the call did to the heap |
| `LeakRuns.FireEntry` | crates/procdump/native/ebpf/procdump_ebpf.bpf.c:322-588 | the entry probe attached to each call has the effect that the runs give it |
| `LeakRuns.FireReturn` | crates/procdump/native/ebpf/procdump_ebpf.bpf.c:333-604 | the return probe attached to each call has the effect of its two parts in the runs, one after the other |
| `LeakRuns.ReturnInTwo` | crates/procdump/native/ebpf/procdump_ebpf.bpf.c:134-217 | the parts into which the runs divide a return probe, up to its first output and the rest, make up the whole |
| `Probes.Program.SendEvent` | crates/procdump/native/ebpf/procdump_ebpf.bpf.c:134-217 | which events a return sends for each outcome (failed call, free, moved or emptied reallocation), what is counted when an output fails, and that the pending record is gone afterwards |
| `Probes.CallocRecords` | crates/procdump/native/ebpf/procdump_ebpf.bpf.c:476-492 | a sampled `calloc` entry with room for it leaves a pending allocation of the count modulo 2^32 times the size, if that residue is below 2^31 and the product fits 64 bits, and otherwise nothing; for a count below 2^31 the residue is the count |
| `Probes.ReallocArrayRecords` | crates/procdump/native/ebpf/procdump_ebpf.bpf.c:563-588 | a sampled `reallocarray` entry with room for it: nothing is recorded for counts from 2^63 on, and for counts up to 2^32 + 1 exactly count times size is, with the old block, if that fits 64 bits |
| `Probes.FullMapDrops` | crates/procdump/native/ebpf/procdump_ebpf.bpf.c:268-317 | while 10240 other calls are pending, an entry probe records nothing |
| `Probes.SamplesEveryRate` | crates/procdump/native/ebpf/procdump_ebpf.bpf.c:58-77 | whatever the mix of calls on the processors, each processor samples every rate-th of its own: samples times the rate, plus what the counter holds, is what it held plus the calls made there; at a rate of at most one it samples all of them |
| `Allocations.Collector.HandleEvent` | crates/procdump/src/restrack.rs:236-263 | a record inserts or removes one allocation, its stack being the frames before the first zero and within the record; anything else leaves the map alone |
| `Allocations.RecordReplays` | crates/procdump/src/restrack.rs:236-263 | handling the bytes of a record has the effect of the event the probes wrote |
| `Allocations.StackKept` | crates/procdump/src/restrack.rs:236-263 | the stack kept for an allocation is the part of the trace before its first zero, cut to as many frames of eight bytes as the number of bytes captured makes, and to the hundred of a record |
| `ArraySize.ExactIffCountBounded` | crates/procdump/native/ebpf/procdump_ebpf.bpf.c:98-109 | it gives the product exactly when that fits 64 bits, for every element size, if and only if the count is at most 2^32 + 1 |
| `ArraySize.AcceptedAsZero` | crates/procdump/native/ebpf/procdump_ebpf.bpf.c:98-109 | the check accepts a total of zero exactly when both halves of the size, times the count, vanish modulo 2^64 |
| `Wildcard.WildcardMatches` | crates/procdump/src/restrack.rs:470-492 | the loop ends, never accepts a value the pattern does not mean, and agrees with the recursive meaning of `*` for values without a `*` before their last byte, ignoring ASCII case |
| `Wildcard.Exact` | crates/procdump/src/restrack.rs:470-492 | soundness for all values, and equality with the declarative match for the values above |
| `Wildcard.ExactIffNoEarlyStar` | crates/procdump/src/restrack.rs:470-492 | for a given value the loop is right for every pattern if and only if the value has no `*` before its last byte |
| `Report.RenderReport` | crates/procdump/src/restrack.rs:331-379 | the report has exactly one entry for each size and stack held somewhere whose stack is not excluded, with the number of addresses that hold it and their product with the size, or 2^64 - 1 if that is less, in non-increasing order of it; the printed total is the smaller of 2^64 - 1 and the exact sum of the sizes that are not excluded |
| `Report.GroupsSumExactly` | crates/procdump/src/restrack.rs:331-338 | grouping preserves the sum of sizes, whatever order the map is visited in |
| `Report.Print` | crates/procdump/src/restrack.rs:352-379 | the saturating fold over the groups equals the saturated exact sum |
| `DumpProtocol.DumpsAreBounded` | crates/procdump/src/monitor.rs:52-107 | in every reachable state one permit holder at most, the counter within the limit, quitting only when cancelled, cancelled once the limit is reached and the permit dropped, and no more primary dumps than the limit plus the failed sidecars |
| `DumpProtocol.CancelledIffLimitReached` | crates/procdump/src/monitor.rs:87-105 | in every run in which nobody requests to quit from outside: quitting is requested only once the limit is reached, so while no permit is held if and only if it is |
| `DumpProtocol.WriteAlone` | crates/procdump/src/monitor.rs:52-90 | a call made alone does nothing once the limit is reached or quitting requested, or when a dump fails; otherwise it adds one dump to the count and, if that reaches the limit, requests quitting |
| `DumpProtocol.ExternalAlone` | crates/procdump/src/monitor.rs:93-107 | the same for a dump that was taken elsewhere, which is counted unless the limit is reached or quitting requested |
| `DumpProtocol.RequestQuitAlone` | crates/procdump/src/sync.rs:37-46 | a request to quit, whatever else is in progress, cancels what is under way and then has everybody quit |
| `DumpProtocol.GivesUpOnlyWithReason` | crates/procdump/src/monitor.rs:52-107 | in no run does a call return without a dump, or stop waiting for the gate, unless quitting was requested, the limit is reached, or its own dump or sidecar failed |
| `DumpProtocol.WaiterReturns` | crates/procdump/src/sync.rs:106-152 | once quitting has been requested, a call waiting for the permit returns as soon as it gets hold of the gate's mutex, whoever has the permit |
| `DumpProtocol.ReturnsBeforeGate` | crates/procdump/src/monitor.rs:52-58 | a call that finds the limit reached or quitting requested returns without waiting for the gate, even while another dump is under way |
| `DumpProtocol.StepKeeps` | crates/procdump/src/sync.rs:106-152 | every step of every thread keeps ownership of the gate and permit, the flags, and the counters consistent |
| `DumpProtocol.CounterNeverWraps` | crates/procdump/src/monitor.rs:52-107 | counting a dump never passes the limit, so the 32-bit counter never wraps |
| `DumpProtocol.AtMostOneAfterCancellation` | crates/procdump/src/sync.rs:37-46 | once quitting is requested, at most one more primary dump succeeds and one more dump is counted, whatever the threads do |
| `DumpProtocol.NeverStuck` | crates/procdump/src/sync.rs:106-152 | while a call is in progress some thread can step: no thread waits at the gate for one that waits too |
| `StartBarrier.NobodyStartsEarly` | crates/procdump/src/monitor.rs:175-321 | no worker passes the barrier unless every worker was created and the guard released them |
| `StartBarrier.NoLostWakeup` | crates/procdump/src/sync.rs:31-65 | a worker still blocked at the barrier is one that neither flag concerns |
| `StartBarrier.FailedStartJoinsAll` | crates/procdump/src/monitor.rs:130-163 | after a failed start every guarded worker saw the request to quit, ran nothing, and was joined |
| `StartBarrier.DrainingAdvances` | crates/procdump/src/monitor.rs:155-163 | the join loop of a failed start never hangs |
| `StartBarrier.WaitCollectsEveryThread` | crates/procdump/src/monitor.rs:332-362 | whether or not the owner asks the monitors to quit before, the final wait joins every thread exactly once, with quitting requested, and reports the first joined failure if there is one |
| `StartBarrier.NeverStuck` | crates/procdump/src/monitor.rs:130-362 | until the monitors have been waited for, or starting them has failed, a step that changes something is always left that needs no failure, no request from outside and no spurious wake-up |
| `StartBarrier.QuitsOnlyWithReason` | crates/procdump/src/monitor.rs:175-362 | if nothing fails to start and nobody requests to quit, no worker is told to quit before another has ended and been joined |
| `StartBarrier.RequestCompletes` | crates/procdump/src/sync.rs:37-46 | a request to quit once begun can be finished at any time, and then leaves quitting requested and no worker blocked |
| `CoreWriter.PlanFacts` | crates/procdump/src/corex/elf.rs:34-63 | in a layout the first mapping's bytes begin after the notes and each other's where the last ones end |
| `CoreFile.PlanOkIff` | crates/procdump/src/corex/elf.rs:34-63 | a file is laid out if and only if fewer than 65535 mappings are to be dumped, none of them ends before it starts, the page size is not zero, and no offset passes 2^64 |
| `CoreFile.DumpedPicks` | crates/procdump/src/corex/elf.rs:34-38 | dumped are, in order, exactly the mappings marked for it |
| `CoreFile.BuildElfHeader` | crates/procdump/src/corex/elf.rs:115-129 | the 64 bytes written in place are the header's fields at their offsets and zeroes elsewhere |
| `CoreFile.BuildProgramHeader` | crates/procdump/src/corex/elf.rs:131-149 | the same for the 56 bytes of a program header |
| `CoreFile.OffsetsAscend` | crates/procdump/src/corex/elf.rs:54-63 | the segments' ranges are in order and do not overlap |
| `CoreWriter.WriteMapping` | crates/procdump/src/corex/elf.rs:151-189 | on success exactly the mapping's size is written; byte k is the memory byte at start + k, or zero exactly when its chunk, of at most 1 MiB, could not be read; it fails if and only if the mapping ends before it starts, a write was refused, a read failed, or cancellation was noticed, and names that |
| `CoreWriter.WriteZeroes` | crates/procdump/src/corex/elf.rs:201-211 | exactly that many zeroes are appended, unless a write is refused |
| `CoreWriter.WriteInner` | crates/procdump/src/corex/elf.rs:27-113 | it succeeds if and only if there is a layout and nothing is refused, fails to be read, cannot be flushed, or is cancelled, and otherwise names what went wrong, a layout error before anything is written; on success the file is header, program headers, notes, padding and the mappings' bytes |
| `CoreWriter.Write` | crates/procdump/src/corex/elf.rs:13-25 | a failed dump leaves no file, unless removing it fails; what failed is told as above |
| `CoreReader.ReadsBack` | crates/procdump/src/corex/elf.rs:27-149 | a gABI reader finds exactly the notes and, in order, each dumped mapping's start, flags, size and bytes, and fails exactly when the header count is 0xffff |
| `CoreReader.ReadsEachMapping` | crates/procdump/src/corex/elf.rs:27-189 | without the writer's own selection: a reader finds one segment for each mapping marked to be dumped, in order and no other, with its start, flags and size, and byte by byte its memory, or zero exactly where a chunk could not be read; it finds nothing exactly when 65534 mappings are marked |
| `CoreReader.ReadsNoteHeader` | crates/procdump/src/corex/elf.rs:65-84 | the first program header is that of the notes, behind all headers, with type 4 and alignment 4, and no address |
| `CoreReader.MarkerUnreadable` | crates/procdump/src/corex/elf.rs:34-43 | a process of 65534 one-page mappings has a core file, whatever its notes (below 4 GiB) and memory, that the reader refuses |
| `CoreReader.ReadsElfHeader` | crates/procdump/src/corex/elf.rs:115-129 | the header identifies a 64-bit little-endian core file with that many program headers and no sections |
| `CoreReader.LoadsWhereWritten` | crates/procdump/src/corex/elf.rs:54-63 | every load header points at where that mapping's bytes really are, inside the file, after the notes, before the next range |
| `CoreReader.CongruentIffPagesMeet` | crates/procdump/src/corex/elf.rs:222-230 | offsets and addresses agree modulo the page size if and only if the mappings fit together page by page |
| `CoreReader.AlignedLoadsCongruent` | crates/procdump/src/corex/elf.rs:54-63 | so they agree whenever the dumped mappings begin and end on page boundaries |
| `Notes.Build` | crates/procdump/src/corex/notes.rs:13-39 | the first problem in order is reported; otherwise the bytes are the encodings of the threads' and the process's notes in order, a multiple of four long |
| `Notes.NoteBuffer.Append` | crates/procdump/src/corex/notes.rs:41-62 | one note is appended, padded, and the buffer ends on a four-byte boundary again; too large a descriptor is refused and changes nothing |
| `Notes.BuildStatus` | crates/procdump/src/corex/notes.rs:64-81 | a register set of the wrong size is refused; otherwise the ids and registers are at their offsets |
| `Notes.BuildArguments` | crates/procdump/src/corex/notes.rs:94-104 | at most 79 bytes of the command line, separators as spaces, none at the end |
| `Notes.BuildFileNote` | crates/procdump/src/corex/notes.rs:107-130 | nothing without named mappings; otherwise count, page size, ranges with page offsets, and terminated paths, appended one by one |
| `NotesReader.SegmentReadsBack` | crates/procdump/src/corex/notes.rs:13-62 | a gABI reader finds exactly the expected owners, types and descriptors in order, for any process and threads |
| `NotesReader.StatusReads` | crates/procdump/src/corex/notes.rs:64-81 | the thread id, process id (in two's complement) and registers are at offsets 32, 36 to 47 and 112 to 327 of 336 bytes, as in the kernel's structure |
| `NotesReader.MaskReads` | crates/procdump/src/corex/notes.rs:23-28 | a pointer-authentication note is the two masks in order |
| `NotesReader.InfoReads` | crates/procdump/src/corex/notes.rs:83-105 | the identities are where the kernel's structure has them; the name reads back as its first 15 bytes if and only if these hold no zero; the command line reads back as its first 79 bytes with separators as spaces, without those at the end |
| `NotesReader.FileNoteReads` | crates/procdump/src/corex/notes.rs:107-130 | there is a file note if and only if some path begins with a slash; it decodes to page size and, for exactly these mappings in order, ranges, page offsets and paths, if and only if none of the paths holds a zero byte |
| `Attach.AttachedThreads.Collect` | crates/procdump/src/corex/ptrace.rs:22-42 | if the loop succeeds every thread of the process is stopped and held, although threads could start others between any two system calls; the loop ends; what is held is exactly what was attached; if it fails the error names what happened: no listing, no thread, a thread that may not be attached to, a wait that was answered so, or cancellation |
| `Attach.AttachProcess` | crates/procdump/src/corex/ptrace.rs:22-47 | on success all threads are stopped, the list is sorted with the leader first; on failure each attached thread is offered to detach once, and the error names what happened |
| `Attach.AttachedThreads.AttachOne` | crates/procdump/src/corex/ptrace.rs:34-41 | a thread that is gone is passed over, one that is there is attached to unless cancellation was noticed or attaching is refused; it is in the guard before waiting for it can fail |
| `Attach.WaitStopped` | crates/procdump/src/corex/ptrace.rs:139-173 | the result follows from the answers: stopped, ended and broken as soon as one says so, a timeout with the 1001st that says not yet, ten seconds having been slept, and cancellation if it was noticed in between |
| `Attach.AttachedThreads.DetachAll` | crates/procdump/src/corex/ptrace.rs:57-79 | every thread is offered to detach once, last first; those that fail are kept and the first failure is reported |
| `Attach.AttachedThreads.Finish` | crates/procdump/src/corex/ptrace.rs:53-88 | what failed is tried exactly once more when the guard is dropped |
| `Attach.DumpPid` | crates/procdump/src/corex/mod.rs:48-69 | on every path each attached thread is offered to detach exactly once, and only those that failed after writing once more; at each step in between every thread the process has is stopped and was attached to, though the process runs on as far as it can; what is reported follows from how each step ended |
| `Attach.SortedThreads` | crates/procdump/src/corex/procfs.rs:25-25 | sorting keeps the threads, puts the leader first and the others in order |
| `Cursors.AcceptsExactlyShortest` | crates/procdump/src/eventpipe.rs:628-661 | a number is read exactly from the shortest LEB128 encodings of the numbers in range, taking exactly its bytes |
| `Cursors.EncodingsDistinct` | crates/procdump/src/eventpipe.rs:628-661 | no two numbers share an encoding and none begins another |
| `Cursors.Cursor.ReadVarU32` | crates/procdump/src/eventpipe.rs:628-644 | the 32-bit reading loop computes that decoding and advances by its length |
| `Cursors.Cursor.ReadVarU64` | crates/procdump/src/eventpipe.rs:645-661 | the 64-bit reading loop likewise |
| `NettraceBlock.ParseBlock` | crates/procdump/src/eventpipe.rs:493-583 | which events are reported, in order, and whether the block was whole, for any bytes |
| `NettraceBlock.ReadHead` | crates/procdump/src/eventpipe.rs:511-557 | a record's optional fields by its flag bits, with the id and size carried from the record before |
| `NettraceEncoding.FlagsRead` | crates/procdump/src/eventpipe.rs:509-557 | the flag byte whose binary digits 1, 2, 4, 8, 16, 32 and 128 say which fields follow is read as saying just that |
| `NettraceBlock.SlicesInBoundsAndDisjoint` | crates/procdump/src/eventpipe.rs:493-583 | on any bytes every reported slice is inside the block, after the header, and after the slice before it |
| `NettraceEncoding.AcceptsExactlyEncodings` | crates/procdump/src/eventpipe.rs:493-583 | a block is accepted if and only if it is a sound header followed by the encoding of some record list, compressed or plain |
| `NettraceEncoding.CompressedRoundTrip` | crates/procdump/src/eventpipe.rs:511-557 | the callback sees exactly the encoded ids and payloads, for every choice of which fields a record sends, including repeated ids and sizes that are left out |
| `NettraceEncoding.PlainRoundTrip` | crates/procdump/src/eventpipe.rs:557-581 | the same for uncompressed records, where ids have 31 bits and up to 79 bytes may trail |
| `NettraceStream.Stream.RunCounterMonitor` | crates/procdump/src/eventpipe.rs:110-214 | however the reads split the stream and however often interrupted ones are tried again, the loop hands out the blocks and ends as the stream says; its own position always equals the bytes consumed since the magic |
| `NettraceStream.Stream.ReadContent` | crates/procdump/src/eventpipe.rs:157-175 | trace headers of 32 or 48 bytes, block sizes from 1 to 16 MiB, and padding to four bytes of the stream position |
| `NettraceStream.Stream.ReadSerializedString` | crates/procdump/src/eventpipe.rs:708-718 | strings of 1 to 1048576 bytes that are UTF-8; the errors otherwise |
| `NettraceStream.Stream.SkipExact` | crates/procdump/src/eventpipe.rs:720-730 | exactly that many bytes are consumed, or reading fails |
| `NettraceStream.Stream.ReadExact` | crates/procdump/src/eventpipe.rs:664-690 | whatever the pieces in which reads answer, exactly the next bytes are delivered, or how the stream ends is reported; an interrupted read is tried again |
| `NettraceCancellation.EndsIffDecided` | crates/procdump/src/eventpipe.rs:664-690 | a monitor asked to quit ends if and only if the bytes read by then decide its session, whichever way the stream could have gone on |
| `NettraceCancellation.WaitsIffCut` | crates/procdump/src/eventpipe.rs:110-214 | a monitor asked to quit reads for ever if and only if the bytes read by then are a part of the opening, or the opening, whole objects that do not end the session, and then none or a part of one, all fields before the missing one being sound |
| `NettraceCancellation.IdleNeverEnds` | crates/procdump/src/eventpipe.rs:664-690 | asked to quit between two objects it reads for ever |
| `NettraceStreamEncoding.DecodesItsEncoding` | crates/procdump/src/eventpipe.rs:110-214 | from the encoding of any object list exactly its blocks are handed out, in order, up to the first that ends the session, whatever follows |
| `NettraceStreamEncoding.AcceptsExactlyEncodings` | crates/procdump/src/eventpipe.rs:110-214 | a session succeeds, having handed out certain blocks, if and only if the stream encodes objects with these blocks, all of which parse and none ends the session, and then its own end, or one more object whose block does |
| `Orchestrator.StartedOnceIffNoneReturns` | crates/procdump/src/orchestrator.rs:152-184 | no process instance is started twice if and only if no replaced instance is seen again |
| `Orchestrator.Orchestrator.StartOne` | crates/procdump/src/orchestrator.rs:152-184 | after each discovered process the two maps are in step and what was started is exactly each change of instance under a process number |
| `Orchestrator.Orchestrator.ReapFinished` | crates/procdump/src/orchestrator.rs:188-212 | exactly the sessions that were done or whose process was gone when looked at are removed and finished |
| `Orchestrator.Orchestrator.FinishSession` | crates/procdump/src/orchestrator.rs:214-251 | a monitor's failure counts only while its process is alive; the monitor is asked to quit if and only if it can be told whether it is |
| `Orchestrator.Orchestrator.Round` | crates/procdump/src/orchestrator.rs:75-100 | a round reaps once, looks for new processes once unless a single one is monitored, and sees to all it finds; it fails with the first thing that goes wrong and only then; it says that nothing is left to watch exactly when no session is, unless processes are awaited by name |
| `Orchestrator.Orchestrator.MonitorProcesses` | crates/procdump/src/orchestrator.rs:71-109 | when a run ends well every started session was finished and asked to quit exactly once, every process found in any round was seen to, and there were as many rounds as the answers whether to quit allow; however it ends, each monitor was asked if and only if it was finished and its process could then be told alive or dead, so all were if and only if none is left and that could be told of each; it fails if and only if something goes wrong, with the first thing that does, or a group has no process to begin with |
| `Orchestrator.AskedIff` | crates/procdump/src/orchestrator.rs:214-251 | of any books kept by the run: each monitor started was asked to quit if and only if it was finished and the answer whether its process was alive was not unknown |
| `Orchestrator.DroppedUnasked` | crates/procdump/src/orchestrator.rs:218-222 | a whole run, in any mode, in a world where aliveness is never told: it starts a monitor and asks none to quit |
| `Arguments.ParseArguments` | crates/procdump/src/config.rs:764-1090 | the single pass over the words accepts exactly the lines whose options can be read one after the other, taken in order, and pass the checks on the whole line |
| `Arguments.RunReadsThenApplies` | crates/procdump/src/config.rs:764-968 | reading and applying option by option is the same as reading all options and then applying them |
| `Arguments.OrderDoesNotMatter` | crates/procdump/src/config.rs:764-968 | exchanging two neighbouring complete options leaves acceptance and the configuration unchanged, up to the order of two counters; positional words, `-log` options and a positional `nodump` excepted |
| `Arguments.NoDumpIsTaken` | crates/procdump/src/config.rs:824-836 | a positional `nodump` right after `-restrack` is taken as its value, so it cannot be moved there |
| `Arguments.AcceptedLines` | crates/procdump/src/config.rs:970-1090 | what every accepted configuration guarantees: exclusive triggers stand alone, thresholds fix the number of dumps, filters and sampling come with what they apply to |
| `ArgumentMeaning.AcceptedIff` | crates/procdump/src/config.rs:764-1090 | a line is accepted if and only if, on its words: each option has values that can be read and make sense, no two options exclude each other, there are at most five counters, the words that are no options name a target and an output that suits it, a filter comes with the exception trigger, and sampling and exclusion with tracking |
| `ArgumentMeaning.OptionMeans` | crates/procdump/src/config.rs:764-968 | each option of an accepted line, wherever it stands, gives its field of the configuration the value read from the word after it, with the direction its name says |
| `ArgumentMeaning.AbsentMeans` | crates/procdump/src/config.rs:970-1090 | a field none of whose options is on an accepted line has its default |
| `ArgumentMeaning.RestMeans` | crates/procdump/src/config.rs:764-1090 | target and output come from the words that are no options, counters are all those given, in order, the log is the last one named, and the timer is on exactly when no other trigger is, or tracking is timed |

## Left out

- Attach.WaitStopped: time passes only by sleeping; interruptions of the wait are taken to be finitely many, since the program puts no bound on them.
- Attach.AttachedThreads.Collect: one directory listing is taken to be atomic and thread numbers are not reused during an attach.
- Arguments.ParseArguments: which error is reported when a line is refused is not modelled; an option's value is read before it is compared with earlier options.
- CoreFile.Plan: which of the errors of a layout is reported is not stated apart from the function's own order.
- Probes.Program.SendEvent: the scratch record on the per-processor heap and the filter by process-id namespace are not modelled; a return the filter drops is no action.
- Between two outputs, what a probe does is one step of a run, as it concerns only its own thread and atomic counters.
- Nested calls other than `realloc` inside `reallocarray`, such as `mmap` inside `malloc`, and unmapping part of a mapping: the tracker is not exact for them.
- The loss counter wrapping at 2^64, and the accuracy of a sampled report.
- Critical sections under a mutex are single steps in the transition systems; mutexes are never poisoned.
- Symbolization of stacks, `/proc` text parsing, the dump filter over mappings (`apply_coredump_filter`), reading registers, and the 64-bit Arm sizes.
- The metadata and counter values inside event payloads, quantiles, and floating-point comparisons; the trigger loops that poll CPU, memory and counts.
- UTF-8 and UTF-16 validity (a predicate over bytes), number syntax and path handling (partial functions of a word).
- Clocks, sockets, process discovery by name or group, and spawning `gcore`: their outcomes are parameters.
- The profiler library, the C interface, the command-line texts, the macOS backend and the build scripts.
