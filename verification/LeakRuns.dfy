/** Whole runs: threads calling the allocator, the probes, and the map user space ends up with. */
module LeakRuns {
  import opened Bytes
  import opened Probes
  import opened Allocations
  import ArraySize

  datatype Call =
    | Malloc(size: u64)
    | Calloc(count: u64, size: u64)
    | Realloc(ptr: u64, size: u64)
    | ReallocArray(ptr: u64, count: u64, size: u64)
    | Free(ptr: u64)
    | Mmap(size: u64)
    | Munmap(ptr: u64)

  // ----- what the calls do to the heap

  type Heap = map<u64, nat>

  /** A completed call takes addresses away and may add one with its size. */
  datatype Change = Change(removed: set<u64>, added: Option<u64>, size: nat)

  const NOTHING := Change({}, None, 0)

  function ReallocChange(ptr: u64, size: nat, result: u64): Change {
    if result != 0 then Change(if ptr != 0 then {ptr} else {}, Some(result), size)
    else if size == 0 && ptr != 0 then Change({ptr}, None, 0)
    else NOTHING
  }

  function Product(count: nat, size: nat): nat {
    count * size
  }

  function ChangeOf(call: Call, result: u64): Change {
    match call
    case Malloc(size) => if result != 0 then Change({}, Some(result), size) else NOTHING
    case Calloc(count, size) => if result != 0 then Change({}, Some(result), Product(count, size)) else NOTHING
    case Realloc(ptr, size) => ReallocChange(ptr, size, result)
    case ReallocArray(ptr, count, size) =>
      if Overflows(count, size) then NOTHING else ReallocChange(ptr, Product(count, size), result)
    case Free(ptr) => Change({ptr}, None, 0)
    case Mmap(size) => if result != 0xffff_ffff_ffff_ffff then Change({}, Some(result), size) else NOTHING
    case Munmap(ptr) => if result == 0 then Change({ptr}, None, 0) else NOTHING
  }

  predicate Overflows(count: u64, size: u64) {
    count * size >= 0x1_0000_0000_0000_0000
  }

  /** What the C library and the kernel may answer: an array size that overflows is refused,
      and nothing is mapped at address zero. */
  predicate Plausible(call: Call, result: u64) {
    match call
    case Calloc(count, size) => Overflows(count, size) ==> result == 0
    case ReallocArray(_, count, size) => Overflows(count, size) ==> result == 0
    case Mmap(_) => result != 0
    case _ => true
  }

  function Changed(heap: Heap, c: Change): Heap {
    var kept := heap - c.removed;
    if c.added.Some? then kept[c.added.value := c.size] else kept
  }

  function Touched(c: Change): set<u64> {
    c.removed + if c.added.Some? then {c.added.value} else {}
  }

  /** A change that takes one address away and adds another is reported in two outputs: this is the first, */
  function Gained(c: Change): Change {
    Change({}, c.added, c.size)
  }

  /** and this the second. */
  function Freed(c: Change): Change {
    Change(c.removed, None, 0)
  }

  predicate Moves(c: Change) {
    c.added.Some? && c.removed != {} && c.added.value !in c.removed
  }

  /** An overflowing `reallocarray` of a block, which is refused, but which the size check accepts as one of nothing. */
  predicate PassesAsNothing(call: Call) {
    && call.ReallocArray? && call.ptr != 0 && Overflows(call.count, call.size)
    && call.count < 0x8000_0000_0000_0000 && ArraySize.Checked(call.size, call.count) == Some(0)
  }

  /** The calls the probes can account for exactly. A `calloc` count must survive the cast to a C int, unless the call
      fails or asks for nothing; and an overflowing `reallocarray` must not pass for one of nothing. */
  predicate Accountable(call: Call, result: u64) {
    && (call.Calloc? && result != 0 ==>
          call.count < 0x8000_0000 || (call.count % 0x1_0000_0000 < 0x8000_0000 && call.size == 0))
    && !PassesAsNothing(call)
  }

  // ----- threads

  /** `reallocarray` calls `realloc` unless its size overflows; the other calls do not nest. */
  predicate Nests(call: Call) {
    call.ReallocArray? && !Overflows(call.count, call.size)
  }

  /** Outer: entered, about to make its nested call. Inner: the working call's entry probe ran.
      Committed: the heap has changed, as the `at`-th change of the run, and the return probe is due.
      Halfway: its first output has been made, and a second is due. Unwinding: only the nested call has returned. */
  datatype Thread =
    | Outer(call: Call)
    | Inner(call: Call)
    | Committed(call: Call, result: u64, at: nat)
    | Halfway(call: Call, result: u64, at: nat)
    | Unwinding(call: Call, result: u64)

  /** The kernel side, the heap, the threads inside a call, the failed outputs that no counter saw, and the changes
      so far: as the heap saw them, and as the return probes output them. */
  datatype World = World(kernel: Kernel, heap: Heap, threads: map<Tid, Thread>, uncounted: nat,
                         changes: seq<Change>, reported: seq<Change>)

  datatype Action =
    | Enter(tid: Tid, call: Call, cpu: nat, stack: Stack)
    | Nest(tid: Tid, cpu: nat, stack: Stack)
    | Commit(tid: Tid, result: u64)
    | Deliver(tid: Tid, first: bool)     // a return probe, up to the end of its first output
    | Follow(tid: Tid, second: bool)     // the rest of it, with its second output
    | Leave(tid: Tid, first: bool, second: bool)

  datatype Settings = Settings(pid: u64, rate: int)

  const START := World(EMPTY, map[], map[], 0, [], [])

  function EntryProbe(k: Kernel, s: Settings, a: Action): Kernel
    requires a.Enter?
  {
    match a.call
    case Malloc(size) => AllocEntered(k, s.pid, s.rate, a.cpu, a.tid, size, a.stack)
    case Calloc(count, size) => CallocEntered(k, s.pid, s.rate, a.cpu, a.tid, count, size, a.stack)
    case Realloc(ptr, size) => ReallocEntered(k, s.pid, s.rate, a.cpu, a.tid, ptr, size, a.stack)
    case ReallocArray(ptr, count, size) =>
      ReallocArrayEntered(k, s.pid, s.rate, a.cpu, a.tid, ptr, count, size, a.stack)
    case Free(ptr) => Recorded(k, a.tid, FreeEvent(s.pid, ptr))
    case Mmap(size) => AllocEntered(k, s.pid, s.rate, a.cpu, a.tid, size, a.stack)
    case Munmap(ptr) => Recorded(k, a.tid, FreeEvent(s.pid, ptr))
  }

  function ReturnProbe(k: Kernel, tid: Tid, call: Call, result: u64, first: bool, second: bool): Kernel {
    match call
    case Free(_) => Sent(k, tid, 0, true, first, second)
    case Mmap(_) => MmapReturned(k, tid, result, first, second)
    case Munmap(_) => MunmapReturned(k, tid, result, first, second)
    case _ => Sent(k, tid, result, false, first, second)
  }

  /** A return probe up to the end of its first output. */
  function FirstReturn(k: Kernel, tid: Tid, call: Call, result: u64, first: bool): Kernel {
    match call
    case Free(_) => FirstSent(k, tid, 0, true, first)
    case Mmap(_) => if result == MAP_FAILED then Discarded(k, tid) else FirstSent(k, tid, result, false, first)
    case Munmap(_) => if result == 0 then FirstSent(k, tid, 0, true, first) else Discarded(k, tid)
    case _ => FirstSent(k, tid, result, false, first)
  }

  /** An output failed that the loss counter does not see. */
  predicate LostSilently(k: Kernel, tid: Tid, call: Call, result: u64, first: bool) {
    && (call.Malloc? || call.Calloc? || call.Realloc? || call.ReallocArray?)
    && tid in k.args && Uncounted(k.args[tid], result, false) && !first
  }

  predicate Enabled(w: World, a: Action) {
    match a
    case Enter(tid, _, _, _) => tid !in w.threads
    case Nest(tid, _, _) => tid in w.threads && w.threads[tid].Outer?
    case Commit(tid, result) => tid in w.threads && w.threads[tid].Inner? && Plausible(w.threads[tid].call, result)
    case Deliver(tid, _) => tid in w.threads && w.threads[tid].Committed?
    case Follow(tid, _) => tid in w.threads && w.threads[tid].Halfway?
    case Leave(tid, _, _) => tid in w.threads && w.threads[tid].Unwinding?
  }

  function Next(w: World, s: Settings, a: Action): World
    requires Enabled(w, a)
  {
    match a
    case Enter(tid, call, _, _) =>
      w.(kernel := EntryProbe(w.kernel, s, a),
         threads := w.threads[tid := if Nests(call) then Outer(call) else Inner(call)])
    case Nest(tid, cpu, stack) =>
      var call := w.threads[tid].call;
      w.(kernel := if call.ReallocArray?
                   then ReallocEntered(w.kernel, s.pid, s.rate, cpu, tid, call.ptr, Wrapped(call), stack)
                   else w.kernel,
         threads := w.threads[tid := Inner(call)])
    case Commit(tid, result) =>
      var call := w.threads[tid].call;
      w.(heap := Changed(w.heap, ChangeOf(call, result)),
         threads := w.threads[tid := Committed(call, result, |w.changes|)],
         changes := w.changes + [ChangeOf(call, result)])
    case Deliver(tid, first) =>
      var t := w.threads[tid];
      var c := ChangeOf(t.call, t.result);
      var more := first && Moves(c);
      w.(kernel := FirstReturn(w.kernel, tid, t.call, t.result, first),
         threads := if more then w.threads[tid := Halfway(t.call, t.result, t.at)] else Returned(w.threads, tid),
         uncounted := w.uncounted + (if LostSilently(w.kernel, tid, t.call, t.result, first) then 1 else 0),
         reported := w.reported + [if more then Gained(c) else c])
    case Follow(tid, second) =>
      var t := w.threads[tid];
      w.(kernel := SecondSent(w.kernel, tid, second),
         threads := Returned(w.threads, tid),
         reported := w.reported + [Freed(ChangeOf(t.call, t.result))])
    case Leave(tid, first, second) =>
      // the return probe of reallocarray itself
      w.(kernel := Sent(w.kernel, tid, w.threads[tid].result, false, first, second), threads := w.threads - {tid})
  }

  /** The working call's return probe is done. */
  function Returned(threads: map<Tid, Thread>, tid: Tid): map<Tid, Thread>
    requires tid in threads && (threads[tid].Committed? || threads[tid].Halfway?)
  {
    var t := threads[tid];
    if Nests(t.call) then threads[tid := Unwinding(t.call, t.result)] else threads - {tid}
  }

  /** The size the nested call is made with. */
  function Wrapped(call: Call): u64
    requires call.ReallocArray?
  {
    ArraySize.Wrap(call.count * call.size)
  }

  // ----- runs

  /** What the pending records need. */
  predicate HasSpace(w: World, a: Action) {
    a.Enter? ==> |w.threads| < 10240
  }

  /** Any run whose pending records fit. */
  predicate Possible(w: World, s: Settings, actions: seq<Action>)
    decreases |actions|
  {
    actions == [] ||
    (Enabled(w, actions[0]) && HasSpace(w, actions[0]) && Possible(Next(w, s, actions[0]), s, actions[1..]))
  }

  /** Room, and calls that the probes can account for. */
  predicate Respected(w: World, a: Action)
    requires Enabled(w, a)
  {
    HasSpace(w, a) && (a.Commit? ==> Accountable(w.threads[a.tid].call, a.result))
  }

  /** A run of such calls. */
  predicate Legal(w: World, s: Settings, actions: seq<Action>): (legal: bool)
    ensures legal ==> Possible(w, s, actions)
    decreases |actions|
  {
    actions == [] ||
    (Enabled(w, actions[0]) && Respected(w, actions[0]) && Legal(Next(w, s, actions[0]), s, actions[1..]))
  }

  function Run(w: World, s: Settings, actions: seq<Action>): World
    requires Possible(w, s, actions)
    decreases |actions|
  {
    if actions == [] then w else Run(Next(w, s, actions[0]), s, actions[1..])
  }

  predicate IsCommitted(w: World, tid: Tid) {
    tid in w.threads && w.threads[tid].Committed?
  }

  /** A return probe is due, or its second output is. */
  predicate IsDue(w: World, tid: Tid) {
    tid in w.threads && (w.threads[tid].Committed? || w.threads[tid].Halfway?)
  }

  /** What is still to be reported of the change a call made. */
  function Pending(w: World, tid: Tid): Change
    requires IsDue(w, tid)
  {
    var c := ChangeOf(w.threads[tid].call, w.threads[tid].result);
    if w.threads[tid].Halfway? then Freed(c) else c
  }

  /** What the next output reports of it; if it fails, there is no other. */
  function Reports(w: World, tid: Tid, first: bool): Change
    requires IsDue(w, tid)
  {
    if first && Moves(Pending(w, tid)) then Gained(Pending(w, tid)) else Pending(w, tid)
  }

  // ----- sizes at one address

  function SizeIn(heap: Heap, a: u64): Option<nat> {
    if a in heap then Some(heap[a]) else None
  }

  function SizeOf(m: Tracked, a: u64): Option<nat> {
    if a in m then Some(m[a].size) else None
  }

  /** What a change that touches the address leaves there. */
  function LeftBy(c: Change, a: u64): Option<nat> {
    if c.added == Some(a) then Some(c.size) else None
  }

  /** What a list of changes leaves at the address: the last one to touch it decides. */
  function Leaves(changes: seq<Change>, a: u64): Option<nat> {
    if changes == [] then None
    else
      var last := changes[|changes| - 1];
      if a in Touched(last) then LeftBy(last, a) else Leaves(changes[..|changes| - 1], a)
  }

  lemma LeavesLast(changes: seq<Change>, c: Change, a: u64)
    ensures Leaves(changes + [c], a) == if a in Touched(c) then LeftBy(c, a) else Leaves(changes, a)
  {
    assert (changes + [c])[..|changes|] == changes;
  }

  /** The map user space holds once it has drained the ring. */
  function Map(w: World): Tracked {
    Replay(w.kernel.ring)
  }

  predicate Agree(m: Tracked, heap: Heap) {
    && m.Keys == heap.Keys
    && forall a :: a in heap ==> m[a].size == heap[a]
  }

  predicate Agrees(w: World) {
    Agree(Map(w), w.heap)
  }

  lemma AgreePointwise(m: Tracked, heap: Heap)
    ensures Agree(m, heap) <==> forall a :: SizeOf(m, a) == SizeIn(heap, a)
  {
    if forall a :: SizeOf(m, a) == SizeIn(heap, a) {
      forall a: u64 ensures a in m <==> a in heap {
        assert SizeOf(m, a) == SizeIn(heap, a);
      }
      forall a | a in heap ensures m[a].size == heap[a] {
        assert SizeOf(m, a) == SizeIn(heap, a);
      }
    }
  }

  // ----- the invariant

  predicate IsAlloc(args: map<Tid, Event>, tid: Tid, size: nat, previous: u64) {
    tid in args && args[tid].kind == Alloc && args[tid].size == size && args[tid].previous == previous
  }

  /** What the argument map holds for a thread inside a working call. */
  predicate Armed(args: map<Tid, Event>, tid: Tid, call: Call) {
    match call
    case Malloc(size) => IsAlloc(args, tid, size, 0)
    case Mmap(size) => IsAlloc(args, tid, size, 0)
    case Calloc(count, size) =>
      (match ArrayTotal(size, AsInt(count))
       case None => tid !in args
       case Some(total) => IsAlloc(args, tid, total, 0))
    case Realloc(ptr, size) => IsAlloc(args, tid, size, ptr)
    case ReallocArray(ptr, count, size) =>
      if !Overflows(count, size) then IsAlloc(args, tid, count * size, ptr)
      else (match ArrayTotal(size, AsLong(count))
            case None => tid !in args
            case Some(total) => IsAlloc(args, tid, total, ptr))
    case Free(ptr) => tid in args && args[tid].kind == Kind.Free && args[tid].address == ptr
    case Munmap(ptr) => tid in args && args[tid].kind == Kind.Free && args[tid].address == ptr
  }

  ghost predicate ThreadOk(w: World, tid: Tid)
    requires tid in w.threads
  {
    match w.threads[tid]
    case Outer(call) => Nests(call)
    case Inner(call) => Armed(w.kernel.args, tid, call)
    case Committed(call, result, at) => Armed(w.kernel.args, tid, call) && Plausible(call, result) && at < |w.changes|
    case Halfway(call, result, at) =>
      && Armed(w.kernel.args, tid, call) && Plausible(call, result) && at < |w.changes|
      && Moves(ChangeOf(call, result))
    case Unwinding(call, _) => tid !in w.kernel.args
  }

  /** The pending records are those of the calls in progress, and there is room for them. */
  ghost predicate Fits(w: World) {
    && w.kernel.args.Keys <= w.threads.Keys
    && |w.threads| <= ARGS_HASH_SIZE
    && (forall t :: t in w.threads ==> ThreadOk(w, t))
  }

  ghost predicate AllAccountable(w: World) {
    forall t :: IsDue(w, t) ==> Accountable(w.threads[t].call, w.threads[t].result)
  }

  predicate Lossless(w: World) {
    w.kernel.lost == 0 && w.uncounted == 0
  }

  /** The heap is what its changes leave. */
  ghost predicate HeapFollows(w: World) {
    forall a :: SizeIn(w.heap, a) == Leaves(w.changes, a)
  }

  /** The map is what the changes leave in the order of the outputs. */
  ghost predicate MapFollows(w: World) {
    forall a :: SizeOf(Map(w), a) == Leaves(w.reported, a)
  }

  /** Nothing is ever allocated at address zero. */
  ghost predicate NothingAtZero(w: World) {
    Leaves(w.changes, 0) == None && Leaves(w.reported, 0) == None
  }

  ghost predicate Inv(w: World) {
    && Fits(w)
    && AllAccountable(w)
    && HeapFollows(w)
    && NothingAtZero(w)
    && (Lossless(w) ==> MapFollows(w))
  }

  lemma FewArguments(args: map<Tid, Event>, tids: set<Tid>)
    requires args.Keys <= tids
    ensures |args| <= |tids|
  {
    var rest := tids - args.Keys;
    assert tids == args.Keys + rest;
    assert |tids| == |args.Keys| + |rest|;
  }

  lemma KeysShrink(threads: map<Tid, Thread>, tid: Tid)
    requires tid in threads
    ensures |threads - {tid}| == |threads| - 1
  {
    assert (threads - {tid}).Keys == threads.Keys - {tid};
  }

  lemma HasRoom(w: World, tid: Tid)
    requires w.kernel.args.Keys <= w.threads.Keys
    requires if tid in w.threads then |w.threads| <= ARGS_HASH_SIZE else |w.threads| < ARGS_HASH_SIZE
    ensures RoomFor(w.kernel.args, tid)
  {
    if tid !in w.kernel.args {
      FewArguments(w.kernel.args, w.threads.Keys - {tid});
    }
  }

  /** Only this thread's entry differs between two argument maps. */
  ghost predicate OnlyEntry(before: map<Tid, Event>, after: map<Tid, Event>, tid: Tid) {
    forall t :: t != tid ==> (t in before <==> t in after) && (t in before ==> before[t] == after[t])
  }

  /** A probe changes nothing but one thread's pending event, and may count the call on its processor. */
  ghost predicate Touches(k: Kernel, after: Kernel, s: Settings, cpu: nat, tid: Tid) {
    && OnlyEntry(k.args, after.args, tid)
    && (after == k.(args := after.args) || after == Ticked(k, s.rate, cpu).(args := after.args))
  }

  lemma AllocRecords(k: Kernel, s: Settings, cpu: nat, tid: Tid, ptr: u64, size: u64, stack: Stack)
    requires Sampled(k, s.rate, cpu) && RoomFor(k.args, tid)
    ensures var after := AllocEntered(k, s.pid, s.rate, cpu, tid, size, stack);
      Touches(k, after, s, cpu, tid) && IsAlloc(after.args, tid, size, 0)
    ensures var after := ReallocEntered(k, s.pid, s.rate, cpu, tid, ptr, size, stack);
      Touches(k, after, s, cpu, tid) && IsAlloc(after.args, tid, size, ptr)
  {
    var v := Ticked(k, s.rate, cpu);
    var e := AllocEvent(s.pid, size, stack, 0);
    assert AllocEntered(k, s.pid, s.rate, cpu, tid, size, stack) == v.(args := v.args[tid := e]);
    var f := e.(previous := ptr);
    assert v.args[tid := e][tid := f] == v.args[tid := f];
  }

  lemma ArrayArms(k: Kernel, s: Settings, cpu: nat, tid: Tid, ptr: u64, total: Option<u64>, stack: Stack)
    requires Sampled(k, s.rate, cpu) && tid !in k.args && RoomFor(k.args, tid)
    ensures total.Some? ==> var after := AllocEntered(k, s.pid, s.rate, cpu, tid, total.value, stack);
      Touches(k, after, s, cpu, tid) && IsAlloc(after.args, tid, total.value, 0)
    ensures total.Some? ==> var after := ReallocEntered(k, s.pid, s.rate, cpu, tid, ptr, total.value, stack);
      Touches(k, after, s, cpu, tid) && IsAlloc(after.args, tid, total.value, ptr)
  {
    if total.Some? {
      AllocRecords(k, s, cpu, tid, ptr, total.value, stack);
    }
  }

  /** The entry probe of a call that is sampled, or a release, changes only its own thread's pending event, which then
      fits the call, and the count on its processor. */
  lemma EntryArms(k: Kernel, s: Settings, a: Action)
    requires a.Enter? && a.tid !in k.args && RoomFor(k.args, a.tid)
    requires Sampled(k, s.rate, a.cpu) || a.call.Free? || a.call.Munmap?
    ensures EntryArmed(k, s, a)
  {
    match a.call
    case Malloc(size) => AllocRecords(k, s, a.cpu, a.tid, 0, size, a.stack);
    case Calloc(_, _) => CallocEntryArms(k, s, a);
    case Realloc(ptr, size) => AllocRecords(k, s, a.cpu, a.tid, ptr, size, a.stack);
    case ReallocArray(_, _, _) => ReallocArrayEntryArms(k, s, a);
    case Free(ptr) =>
    case Mmap(size) => AllocRecords(k, s, a.cpu, a.tid, 0, size, a.stack);
    case Munmap(ptr) =>
  }

  ghost predicate EntryArmed(k: Kernel, s: Settings, a: Action)
    requires a.Enter?
  {
    var after := EntryProbe(k, s, a);
    Touches(k, after, s, a.cpu, a.tid) && (Nests(a.call) || Armed(after.args, a.tid, a.call))
  }

  lemma CallocEntryArms(k: Kernel, s: Settings, a: Action)
    requires a.Enter? && a.call.Calloc? && Sampled(k, s.rate, a.cpu) && a.tid !in k.args && RoomFor(k.args, a.tid)
    ensures EntryArmed(k, s, a)
  {
    ArrayArms(k, s, a.cpu, a.tid, 0, ArrayTotal(a.call.size, AsInt(a.call.count)), a.stack);
  }

  lemma ReallocArrayEntryArms(k: Kernel, s: Settings, a: Action)
    requires a.Enter? && a.call.ReallocArray? && Sampled(k, s.rate, a.cpu) && a.tid !in k.args && RoomFor(k.args, a.tid)
    ensures EntryArmed(k, s, a)
  {
    ArrayArms(k, s, a.cpu, a.tid, a.call.ptr, ArrayTotal(a.call.size, AsLong(a.call.count)), a.stack);
  }

  /** Arming is about one thread's entry only. */
  lemma ArmedFrame(before: map<Tid, Event>, after: map<Tid, Event>, tid: Tid, other: Tid, call: Call)
    requires OnlyEntry(before, after, other) && tid != other
    ensures tid in before <==> tid in after
    ensures Armed(before, tid, call) <==> Armed(after, tid, call)
  {
  }

  // ----- every step keeps the invariant

  lemma EnterFits(w: World, s: Settings, a: Action)
    requires a.Enter? && s.rate <= 1 && Fits(w) && Enabled(w, a) && HasSpace(w, a)
    ensures Fits(Next(w, s, a))
  {
    HasRoom(w, a.tid);
    EntryArms(w.kernel, s, a);
    var v := Next(w, s, a);
    assert v.threads.Keys == w.threads.Keys + {a.tid};
    SameWork(w, v, a.tid);
  }

  lemma NestedSize(call: Call)
    requires Nests(call)
    ensures Wrapped(call) == call.count * call.size
  {
    SmallUnchanged(call.count * call.size);
  }

  lemma SmallUnchanged(n: nat)
    requires n < U64_LIMIT
    ensures ArraySize.Wrap(n) == n
  {
  }

  lemma NestFits(w: World, s: Settings, a: Action)
    requires a.Nest? && s.rate <= 1 && Fits(w) && Enabled(w, a)
    ensures Fits(Next(w, s, a))
  {
    HasRoom(w, a.tid);
    assert ThreadOk(w, a.tid);
    var call := w.threads[a.tid].call;
    NestedSize(call);
    AllocRecords(w.kernel, s, a.cpu, a.tid, call.ptr, Wrapped(call), a.stack);
    var v := Next(w, s, a);
    assert ThreadOk(v, a.tid);
    assert v.threads.Keys == w.threads.Keys;
    SameWork(w, v, a.tid);
  }

  /** Work inside one call, at its pending event only. */
  lemma SameWork(w: World, v: World, tid: Tid)
    requires Fits(w) && v.changes == w.changes
    requires OnlyEntry(w.kernel.args, v.kernel.args, tid)
    requires tid in v.threads && v.threads == w.threads[tid := v.threads[tid]]
    requires |v.threads| <= ARGS_HASH_SIZE && ThreadOk(v, tid)
    ensures Fits(v)
  {
    hide Armed, Plausible, ChangeOf, Moves;
    forall t | t in v.kernel.args ensures t in v.threads {
      assert t == tid || t in w.kernel.args;
    }
    forall t | t in v.threads ensures ThreadOk(v, t) {
      if t != tid {
        assert ThreadOk(w, t);
        ArmedFrame(w.kernel.args, v.kernel.args, t, tid, w.threads[t].call);
      }
    }
  }

  lemma CommitFits(w: World, s: Settings, a: Action)
    requires a.Commit? && Fits(w) && Enabled(w, a)
    ensures Fits(Next(w, s, a))
  {
    hide Armed, Plausible, ChangeOf, Changed, Moves;
    var v := Next(w, s, a);
    assert ThreadOk(w, a.tid);
    assert v.threads.Keys == w.threads.Keys;
    forall t | t in v.threads ensures ThreadOk(v, t) {
      assert ThreadOk(w, t);
    }
  }

  /** The working call's return probe is done, and its pending event gone. */
  lemma ReturnFits(w: World, v: World, tid: Tid)
    requires Fits(w) && IsDue(w, tid) && v.changes == w.changes && v.threads == Returned(w.threads, tid)
    requires OnlyEntry(w.kernel.args, v.kernel.args, tid) && tid !in v.kernel.args
    ensures Fits(v)
  {
    hide Armed, Plausible, ChangeOf, Moves;
    KeysShrink(w.threads, tid);
    if Nests(w.threads[tid].call) {
      assert v.threads.Keys == w.threads.Keys;
    }
    forall t | t in v.kernel.args ensures t in v.threads {
      assert t in w.kernel.args;
    }
    forall t | t in v.threads ensures ThreadOk(v, t) {
      if t != tid {
        assert ThreadOk(w, t);
        ArmedFrame(w.kernel.args, v.kernel.args, t, tid, w.threads[t].call);
      }
    }
  }

  /** A call's record leads to two outputs exactly when the call moved a block. */
  lemma MovesIffTwo(args: map<Tid, Event>, tid: Tid, call: Call, result: u64)
    requires Armed(args, tid, call) && Plausible(call, result) && !call.Free? && !call.Munmap?
    requires call.Mmap? ==> result != MAP_FAILED
    ensures tid in args && |Attempts(args[tid], result, false)| == 2 <==> Moves(ChangeOf(call, result))
    ensures Moves(ChangeOf(call, result)) ==>
      && args[tid].kind == Alloc && result != 0 && (call.Realloc? || call.ReallocArray?)
      && ChangeOf(call, result) == ReallocChange(args[tid].previous, args[tid].size, result)
  {
    hide ArrayTotal;
  }

  /** Releases, and mappings that fail, move nothing. */
  lemma OthersMoveNothing(call: Call, result: u64)
    requires call.Free? || call.Munmap? || call.Mmap?
    ensures !Moves(ChangeOf(call, result))
  {
  }

  lemma FirstSends(k: Kernel, tid: Tid, result: u64, freeing: bool, first: bool)
    ensures var after := FirstSent(k, tid, result, freeing, first);
      && OnlyEntry(k.args, after.args, tid) && after.lost >= k.lost
      && if SecondDue(k, tid, result, freeing, first) then
           after == k.(args := k.args[tid := k.args[tid].(address := result)],
                       ring := k.ring + [k.args[tid].(address := result)])
         else tid !in after.args && forall second :: after == Sent(k, tid, result, freeing, first, second)
  {
  }

  lemma ArmedStill(args: map<Tid, Event>, tid: Tid, call: Call, address: u64)
    requires Armed(args, tid, call) && tid in args && (call.Realloc? || call.ReallocArray?)
    ensures Armed(args[tid := args[tid].(address := address)], tid, call)
  {
    hide ArrayTotal, Overflows;
  }

  /** The first part of a return probe is all of it, unless the call moved a block and its output went well. */
  lemma FirstReturns(k: Kernel, tid: Tid, call: Call, result: u64, first: bool)
    requires Armed(k.args, tid, call) && Plausible(call, result)
    ensures var after := FirstReturn(k, tid, call, result, first);
      && OnlyEntry(k.args, after.args, tid) && after.lost >= k.lost
      && if first && Moves(ChangeOf(call, result)) then
           && tid in k.args && k.args[tid].kind == Alloc && result != 0 && Armed(after.args, tid, call)
           && ChangeOf(call, result) == ReallocChange(k.args[tid].previous, k.args[tid].size, result)
           && after == k.(args := k.args[tid := k.args[tid].(address := result)],
                          ring := k.ring + [k.args[tid].(address := result)])
         else
           tid !in after.args && forall second :: after == ReturnProbe(k, tid, call, result, first, second)
  {
    hide Armed, Plausible, ChangeOf, Moves, FirstSent, Sent, ReallocChange, Attempts;
    if call.Free? || call.Munmap? {
      OthersMoveNothing(call, result);
      FirstSends(k, tid, 0, true, first);
      OneRelease(k, tid, first);
    } else if call.Mmap? && result == MAP_FAILED {
      OthersMoveNothing(call, result);
    } else {
      FirstSends(k, tid, result, false, first);
      MovesIffTwo(k.args, tid, call, result);
      if first && Moves(ChangeOf(call, result)) {
        ArmedStill(k.args, tid, call, result);
      }
    }
  }

  lemma OneRelease(k: Kernel, tid: Tid, first: bool)
    ensures !SecondDue(k, tid, 0, true, first)
  {
  }

  lemma {:induction false} DeliverFits(w: World, s: Settings, a: Action)
    requires a.Deliver? && Fits(w) && Enabled(w, a)
    ensures Fits(Next(w, s, a))
  {
    hide Armed, Plausible, ChangeOf, Moves, FirstReturn, ReturnProbe, LostSilently;
    var t := w.threads[a.tid];
    var v := Next(w, s, a);
    assert ThreadOk(w, a.tid);
    FirstReturns(w.kernel, a.tid, t.call, t.result, a.first);
    if a.first && Moves(ChangeOf(t.call, t.result)) {
      assert v.threads.Keys == w.threads.Keys;
      SameWork(w, v, a.tid);
    } else {
      ReturnFits(w, v, a.tid);
    }
  }

  lemma LeaveFits(w: World, s: Settings, a: Action)
    requires a.Leave? && Fits(w) && Enabled(w, a)
    ensures Fits(Next(w, s, a)) && Next(w, s, a).kernel == w.kernel
  {
    hide Armed, Plausible, ChangeOf, Moves;
    var v := Next(w, s, a);
    assert ThreadOk(w, a.tid);
    KeysShrink(w.threads, a.tid);
    forall u | u in v.threads ensures ThreadOk(v, u) {
      assert ThreadOk(w, u);
    }
  }

  /** Whatever the calls are. */
  lemma FitsKept(w: World, s: Settings, a: Action)
    requires s.rate <= 1 && Fits(w) && Enabled(w, a) && HasSpace(w, a)
    ensures Fits(Next(w, s, a))
  {
    match a
    case Enter(_, _, _, _) => EnterFits(w, s, a);
    case Nest(_, _, _) => NestFits(w, s, a);
    case Commit(_, _) => CommitFits(w, s, a);
    case Deliver(_, _) => DeliverFits(w, s, a);
    case Follow(_, _) => FollowFits(w, s, a);
    case Leave(_, _, _) => LeaveFits(w, s, a);
  }

  lemma {:induction false} FitsThroughout(w: World, s: Settings, actions: seq<Action>)
    requires s.rate <= 1 && Fits(w) && Possible(w, s, actions)
    ensures Fits(Run(w, s, actions))
    decreases |actions|
  {
    hide Fits, Enabled, Next;
    if actions != [] {
      FitsKept(w, s, actions[0]);
      FitsThroughout(Next(w, s, actions[0]), s, actions[1..]);
    }
  }

  /** A step that neither changes the heap nor outputs anything. */
  lemma QuietKeeps(w: World, v: World)
    requires Inv(w) && Fits(v)
    requires v == w.(kernel := w.kernel.(args := v.kernel.args), threads := v.threads)
    requires forall t :: IsDue(v, t) ==> IsDue(w, t) && v.threads[t] == w.threads[t]
    ensures Inv(v)
  {
    hide Leaves, Armed, Plausible, Accountable;
    assert Map(v) == Map(w);
  }

  lemma ChangeLeaves(heap: Heap, c: Change, a: u64)
    ensures SizeIn(Changed(heap, c), a) == if a in Touched(c) then LeftBy(c, a) else SizeIn(heap, a)
  {
  }

  lemma NeverAtZero(call: Call, result: u64)
    requires Plausible(call, result)
    ensures LeftBy(ChangeOf(call, result), 0) == None
  {
  }

  lemma CommitKeeps(w: World, s: Settings, a: Action)
    requires a.Commit? && Inv(w) && Enabled(w, a) && Respected(w, a)
    ensures Inv(Next(w, s, a))
  {
    hide Leaves, Armed, Plausible, Accountable, ChangeOf, Changed, LeftBy, Touched;
    var v := Next(w, s, a);
    var call := w.threads[a.tid].call;
    var c := ChangeOf(call, a.result);
    CommitFits(w, s, a);
    forall t | IsDue(v, t) ensures Accountable(v.threads[t].call, v.threads[t].result) {
      assert t == a.tid || IsDue(w, t);
    }
    forall x ensures SizeIn(v.heap, x) == Leaves(v.changes, x) {
      ChangeLeaves(w.heap, c, x);
      LeavesLast(w.changes, c, x);
    }
    LeavesLast(w.changes, c, 0);
    NeverAtZero(call, a.result);
    assert Map(v) == Map(w);
  }

  function AppliedAll(m: Tracked, events: seq<Event>): Tracked
    requires |events| <= 2
  {
    if |events| == 0 then m
    else if |events| == 1 then Applied(m, events[0])
    else Applied(Applied(m, events[0]), events[1])
  }

  /** The change is made at the address if it touches it. */
  predicate Carries(m: Tracked, after: Tracked, c: Change, x: u64) {
    SizeOf(after, x) == if x in Touched(c) then LeftBy(c, x) else SizeOf(m, x)
  }

  lemma AllocAttemptsCarry(m: Tracked, e: Event, result: u64, x: u64)
    requires e.kind == Alloc
    ensures Carries(m, AppliedAll(m, Attempts(e, result, false)), ReallocChange(e.previous, e.size, result), x)
  {
    var attempts := Attempts(e, result, false);
    if result == 0 {
    } else if e.previous != 0 && e.previous != result {
      assert attempts == [e.(address := result), Release(e)];
    } else {
      assert attempts == [e.(address := result)];
    }
  }

  lemma SentReplays(k: Kernel, tid: Tid, result: u64, freeing: bool, first: bool, second: bool)
    requires tid in k.args && Sent(k, tid, result, freeing, first, second).lost == k.lost
    requires Uncounted(k.args[tid], result, freeing) ==> first
    ensures Replay(Sent(k, tid, result, freeing, first, second).ring) ==
            AppliedAll(Replay(k.ring), Attempts(k.args[tid], result, freeing))
  {
    var attempts := Attempts(k.args[tid], result, freeing);
    assert Delivered(attempts, first, second) == attempts;
    ReplayAppend(k.ring, attempts);
  }

  lemma CallocTotal(count: u64, size: u64)
    requires count < 0x8000_0000 || (count % 0x1_0000_0000 < 0x8000_0000 && size == 0)
    requires !Overflows(count, size)
    ensures ArrayTotal(size, AsInt(count)) == Some(count * size)
  {
    ArraySize.Exact(size, AsInt(count));
    assert size * count == count * size;
  }

  /** The allocation size the pending event carries, where the call succeeds. */
  lemma RecordedSize(args: map<Tid, Event>, tid: Tid, call: Call, result: u64)
    requires Armed(args, tid, call) && Plausible(call, result) && Accountable(call, result)
    requires !call.Free? && !call.Munmap? && !(call.Mmap? && result == MAP_FAILED)
    ensures if tid in args
            then args[tid].kind == Alloc &&
                 ChangeOf(call, result) == ReallocChange(args[tid].previous, args[tid].size, result)
            else ChangeOf(call, result) == NOTHING
  {
    match call
    case Malloc(_) =>
    case Mmap(_) =>
    case Realloc(_, _) =>
    case Calloc(count, size) =>
      if result != 0 {
        CallocTotal(count, size);
      }
    case ReallocArray(ptr, count, size) =>
      if !Overflows(count, size) {
        var total := Product(count, size);
        assert IsAlloc(args, tid, total, ptr);
      }
    case Free(_) =>
    case Munmap(_) =>
  }

  /** What a return probe does to the map of user space, when no output fails. */
  lemma DeliverCarries(k: Kernel, tid: Tid, call: Call, result: u64, first: bool, second: bool, x: u64)
    requires Armed(k.args, tid, call) && Plausible(call, result) && Accountable(call, result)
    requires ReturnProbe(k, tid, call, result, first, second).lost == k.lost
    requires !LostSilently(k, tid, call, result, first)
    ensures var after := ReturnProbe(k, tid, call, result, first, second);
      Carries(Replay(k.ring), Replay(after.ring), ChangeOf(call, result), x)
  {
    if call.Free? || (call.Munmap? && result == 0) {
      SentReplays(k, tid, 0, true, first, second);
    } else if call.Munmap? || (call.Mmap? && result == MAP_FAILED) {
    } else {
      RecordedSize(k.args, tid, call, result);
      if tid in k.args {
        SentReplays(k, tid, result, false, first, second);
        AllocAttemptsCarry(Replay(k.ring), k.args[tid], result, x);
      }
    }
  }

  /** The same for its two parts. */
  lemma FirstCarries(k: Kernel, tid: Tid, call: Call, result: u64, first: bool, x: u64)
    requires Armed(k.args, tid, call) && Plausible(call, result) && Accountable(call, result)
    requires FirstReturn(k, tid, call, result, first).lost == k.lost && !LostSilently(k, tid, call, result, first)
    ensures var c := ChangeOf(call, result);
      Carries(Replay(k.ring), Replay(FirstReturn(k, tid, call, result, first).ring),
              if first && Moves(c) then Gained(c) else c, x)
  {
    hide Armed, Plausible, Accountable, ChangeOf, FirstReturn, ReturnProbe, LostSilently;
    FirstReturns(k, tid, call, result, first);
    if first && Moves(ChangeOf(call, result)) {
      ReplayAppend(k.ring, [k.args[tid].(address := result)]);
    } else {
      DeliverCarries(k, tid, call, result, first, true, x);
    }
  }

  lemma SecondCarries(k: Kernel, tid: Tid, call: Call, result: u64, second: bool, x: u64)
    requires Armed(k.args, tid, call) && Plausible(call, result) && Moves(ChangeOf(call, result))
    requires SecondSent(k, tid, second).lost == k.lost
    ensures Carries(Replay(k.ring), Replay(SecondSent(k, tid, second).ring), Freed(ChangeOf(call, result)), x)
  {
    hide Armed, Plausible, ChangeOf, FirstReturn, ReturnProbe;
    FirstReturns(k, tid, call, result, true);
    ReplayAppend(k.ring, [Release(k.args[tid])]);
  }

  /** Something is reported. */
  lemma ReportKeeps(w: World, v: World, tid: Tid, c: Change)
    requires Inv(w) && Fits(v) && IsDue(w, tid)
    requires v.heap == w.heap && v.changes == w.changes && v.reported == w.reported + [c] && LeftBy(c, 0) == None
    requires Lossless(v) ==> Lossless(w) && forall x :: Carries(Map(w), Map(v), c, x)
    requires forall t :: IsDue(v, t) ==>
      IsDue(w, t) && v.threads[t].call == w.threads[t].call && v.threads[t].result == w.threads[t].result
    ensures Inv(v)
  {
    hide Leaves, Armed, Plausible, Accountable, Fits, LeftBy, Touched;
    LeavesLast(w.reported, c, 0);
    if Lossless(v) {
      forall x ensures SizeOf(Map(v), x) == Leaves(v.reported, x) {
        assert Carries(Map(w), Map(v), c, x);
        LeavesLast(w.reported, c, x);
      }
    }
  }

  lemma PartsAtZero(c: Change)
    requires LeftBy(c, 0) == None
    ensures LeftBy(Gained(c), 0) == None && LeftBy(Freed(c), 0) == None
  {
  }

  lemma DeliverKeeps(w: World, s: Settings, a: Action)
    requires a.Deliver? && Inv(w) && Enabled(w, a)
    ensures Inv(Next(w, s, a))
  {
    hide Leaves, LeftBy, Touched, ChangeOf, Armed, Plausible, Accountable, FirstReturn, LostSilently, Carries, Moves;
    hide Inv, Fits, Gained;
    var v := Next(w, s, a);
    var t := w.threads[a.tid];
    FitsOf(w);
    DeliverFits(w, s, a);
    DueOk(w, a.tid);
    NeverAtZero(t.call, t.result);
    PartsAtZero(ChangeOf(t.call, t.result));
    FirstReturns(w.kernel, a.tid, t.call, t.result, a.first);
    if Lossless(v) {
      forall x ensures Carries(Map(w), Map(v), Reports(w, a.tid, a.first), x) {
        FirstCarries(w.kernel, a.tid, t.call, t.result, a.first, x);
      }
    }
    ReportKeeps(w, v, a.tid, Reports(w, a.tid, a.first));
  }

  lemma DueOk(w: World, tid: Tid)
    requires Inv(w) && IsDue(w, tid)
    ensures var t := w.threads[tid];
      && Armed(w.kernel.args, tid, t.call) && Plausible(t.call, t.result) && Accountable(t.call, t.result)
      && (t.Halfway? ==> Moves(ChangeOf(t.call, t.result)))
  {
    assert ThreadOk(w, tid);
  }

  lemma FollowFits(w: World, s: Settings, a: Action)
    requires a.Follow? && Fits(w) && Enabled(w, a)
    ensures Fits(Next(w, s, a))
  {
    hide Armed, Plausible, ChangeOf, Moves, Fits;
    ReturnFits(w, Next(w, s, a), a.tid);
  }

  lemma FollowKeeps(w: World, s: Settings, a: Action)
    requires a.Follow? && Inv(w) && Enabled(w, a)
    ensures Inv(Next(w, s, a))
  {
    hide Leaves, LeftBy, Touched, ChangeOf, Armed, Plausible, Accountable, Carries, Moves, Inv, Freed;
    var v := Next(w, s, a);
    var t := w.threads[a.tid];
    FitsOf(w);
    FollowFits(w, s, a);
    DueOk(w, a.tid);
    NeverAtZero(t.call, t.result);
    PartsAtZero(ChangeOf(t.call, t.result));
    if Lossless(v) {
      forall x ensures Carries(Map(w), Map(v), Pending(w, a.tid), x) {
        SecondCarries(w.kernel, a.tid, t.call, t.result, a.second, x);
      }
    }
    ReportKeeps(w, v, a.tid, Pending(w, a.tid));
  }

  lemma StepKeeps(w: World, s: Settings, a: Action)
    requires s.rate <= 1 && Inv(w) && Enabled(w, a) && Respected(w, a)
    ensures Inv(Next(w, s, a))
  {
    hide Inv, Fits, EntryProbe;
    match a
    case Commit(_, _) => CommitKeeps(w, s, a);
    case Deliver(_, _) => DeliverKeeps(w, s, a);
    case Follow(_, _) => FollowKeeps(w, s, a);
    case _ =>
      FitsOf(w);
      FitsKept(w, s, a);
      NoOutput(w, s, a);
      QuietKeeps(w, Next(w, s, a));
  }

  lemma FitsOf(w: World)
    requires Inv(w)
    ensures Fits(w)
  {
  }

  lemma NoOutput(w: World, s: Settings, a: Action)
    requires s.rate <= 1 && Fits(w) && Enabled(w, a) && HasSpace(w, a) && (a.Enter? || a.Nest? || a.Leave?)
    ensures var v := Next(w, s, a); v.kernel == w.kernel.(args := v.kernel.args)
  {
    hide Fits;
    match a
    case Enter(_, _, _, _) =>
      RoomToEnter(w, a);
      EntryArms(w.kernel, s, a);
    case Nest(_, _, _) =>
    case Leave(_, _, _) => LeaveFits(w, s, a);
  }

  lemma RoomToEnter(w: World, a: Action)
    requires Fits(w) && a.Enter? && Enabled(w, a) && HasSpace(w, a)
    ensures RoomFor(w.kernel.args, a.tid) && a.tid !in w.kernel.args
  {
    HasRoom(w, a.tid);
  }

  lemma {:induction false} RunKeeps(w: World, s: Settings, actions: seq<Action>)
    requires s.rate <= 1 && Inv(w) && Legal(w, s, actions)
    ensures Inv(Run(w, s, actions))
    decreases |actions|
  {
    if actions != [] {
      StepKeeps(w, s, actions[0]);
      RunKeeps(Next(w, s, actions[0]), s, actions[1..]);
    }
  }

  lemma StartIsGood()
    ensures Inv(START)
  {
  }

  // ----- what the map holds, in every state of every run

  /** For every interleaving of any calls in any threads, output by output, unless one was lost: user space's map is
      what the heap would be had it changed in the order of the outputs; so it is right exactly when, at every
      address, that order and the order of the changes leave the same. */
  lemma MapFollowsTheProbes(s: Settings, actions: seq<Action>)
    requires s.rate <= 1 && Legal(START, s, actions) && Lossless(Run(START, s, actions))
    ensures var w := Run(START, s, actions);
      && (forall a :: SizeOf(Map(w), a) == Leaves(w.reported, a))
      && (forall a :: SizeIn(w.heap, a) == Leaves(w.changes, a))
      && (Agrees(w) <==> forall a :: Leaves(w.reported, a) == Leaves(w.changes, a))
  {
    hide Leaves, Agree, SizeOf, SizeIn;
    StartIsGood();
    RunKeeps(START, s, actions);
    var w := Run(START, s, actions);
    AgreePointwise(Map(w), w.heap);
    if Agrees(w) {
      forall a ensures Leaves(w.reported, a) == Leaves(w.changes, a) {
        assert SizeOf(Map(w), a) == SizeIn(w.heap, a);
      }
    }
    if forall a :: Leaves(w.reported, a) == Leaves(w.changes, a) {
      forall a ensures SizeOf(Map(w), a) == SizeIn(w.heap, a) {
        assert Leaves(w.reported, a) == Leaves(w.changes, a);
      }
    }
  }

  // ----- the probes of each call

  /** Runs the probe attached to the entry of a call. */
  method FireEntry(program: Program, a: Action)
    requires a.Enter?
    modifies program
    ensures program.State() == EntryProbe(old(program.State()), Settings(program.targetPid, program.sampleRate), a)
  {
    match a.call
    case Malloc(size) => program.MallocEnter(size, a.cpu, a.tid, a.stack);
    case Calloc(count, size) => program.CallocEnter(count, size, a.cpu, a.tid, a.stack);
    case Realloc(ptr, size) => program.ReallocEnter(ptr, size, a.cpu, a.tid, a.stack);
    case ReallocArray(ptr, count, size) => program.ReallocArrayEnter(ptr, count, size, a.cpu, a.tid, a.stack);
    case Free(ptr) => program.FreeEnter(ptr, a.tid);
    case Mmap(size) => program.MmapEnter(size, a.cpu, a.tid, a.stack);
    case Munmap(ptr) => program.MunmapEnter(ptr, a.tid);
  }

  /** Runs the probe attached to the return of a call. */
  method FireReturn(program: Program, tid: Tid, call: Call, result: u64, first: bool, second: bool)
    modifies program
    ensures program.State() == ReturnProbe(old(program.State()), tid, call, result, first, second)
    ensures Armed(old(program.args), tid, call) && Plausible(call, result) ==>
      program.State() ==
      var v := FirstReturn(old(program.State()), tid, call, result, first);
      if first && Moves(ChangeOf(call, result)) then SecondSent(v, tid, second) else v
  {
    hide Armed, Plausible, ChangeOf, Moves, FirstReturn, SecondSent;
    if Armed(program.args, tid, call) && Plausible(call, result) {
      ReturnInTwo(program.State(), tid, call, result, first, second);
    }
    match call
    case Free(_) => program.FreeExit(tid, first, second);
    case Mmap(_) => program.MmapExit(tid, result, first, second);
    case Munmap(_) => program.MunmapExit(tid, result, first, second);
    case _ => program.AllocExit(tid, result, first, second);
  }

  /** A return probe that is not interrupted makes the steps it takes in a run, one after the other. */
  lemma ReturnInTwo(k: Kernel, tid: Tid, call: Call, result: u64, first: bool, second: bool)
    requires Armed(k.args, tid, call) && Plausible(call, result)
    ensures ReturnProbe(k, tid, call, result, first, second) ==
            var v := FirstReturn(k, tid, call, result, first);
            if first && Moves(ChangeOf(call, result)) then SecondSent(v, tid, second) else v
  {
    hide Armed, Plausible, ChangeOf, Moves, Attempts, Sent, FirstSent;
    FirstReturns(k, tid, call, result, first);
    if first && Moves(ChangeOf(call, result)) {
      if call.Free? || call.Munmap? || call.Mmap? {
        OthersMoveNothing(call, result);
      } else {
        MovesIffTwo(k.args, tid, call, result);
        SentInTwo(k, tid, result, false, first, second);
      }
    }
  }

  // ----- outputs in order

  /** No address but zero is touched by both. */
  predicate Apart(c: Change, d: Change) {
    forall a :: a in Touched(c) && a in Touched(d) ==> a == 0
  }

  lemma Shared(c: Change, d: Change, a: u64)
    requires a != 0 && a in Touched(c) && a in Touched(d)
    ensures !Apart(c, d)
  {
  }

  /** No earlier change at an address that the next output is about is still to be reported. */
  ghost predicate InTurn(w: World, tid: Tid, first: bool)
    requires IsDue(w, tid)
  {
    forall t :: IsDue(w, t) && w.threads[t].at < w.threads[tid].at ==> Apart(Pending(w, t), Reports(w, tid, first))
  }

  ghost predicate OutputInTurn(w: World, a: Action)
    requires Enabled(w, a)
  {
    match a
    case Deliver(tid, first) => InTurn(w, tid, first)
    case Follow(tid, _) => InTurn(w, tid, true)
    case _ => true
  }

  /** At each address the outputs are made in the order in which the heap changed there. */
  ghost predicate Orderly(w: World, s: Settings, actions: seq<Action>)
    requires Possible(w, s, actions)
    decreases |actions|
  {
    actions == [] || (OutputInTurn(w, actions[0]) && Orderly(Next(w, s, actions[0]), s, actions[1..]))
  }

  ghost predicate Due(w: World, tid: Tid, a: u64) {
    IsDue(w, tid) && a in Touched(Pending(w, tid))
  }

  ghost predicate InDoubt(w: World, a: u64) {
    exists t :: Due(w, t, a)
  }

  /** The last change at the address that is still to be reported. */
  ghost predicate LastDue(w: World, tid: Tid, a: u64) {
    Due(w, tid, a) && forall t :: Due(w, t, a) ==> w.threads[t].at <= w.threads[tid].at
  }

  /** Where no report is due the two orders leave the same; elsewhere the last one due decides. */
  ghost predicate OrderKept(w: World) {
    && (forall a :: a != 0 && !InDoubt(w, a) ==> Leaves(w.reported, a) == Leaves(w.changes, a))
    && (forall t, a :: a != 0 && LastDue(w, t, a) ==> LeftBy(Pending(w, t), a) == Leaves(w.changes, a))
  }

  /** The same calls are due, and nothing was added to either list. */
  lemma SameDue(w: World, v: World)
    requires OrderKept(w) && v.changes == w.changes && v.reported == w.reported
    requires forall t :: IsDue(v, t) == IsDue(w, t) && (IsDue(w, t) ==> v.threads[t] == w.threads[t])
    ensures OrderKept(v)
  {
    hide Leaves, LeftBy, Touched, ChangeOf;
    forall t, a ensures Due(v, t, a) == Due(w, t, a) {}
    forall a | a != 0 && !InDoubt(v, a) ensures Leaves(v.reported, a) == Leaves(v.changes, a) {
      forall t ensures !Due(w, t, a) {
        assert !Due(v, t, a);
      }
    }
    forall t, a | a != 0 && LastDue(v, t, a) ensures LeftBy(Pending(v, t), a) == Leaves(v.changes, a) {
      assert LastDue(w, t, a) by {
        forall u | Due(w, u, a) ensures w.threads[u].at <= w.threads[t].at {
          assert Due(v, u, a);
        }
      }
    }
  }

  lemma CommitKeepsOrder(w: World, s: Settings, a: Action)
    requires a.Commit? && Inv(w) && OrderKept(w) && Enabled(w, a)
    ensures OrderKept(Next(w, s, a))
  {
    hide Leaves, LeftBy, Touched, ChangeOf, Armed, Plausible, Accountable, Changed;
    var v := Next(w, s, a);
    var c := Pending(v, a.tid);
    forall t, x ensures t != a.tid ==> Due(v, t, x) == Due(w, t, x) {}
    forall t | IsDue(v, t) && t != a.tid
      ensures v.threads[t] == w.threads[t] && v.threads[t].at < v.threads[a.tid].at
    {
      assert ThreadOk(w, t);
    }
    forall x | x != 0 && !InDoubt(v, x) ensures Leaves(v.reported, x) == Leaves(v.changes, x) {
      assert !Due(v, a.tid, x);
      forall t ensures !Due(w, t, x) {
        assert !Due(v, t, x);
      }
      assert !InDoubt(w, x);
      LeavesLast(w.changes, c, x);
    }
    forall t, x | x != 0 && LastDue(v, t, x) ensures LeftBy(Pending(v, t), x) == Leaves(v.changes, x) {
      LeavesLast(w.changes, c, x);
      if t != a.tid {
        assert !Due(v, a.tid, x);
        forall u | Due(w, u, x) ensures w.threads[u].at <= w.threads[t].at {
          assert Due(v, u, x);
        }
        assert LastDue(w, t, x);
      }
    }
  }

  /** One output, in turn. */
  lemma ReportKeepsOrder(w: World, v: World, tid: Tid, c: Change)
    requires OrderKept(w) && IsDue(w, tid) && v.changes == w.changes && v.reported == w.reported + [c]
    requires forall t :: t != tid ==>
      IsDue(v, t) == IsDue(w, t) && (IsDue(w, t) ==> v.threads[t] == w.threads[t])
    requires forall t :: IsDue(w, t) && w.threads[t].at < w.threads[tid].at ==> Apart(Pending(w, t), c)
    requires forall x :: x in Touched(c) ==> Due(w, tid, x) && LeftBy(c, x) == LeftBy(Pending(w, tid), x)
    requires forall x :: Due(v, tid, x) <==> Due(w, tid, x) && x !in Touched(c)
    requires IsDue(v, tid) ==> v.threads[tid].at == w.threads[tid].at
    requires forall x :: Due(v, tid, x) ==> LeftBy(Pending(v, tid), x) == LeftBy(Pending(w, tid), x)
    ensures OrderKept(v)
  {
    hide Leaves, LeftBy, Touched, ChangeOf, Moves;
    forall t, x ensures t != tid ==> Due(v, t, x) == Due(w, t, x) {}
    forall x | x != 0 && !InDoubt(v, x) ensures Leaves(v.reported, x) == Leaves(v.changes, x) {
      LeavesLast(w.reported, c, x);
      forall t | t != tid ensures !Due(w, t, x) {
        assert !Due(v, t, x);
      }
      assert !Due(v, tid, x);
      if x in Touched(c) {
        assert LastDue(w, tid, x);
      } else {
        assert !InDoubt(w, x);
      }
    }
    forall t, x | x != 0 && LastDue(v, t, x) ensures LeftBy(Pending(v, t), x) == Leaves(v.changes, x) {
      assert Due(w, t, x);
      forall u | Due(w, u, x) ensures w.threads[u].at <= w.threads[t].at {
        if u == tid && x in Touched(c) {
          if w.threads[t].at < w.threads[u].at {
            Shared(Pending(w, t), c, x);
          }
        } else {
          assert Due(v, u, x);
        }
      }
      assert LastDue(w, t, x);
    }
  }

  lemma PartsOf(c: Change)
    requires Moves(c)
    ensures forall x :: x in Touched(c) <==> x in Touched(Gained(c)) || x in Touched(Freed(c))
    ensures forall x :: x in Touched(Gained(c)) ==> x !in Touched(Freed(c)) && LeftBy(Gained(c), x) == LeftBy(c, x)
    ensures forall x :: x in Touched(Freed(c)) ==> LeftBy(Freed(c), x) == LeftBy(c, x)
  {
  }

  lemma DeliverKeepsOrder(w: World, s: Settings, a: Action)
    requires a.Deliver? && OrderKept(w) && Enabled(w, a) && InTurn(w, a.tid, a.first)
    ensures OrderKept(Next(w, s, a))
  {
    hide Leaves, LeftBy, Touched, ChangeOf, FirstReturn, LostSilently, Moves, OrderKept, Gained, Freed;
    var v := Next(w, s, a);
    var c := Pending(w, a.tid);
    if a.first && Moves(c) {
      PartsOf(c);
    }
    ReportKeepsOrder(w, v, a.tid, Reports(w, a.tid, a.first));
  }

  lemma FollowKeepsOrder(w: World, s: Settings, a: Action)
    requires a.Follow? && OrderKept(w) && Enabled(w, a) && InTurn(w, a.tid, true)
    ensures OrderKept(Next(w, s, a))
  {
    hide Leaves, LeftBy, Touched, ChangeOf, OrderKept;
    ReportKeepsOrder(w, Next(w, s, a), a.tid, Reports(w, a.tid, true));
  }

  lemma StepKeepsOrder(w: World, s: Settings, a: Action)
    requires Inv(w) && OrderKept(w) && Enabled(w, a) && OutputInTurn(w, a)
    ensures OrderKept(Next(w, s, a))
  {
    hide OrderKept, Inv, EntryProbe, FirstReturn, InTurn;
    match a
    case Commit(_, _) => CommitKeepsOrder(w, s, a);
    case Deliver(_, _) => DeliverKeepsOrder(w, s, a);
    case Follow(_, _) => FollowKeepsOrder(w, s, a);
    case _ => SameDue(w, Next(w, s, a));
  }

  lemma {:induction false} RunKeepsOrder(w: World, s: Settings, actions: seq<Action>)
    requires s.rate <= 1 && Inv(w) && OrderKept(w) && Legal(w, s, actions) && Orderly(w, s, actions)
    ensures OrderKept(Run(w, s, actions))
    decreases |actions|
  {
    hide OrderKept, Inv;
    if actions != [] {
      StepKeeps(w, s, actions[0]);
      StepKeepsOrder(w, s, actions[0]);
      RunKeepsOrder(Next(w, s, actions[0]), s, actions[1..]);
    }
  }

  /** For every interleaving in which, at each address, the outputs are made in the order of the changes: once none is
      due, and unless one was lost, the map holds exactly the live allocations with their last requested
      sizes; and once no thread is inside a call, no pending event is left. */
  lemma TrackerIsExact(s: Settings, actions: seq<Action>)
    requires s.rate <= 1 && Legal(START, s, actions) && Orderly(START, s, actions)
    ensures var w := Run(START, s, actions);
      && (Lossless(w) && (forall t :: !IsDue(w, t)) ==> Agrees(w))
      && (w.threads == map[] ==> w.kernel.args == map[])
  {
    hide Leaves, Agree;
    StartIsGood();
    RunKeeps(START, s, actions);
    RunKeepsOrder(START, s, actions);
    var w := Run(START, s, actions);
    if Lossless(w) && forall t :: !IsDue(w, t) {
      MapFollowsTheProbes(s, actions);
      forall a ensures Leaves(w.reported, a) == Leaves(w.changes, a) {
        assert !InDoubt(w, a);
      }
    }
    if w.threads == map[] {
      assert w.kernel.args.Keys == {};
    }
  }
}
