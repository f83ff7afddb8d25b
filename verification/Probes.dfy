/** The uprobes that watch the allocator: a pending event per thread, sent when the call returns. */
module Probes {
  import opened Bytes
  import ArraySize

  type Tid = int

  const ARGS_HASH_SIZE: nat := 10240
  const MAX_CALL_STACK_FRAMES: nat := 100

  datatype Kind = Alloc | Free

  function ZeroWords(n: nat): (s: seq<u64>)
    ensures |s| == n && forall i :: 0 <= i < n ==> s[i] == 0
  {
    if n == 0 then [] else [0] + ZeroWords(n - 1)
  }

  type Trace = t: seq<u64> | |t| == MAX_CALL_STACK_FRAMES witness ZeroWords(MAX_CALL_STACK_FRAMES)

  const NO_TRACE: Trace := ZeroWords(MAX_CALL_STACK_FRAMES)

  /** One record of the ring buffer. */
  datatype Event = Event(address: u64, pid: u64, kind: Kind, size: u64, frames: u64, trace: Trace, previous: u64)

  /** What stack capture returned: a byte count or a negative error, and what it left in the buffer. */
  datatype Capture = Capture(result: int, trace: Trace)

  /** The C division turns a negative error into a large unsigned frame count. */
  function FrameCount(result: int): u64
    requires -0x8000_0000_0000_0000 <= result < 0x8000_0000_0000_0000
  {
    (if result >= 0 then result else result + U64_LIMIT) / 8
  }

  type Stack = c: Capture | -0x8000_0000_0000_0000 <= c.result < 0x8000_0000_0000_0000
    witness Capture(0, NO_TRACE)

  /** The maps shared by the probes, and everything output so far. */
  datatype Kernel = Kernel(args: map<Tid, Event>, counts: map<nat, int>, ring: seq<Event>, lost: nat)

  const EMPTY := Kernel(map[], map[], [], 0)

  // ----- what the probes do, as functions of the kernel state

  /** The address given up by a reallocation, as its own event. */
  function Release(e: Event): Event {
    Event(e.previous, e.pid, Free, 0, 0, e.trace, 0)
  }

  /** The events a return probe tries to output, in order. */
  function Attempts(e: Event, result: u64, freeing: bool): seq<Event> {
    if freeing then [e]
    else if result == 0 then
      if e.previous != 0 && e.size == 0 then [Release(e)] else []
    else
      [e.(address := result)] +
      if e.previous != 0 && e.previous != result then [Release(e)] else []
  }

  /** The attempts that reach user space: a failed output ends the series. */
  function Delivered(attempts: seq<Event>, first: bool, second: bool): seq<Event> {
    if !first then []
    else if !second then attempts[..Min(|attempts|, 1)]
    else attempts
  }

  /** Failed outputs are counted, except the release sent for a call that returned nothing. */
  predicate Uncounted(e: Event, result: u64, freeing: bool) {
    !freeing && result == 0 && e.previous != 0 && e.size == 0
  }

  predicate Failed(attempts: seq<Event>, first: bool, second: bool) {
    (|attempts| > 0 && !first) || (|attempts| > 1 && !second)
  }

  function Sent(k: Kernel, tid: Tid, result: u64, freeing: bool, first: bool, second: bool): Kernel {
    if tid !in k.args then k
    else
      var e := k.args[tid];
      var attempts := Attempts(e, result, freeing);
      k.(args := k.args - {tid},
         ring := k.ring + Delivered(attempts, first, second),
         lost := k.lost + if Failed(attempts, first, second) && !Uncounted(e, result, freeing) then 1 else 0)
  }

  /** A second output is due: the release of the address that a reallocation gave up. */
  predicate SecondDue(k: Kernel, tid: Tid, result: u64, freeing: bool, first: bool) {
    first && tid in k.args && |Attempts(k.args[tid], result, freeing)| == 2
  }

  /** A return probe up to the end of its first output. The pending event stays while a second one is due. */
  function FirstSent(k: Kernel, tid: Tid, result: u64, freeing: bool, first: bool): Kernel {
    if SecondDue(k, tid, result, freeing, first) then
      var e := k.args[tid].(address := result);
      k.(args := k.args[tid := e], ring := k.ring + [e])
    else Sent(k, tid, result, freeing, first, true)
  }

  /** The rest of a return probe that has a second output to make. */
  function SecondSent(k: Kernel, tid: Tid, second: bool): Kernel {
    if tid !in k.args then k
    else
      k.(args := k.args - {tid},
         ring := k.ring + (if second then [Release(k.args[tid])] else []),
         lost := k.lost + (if second then 0 else 1))
  }

  /** The two parts make up the whole. */
  lemma SentInTwo(k: Kernel, tid: Tid, result: u64, freeing: bool, first: bool, second: bool)
    ensures Sent(k, tid, result, freeing, first, second) ==
            var v := FirstSent(k, tid, result, freeing, first);
            if SecondDue(k, tid, result, freeing, first) then SecondSent(v, tid, second) else v
  {
    if SecondDue(k, tid, result, freeing, first) {
      var e := k.args[tid];
      assert Attempts(e, result, freeing) == [e.(address := result), Release(e)];
      assert k.args[tid := e.(address := result)] - {tid} == k.args - {tid};
      assert Release(e.(address := result)) == Release(e);
      assert (k.ring + [e.(address := result)]) + [Release(e)] == k.ring + [e.(address := result), Release(e)];
      assert Delivered([e.(address := result), Release(e)], true, false) == [e.(address := result)];
      assert k.ring + [e.(address := result)] + [] == k.ring + [e.(address := result)];
    }
  }

  function Discarded(k: Kernel, tid: Tid): Kernel {
    k.(args := k.args - {tid})
  }

  predicate RoomFor(args: map<Tid, Event>, tid: Tid) {
    tid in args || |args| < ARGS_HASH_SIZE
  }

  function Recorded(k: Kernel, tid: Tid, e: Event): Kernel {
    if RoomFor(k.args, tid) then k.(args := k.args[tid := e]) else k
  }

  function FreeEvent(pid: u64, address: u64): Event {
    Event(address, pid, Free, 0, 0, NO_TRACE, 0)
  }

  function AllocEvent(pid: u64, size: u64, stack: Stack, previous: u64): Event {
    Event(0, pid, Alloc, size, FrameCount(stack.result), stack.trace, previous)
  }

  function Count(k: Kernel, cpu: nat): int {
    if cpu in k.counts then k.counts[cpu] else 0
  }

  predicate Sampled(k: Kernel, rate: int, cpu: nat) {
    rate <= 1 || Count(k, cpu) + 1 >= rate
  }

  function Ticked(k: Kernel, rate: int, cpu: nat): Kernel {
    if rate <= 1 then k
    else k.(counts := k.counts[cpu := if Sampled(k, rate, cpu) then 0 else Count(k, cpu) + 1])
  }

  // ----- how often a call is sampled

  /** The counters after allocation calls on these processors. */
  function TickedAll(k: Kernel, rate: int, cpus: seq<nat>): Kernel
    decreases |cpus|
  {
    if cpus == [] then k else TickedAll(Ticked(k, rate, cpus[0]), rate, cpus[1..])
  }

  /** How many of the calls were made on one processor. */
  function CallsOn(cpus: seq<nat>, cpu: nat): nat {
    if cpus == [] then 0 else (if cpus[0] == cpu then 1 else 0) + CallsOn(cpus[1..], cpu)
  }

  /** How many of those were sampled. */
  function SampledOn(k: Kernel, rate: int, cpus: seq<nat>, cpu: nat): nat
    decreases |cpus|
  {
    if cpus == [] then 0
    else
      (if cpus[0] == cpu && Sampled(k, rate, cpu) then 1 else 0) +
      SampledOn(Ticked(k, rate, cpus[0]), rate, cpus[1..], cpu)
  }

  /** In any mix of calls on any processors, each processor samples every rate-th of its own calls, or, at a rate of
      one or less, all of them. */
  lemma {:induction false} SamplesEveryRate(k: Kernel, rate: int, cpus: seq<nat>, cpu: nat)
    requires rate > 1 ==> 0 <= Count(k, cpu) < rate
    ensures var left := Count(TickedAll(k, rate, cpus), cpu);
      var sampled := SampledOn(k, rate, cpus, cpu);
      if rate > 1 then 0 <= left < rate && sampled * rate + left == Count(k, cpu) + CallsOn(cpus, cpu)
      else sampled == CallsOn(cpus, cpu) && TickedAll(k, rate, cpus) == k
    decreases |cpus|
  {
    if cpus != [] {
      SamplesEveryRate(Ticked(k, rate, cpus[0]), rate, cpus[1..], cpu);
      OneMoreTime(SampledOn(Ticked(k, rate, cpus[0]), rate, cpus[1..], cpu), rate);
    }
  }

  lemma OneMoreTime(n: nat, rate: int)
    ensures (1 + n) * rate == n * rate + rate
  {
  }

  function AllocEntered(k: Kernel, pid: u64, rate: int, cpu: nat, tid: Tid, size: u64, stack: Stack): Kernel {
    var ticked := Ticked(k, rate, cpu);
    if Sampled(k, rate, cpu) then Recorded(ticked, tid, AllocEvent(pid, size, stack, 0)) else ticked
  }

  function Linked(k: Kernel, tid: Tid, previous: u64): Kernel {
    if tid in k.args then k.(args := k.args[tid := k.args[tid].(previous := previous)]) else k
  }

  function ReallocEntered(k: Kernel, pid: u64, rate: int, cpu: nat, tid: Tid, ptr: u64, size: u64, stack: Stack)
    : Kernel
  {
    Linked(AllocEntered(k, pid, rate, cpu, tid, size, stack), tid, ptr)
  }

  /** `calloc`'s probe declares its count a C int: the low 32 bits, signed. */
  function AsInt(register: u64): int {
    var low := register % U32_LIMIT;
    if low < 0x8000_0000 then low else low - U32_LIMIT
  }

  /** `reallocarray`'s declares it a C long. */
  function AsLong(register: u64): int {
    if register < 0x8000_0000_0000_0000 then register else register - U64_LIMIT
  }

  /** The total an array probe records, if it records the call at all. */
  function ArrayTotal(size: u64, count: int): Option<u64>
    requires count < 0x8000_0000_0000_0000
  {
    if count < 0 then None else ArraySize.Checked(size, count)
  }

  function CallocEntered(k: Kernel, pid: u64, rate: int, cpu: nat, tid: Tid, count: u64, size: u64, stack: Stack)
    : Kernel
  {
    match ArrayTotal(size, AsInt(count))
    case None => k
    case Some(total) => AllocEntered(k, pid, rate, cpu, tid, total, stack)
  }

  function ReallocArrayEntered(k: Kernel, pid: u64, rate: int, cpu: nat, tid: Tid, ptr: u64, count: u64, size: u64,
                               stack: Stack)
    : Kernel
  {
    match ArrayTotal(size, AsLong(count))
    case None => k
    case Some(total) => ReallocEntered(k, pid, rate, cpu, tid, ptr, total, stack)
  }

  /** A sampled `calloc` is recorded with count times size for every count below 2^31, if that fits; of a larger count
      only the low 32 bits are taken, and none if these are 2^31 or more. */
  lemma CallocRecords(k: Kernel, pid: u64, rate: int, cpu: nat, tid: Tid, count: u64, size: u64, stack: Stack)
    requires Sampled(k, rate, cpu) && RoomFor(k.args, tid)
    ensures var after := CallocEntered(k, pid, rate, cpu, tid, count, size, stack);
      var low := count % 0x1_0000_0000;
      if low < 0x8000_0000 && low * size < 0x1_0000_0000_0000_0000 then
        && tid in after.args && after.args[tid].kind == Alloc && after.args[tid].size == low * size
        && after.args[tid].previous == 0 && after.ring == k.ring && after.lost == k.lost
      else after == k
    ensures count < 0x8000_0000 ==> count % 0x1_0000_0000 == count
  {
    var low := count % 0x1_0000_0000;
    if low < 0x8000_0000 {
      ArraySize.Exact(size, low);
      assert low * size == size * low;
    }
  }

  /** A sampled `reallocarray` is recorded with its old address and count times size for every count up to 2^32 + 1, if
      that fits, and not at all for counts of 2^63 or more. */
  lemma ReallocArrayRecords(k: Kernel, pid: u64, rate: int, cpu: nat, tid: Tid, ptr: u64, count: u64, size: u64,
                            stack: Stack)
    requires Sampled(k, rate, cpu) && RoomFor(k.args, tid)
    ensures var after := ReallocArrayEntered(k, pid, rate, cpu, tid, ptr, count, size, stack);
      && (count >= 0x8000_0000_0000_0000 ==> after == k)
      && (count <= 0x1_0000_0001 ==>
            if count * size < 0x1_0000_0000_0000_0000 then
              && tid in after.args && after.args[tid].kind == Alloc && after.args[tid].size == count * size
              && after.args[tid].previous == ptr && after.ring == k.ring && after.lost == k.lost
            else after == k)
  {
    if count <= 0x1_0000_0001 {
      ArraySize.Exact(size, count);
      assert count * size == size * count;
    }
  }

  /** A call that enters while 10240 others are recorded is not recorded. */
  lemma FullMapDrops(k: Kernel, pid: u64, rate: int, cpu: nat, tid: Tid, size: u64, address: u64, stack: Stack)
    requires tid !in k.args && |k.args| >= 10240
    ensures AllocEntered(k, pid, rate, cpu, tid, size, stack).args == k.args
    ensures Recorded(k, tid, FreeEvent(pid, address)) == k
  {
  }

  const MAP_FAILED: u64 := U64_LIMIT - 1

  function MmapReturned(k: Kernel, tid: Tid, result: u64, first: bool, second: bool): Kernel {
    if result == MAP_FAILED then Discarded(k, tid) else Sent(k, tid, result, false, first, second)
  }

  function MunmapReturned(k: Kernel, tid: Tid, result: u64, first: bool, second: bool): Kernel {
    if result == 0 then Sent(k, tid, 0, true, first, second) else Discarded(k, tid)
  }

  // ----- the probes themselves

  /** The probe program's maps and settings. The Boolean arguments of the return probes are the
      outcomes of their ring-buffer outputs; the stack argument is what stack capture left behind. */
  class Program {
    const targetPid: u64
    const sampleRate: int
    var args: map<Tid, Event>
    var counts: map<nat, int>
    var ring: seq<Event>
    var lost: nat

    function State(): Kernel
      reads this
    {
      Kernel(args, counts, ring, lost)
    }

    constructor (targetPid: u64, sampleRate: int)
      ensures this.targetPid == targetPid && this.sampleRate == sampleRate
      ensures State() == EMPTY
    {
      this.targetPid := targetPid;
      this.sampleRate := sampleRate;
      args, counts, ring, lost := map[], map[], [], 0;
    }

    method CheckSampleRate(cpu: nat) returns (sampled: bool)
      modifies this
      ensures sampled == Sampled(old(State()), sampleRate, cpu)
      ensures State() == Ticked(old(State()), sampleRate, cpu)
    {
      if sampleRate <= 1 {
        return true;
      }
      var current := (if cpu in counts then counts[cpu] else 0) + 1;
      if current >= sampleRate {
        current := 0;
        sampled := true;
      } else {
        sampled := false;
      }
      counts := counts[cpu := current];
    }

    method DiscardEvent(tid: Tid)
      modifies this
      ensures State() == Discarded(old(State()), tid)
    {
      args := args - {tid};
    }

    method RecordLostEvent()
      modifies this
      ensures State() == old(State()).(lost := old(lost) + 1)
    {
      lost := lost + 1;
    }

    method RingOutput(event: Event, ok: bool)
      modifies this
      ensures State() == old(State()).(ring := old(ring) + if ok then [event] else [])
    {
      if ok {
        ring := ring + [event];
      }
    }

    method UpdateArgs(tid: Tid, event: Event)
      modifies this
      ensures State() == Recorded(old(State()), tid, event)
    {
      if tid in args || |args| < ARGS_HASH_SIZE {
        args := args[tid := event];
      }
    }

    /** Up to the first output; `more` says that the release of the old address is still to be sent. */
    method SendFirst(alloc: u64, freeOp: bool, tid: Tid, first: bool) returns (more: bool)
      modifies this
      ensures State() == FirstSent(old(State()), tid, alloc, freeOp, first)
      ensures more == SecondDue(old(State()), tid, alloc, freeOp, first)
    {
      if tid !in args {
        return false;
      }
      ghost var before := State();
      var event := args[tid];
      if !freeOp && alloc == 0 {
        if event.previous != 0 && event.size == 0 {
          event := event.(kind := Free, address := event.previous);
          event := event.(previous := 0, frames := 0);
          RingOutput(event, first);
        }
        DiscardEvent(tid);
        return false;
      }
      if !freeOp {
        event := event.(address := alloc);
      }
      RingOutput(event, first);
      if !first {
        RecordLostEvent();
        DiscardEvent(tid);
        assert State().ring == before.ring + [];
        return false;
      }
      if !freeOp && event.previous != 0 && event.previous != alloc {
        args := args[tid := event];
        return true;
      }
      args := args - {tid};
      more := false;
    }

    method SendSecond(tid: Tid, second: bool)
      requires tid in args
      modifies this
      ensures State() == SecondSent(old(State()), tid, second)
    {
      var event := args[tid];
      event := event.(kind := Free, address := event.previous);
      event := event.(previous := 0, size := 0, frames := 0);
      RingOutput(event, second);
      if !second {
        RecordLostEvent();
      }
      args := args - {tid};
    }

    method SendEvent(alloc: u64, freeOp: bool, tid: Tid, first: bool, second: bool)
      modifies this
      ensures State() == Sent(old(State()), tid, alloc, freeOp, first, second)
    {
      SentInTwo(State(), tid, alloc, freeOp, first, second);
      var more := SendFirst(alloc, freeOp, tid, first);
      if more {
        SendSecond(tid, second);
      }
    }

    method ResourceFreeHelper(alloc: u64, tid: Tid)
      modifies this
      ensures State() == Recorded(old(State()), tid, FreeEvent(targetPid, alloc))
    {
      var event := Event(0, 0, Alloc, 0, 0, NO_TRACE, 0);
      event := event.(pid := targetPid, kind := Free, address := alloc);
      UpdateArgs(tid, event);
    }

    method ResourceAllocHelper(size: u64, cpu: nat, tid: Tid, stack: Stack)
      modifies this
      ensures State() == AllocEntered(old(State()), targetPid, sampleRate, cpu, tid, size, stack)
    {
      var sampled := CheckSampleRate(cpu);
      if !sampled {
        return;
      }
      var event := Event(0, 0, Free, 0, 0, NO_TRACE, 0);
      event := event.(size := size, pid := targetPid, kind := Alloc, address := 0);
      event := event.(frames := FrameCount(stack.result), trace := stack.trace);
      UpdateArgs(tid, event);
    }

    method SetPreviousAddress(tid: Tid, ptr: u64)
      modifies this
      ensures State() == Linked(old(State()), tid, ptr)
    {
      if tid in args {
        args := args[tid := args[tid].(previous := ptr)];
      }
    }

    method MmapEnter(size: u64, cpu: nat, tid: Tid, stack: Stack)
      modifies this
      ensures State() == AllocEntered(old(State()), targetPid, sampleRate, cpu, tid, size, stack)
    {
      ResourceAllocHelper(size, cpu, tid, stack);
    }

    method MmapExit(tid: Tid, result: u64, first: bool, second: bool)
      modifies this
      ensures State() == MmapReturned(old(State()), tid, result, first, second)
    {
      if result == 0xffff_ffff_ffff_ffff {
        DiscardEvent(tid);
      } else {
        SendEvent(result, false, tid, first, second);
      }
    }

    method MunmapEnter(address: u64, tid: Tid)
      modifies this
      ensures State() == Recorded(old(State()), tid, FreeEvent(targetPid, address))
    {
      ResourceFreeHelper(address, tid);
    }

    method MunmapExit(tid: Tid, result: u64, first: bool, second: bool)
      modifies this
      ensures State() == MunmapReturned(old(State()), tid, result, first, second)
    {
      if result == 0 {
        SendEvent(0, true, tid, first, second);
      } else {
        DiscardEvent(tid);
      }
    }

    method MallocEnter(size: u64, cpu: nat, tid: Tid, stack: Stack)
      modifies this
      ensures State() == AllocEntered(old(State()), targetPid, sampleRate, cpu, tid, size, stack)
    {
      ResourceAllocHelper(size, cpu, tid, stack);
    }

    method CallocEnter(count: u64, size: u64, cpu: nat, tid: Tid, stack: Stack)
      modifies this
      ensures State() == CallocEntered(old(State()), targetPid, sampleRate, cpu, tid, count, size, stack)
    {
      var n := AsInt(count);
      if n < 0 {
        return;
      }
      var ok, total := ArraySize.CheckedArraySize(size, n);
      if !ok {
        return;
      }
      ResourceAllocHelper(total, cpu, tid, stack);
    }

    method ReallocEnter(ptr: u64, size: u64, cpu: nat, tid: Tid, stack: Stack)
      modifies this
      ensures State() == ReallocEntered(old(State()), targetPid, sampleRate, cpu, tid, ptr, size, stack)
    {
      ResourceAllocHelper(size, cpu, tid, stack);
      SetPreviousAddress(tid, ptr);
    }

    method ReallocArrayEnter(ptr: u64, count: u64, size: u64, cpu: nat, tid: Tid, stack: Stack)
      modifies this
      ensures State() == ReallocArrayEntered(old(State()), targetPid, sampleRate, cpu, tid, ptr, count, size, stack)
    {
      var n := AsLong(count);
      if n < 0 {
        return;
      }
      var ok, total := ArraySize.CheckedArraySize(size, n);
      if !ok {
        return;
      }
      ResourceAllocHelper(total, cpu, tid, stack);
      SetPreviousAddress(tid, ptr);
    }

    /** The return probe shared in form by malloc, calloc, realloc and reallocarray. */
    method AllocExit(tid: Tid, result: u64, first: bool, second: bool)
      modifies this
      ensures State() == Sent(old(State()), tid, result, false, first, second)
    {
      SendEvent(result, false, tid, first, second);
    }

    method FreeEnter(address: u64, tid: Tid)
      modifies this
      ensures State() == Recorded(old(State()), tid, FreeEvent(targetPid, address))
    {
      ResourceFreeHelper(address, tid);
    }

    method FreeExit(tid: Tid, first: bool, second: bool)
      modifies this
      ensures State() == Sent(old(State()), tid, 0, true, first, second)
    {
      SendEvent(0, true, tid, first, second);
    }
  }
}
