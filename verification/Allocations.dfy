/** User space: ring-buffer records replayed into a map of live allocations. */
module Allocations {
  import opened Bytes
  import opened Probes

  const EVENT_HEADER_SIZE: nat := 40
  const RESTRACK_ALLOC: u32 := 1
  const RESTRACK_FREE: u32 := 2

  datatype Allocation = Allocation(size: u64, stack: seq<u64>)

  type Tracked = map<u64, Allocation>

  /** The leading frames of a captured trace, up to the first zero. */
  function NonZeroPrefix(trace: seq<u64>): (r: seq<u64>)
    ensures r <= trace
    ensures forall x :: x in r ==> x != 0
    ensures |r| < |trace| ==> trace[|r|] == 0
  {
    if trace == [] || trace[0] == 0 then [] else [trace[0]] + NonZeroPrefix(trace[1..])
  }

  function CallStack(e: Event): seq<u64> {
    NonZeroPrefix(e.trace[..Min(AsSigned(e.frames), MAX_CALL_STACK_FRAMES)])
  }

  /** A frame count with the sign bit set is clamped to no frames. */
  function AsSigned(n: u64): nat {
    if n < 0x8000_0000_0000_0000 then n else 0
  }

  /** How many frames of a captured trace are looked at. An error counts as all of them. */
  function FramesKept(result: int): (n: nat)
    ensures n <= 100
  {
    if 0 <= result < 800 then result / 8 else 100
  }

  /** The stack kept for an allocation: the frames captured, up to the first zero. */
  lemma StackKept(pid: u64, size: u64, stack: Stack, previous: u64, address: u64)
    ensures var kept := CallStack(AllocEvent(pid, size, stack, previous).(address := address));
      && kept <= stack.trace && |kept| <= FramesKept(stack.result)
      && (forall i :: 0 <= i < |kept| ==> kept[i] != 0)
      && (|kept| < FramesKept(stack.result) ==> stack.trace[|kept|] == 0)
  {
    var e := AllocEvent(pid, size, stack, previous).(address := address);
    FramesCounted(stack.result);
    var looked := e.trace[..FramesKept(stack.result)];
    assert CallStack(e) == NonZeroPrefix(looked);
    forall i | 0 <= i < |CallStack(e)| ensures CallStack(e)[i] != 0 {
      assert CallStack(e)[i] in CallStack(e);
    }
  }

  /** Of any record no more frames are kept than it counts, and none if its count is negative as a signed number. */
  lemma StackBounded(e: Event)
    ensures if e.frames < 0x8000_0000_0000_0000 then |CallStack(e)| <= e.frames else CallStack(e) == []
  {
  }

  lemma FramesCounted(result: int)
    requires -0x8000_0000_0000_0000 <= result < 0x8000_0000_0000_0000
    ensures Min(AsSigned(FrameCount(result)), MAX_CALL_STACK_FRAMES) == FramesKept(result)
  {
  }

  /** One event's effect on the map. */
  function Applied(m: Tracked, e: Event): Tracked {
    match e.kind
    case Alloc => m[e.address := Allocation(e.size, CallStack(e))]
    case Free => m - {e.address}
  }

  function Replay(events: seq<Event>): Tracked {
    if events == [] then map[] else Applied(Replay(events[..|events| - 1]), events[|events| - 1])
  }

  lemma {:induction false} ReplayAppend(events: seq<Event>, more: seq<Event>)
    requires |more| <= 2
    ensures Replay(events + more) ==
            if |more| == 0 then Replay(events)
            else if |more| == 1 then Applied(Replay(events), more[0])
            else Applied(Applied(Replay(events), more[0]), more[1])
  {
    var all := events + more;
    if |more| == 0 {
      assert all == events;
    } else {
      assert all[..|all| - 1] == events + more[..|more| - 1];
      ReplayAppend(events, more[..|more| - 1]);
    }
  }

  // ----- the record as bytes

  function KindCode(kind: Kind): u32 {
    match kind
    case Alloc => 1
    case Free => 2
  }

  function Words(words: seq<u64>): (s: seq<byte>)
    ensures |s| == 8 * |words|
  {
    if words == [] then [] else Le64(words[0]) + Words(words[1..])
  }

  /** The C structure as it lies in the ring buffer. */
  function Record(e: Event): (s: seq<byte>)
    ensures |s| == 848
  {
    Le64(e.address) + Le64(e.pid) + Le32(KindCode(e.kind)) + Zeroes(4) + Le64(e.size) + Le64(e.frames)
    + Words(e.trace) + Le64(e.previous)
  }

  /** Frame `i` of a record. */
  function FrameAt(data: seq<byte>, i: nat): u64
    requires EVENT_HEADER_SIZE + 8 * i + 8 <= |data|
  {
    U64At(data, EVENT_HEADER_SIZE + 8 * i)
  }

  function FrameTotal(data: seq<byte>): (n: nat)
    requires |data| >= EVENT_HEADER_SIZE
    ensures EVENT_HEADER_SIZE + 8 * n <= |data|
  {
    Min(Min(AsSigned(U64At(data, 32)), MAX_CALL_STACK_FRAMES), (|data| - EVENT_HEADER_SIZE) / 8)
  }

  function FramesOf(data: seq<byte>, n: nat): (frames: seq<u64>)
    requires EVENT_HEADER_SIZE + 8 * n <= |data|
    ensures |frames| == n && forall i :: 0 <= i < n ==> frames[i] == FrameAt(data, i)
  {
    seq(n, i requires 0 <= i < n => FrameAt(data, i))
  }

  /** The effect of a record given as bytes, for bytes of any length and content. */
  function Handled(m: Tracked, data: seq<byte>): Tracked {
    if |data| < EVENT_HEADER_SIZE then m
    else
      var address := U64At(data, 0);
      var resource := U32At(data, 16);
      if resource == RESTRACK_ALLOC then
        m[address := Allocation(U64At(data, 24), NonZeroPrefix(FramesOf(data, FrameTotal(data))))]
      else if resource == RESTRACK_FREE then m - {address}
      else m
  }

  class Collector {
    var allocations: Tracked

    constructor ()
      ensures allocations == map[]
    {
      allocations := map[];
    }

    method HandleEvent(data: seq<byte>)
      modifies this
      ensures allocations == Handled(old(allocations), data)
    {
      if |data| < EVENT_HEADER_SIZE {
        return;
      }
      var address := U64At(data, 0);
      var resource := U32At(data, 16);
      if resource == RESTRACK_ALLOC {
        var size := U64At(data, 24);
        var total := FrameTotal(data);
        var stack: seq<u64> := [];
        var index: nat := 0;
        while index < total
          invariant index <= total
          invariant stack == FramesOf(data, index)
          invariant forall i :: 0 <= i < index ==> FrameAt(data, i) != 0
        {
          var frame := FrameAt(data, index);
          if frame == 0 {
            break;
          }
          stack := stack + [frame];
          index := index + 1;
        }
        PrefixUnique(FramesOf(data, total), stack);
        allocations := allocations[address := Allocation(size, stack)];
      } else if resource == RESTRACK_FREE {
        allocations := allocations - {address};
      }
    }
  }

  lemma {:induction false} PrefixUnique(trace: seq<u64>, r: seq<u64>)
    requires r <= trace
    requires forall i :: 0 <= i < |r| ==> r[i] != 0
    requires |r| < |trace| ==> trace[|r|] == 0
    ensures NonZeroPrefix(trace) == r
  {
    if r != [] {
      assert trace[0] == r[0] != 0;
      PrefixUnique(trace[1..], r[1..]);
    }
  }

  // ----- the bytes carry the event

  lemma {:induction false} WordAt(words: seq<u64>, i: nat)
    requires i < |words|
    ensures Words(words)[8 * i..8 * i + 8] == Le64(words[i])
  {
    if i == 0 {
      assert Words(words)[0..8] == Le64(words[0]);
    } else {
      WordAt(words[1..], i - 1);
      var rest := Words(words[1..]);
      assert Words(words)[8 * i..8 * i + 8] == rest[8 * (i - 1)..8 * (i - 1) + 8];
    }
  }

  lemma RecordFields(e: Event)
    ensures U64At(Record(e), 0) == e.address
    ensures U32At(Record(e), 16) == KindCode(e.kind)
    ensures U64At(Record(e), 24) == e.size
    ensures U64At(Record(e), 32) == e.frames
  {
    var s := Record(e);
    assert s[0..8] == Le64(e.address);
    assert s[16..20] == Le32(KindCode(e.kind));
    assert s[24..32] == Le64(e.size);
    assert s[32..40] == Le64(e.frames);
  }

  lemma RecordFrame(e: Event, i: nat)
    requires i < MAX_CALL_STACK_FRAMES
    ensures FrameAt(Record(e), i) == e.trace[i]
  {
    var s := Record(e);
    assert s[40..840] == Words(e.trace);
    WordAt(e.trace, i);
    assert s[40 + 8 * i..40 + 8 * i + 8] == s[40..840][8 * i..8 * i + 8];
  }

  /** Replaying a record's bytes does what the event means. */
  lemma RecordReplays(m: Tracked, e: Event)
    ensures Handled(m, Record(e)) == Applied(m, e)
  {
    RecordFields(e);
    if e.kind == Alloc {
      var s := Record(e);
      var n := FrameTotal(s);
      forall i | 0 <= i < n ensures FramesOf(s, n)[i] == e.trace[i] {
        RecordFrame(e, i);
      }
      assert FramesOf(s, n) == e.trace[..n];
      assert n == Min(AsSigned(e.frames), MAX_CALL_STACK_FRAMES);
    }
  }
}
