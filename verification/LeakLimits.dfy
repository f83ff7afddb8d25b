/** Where the tracker stops being exact, and exactly when. */
module LeakLimits {
  import opened Bytes
  import opened Probes
  import opened Allocations
  import opened LeakRuns
  import ArraySize

  // ----- sampling

  ghost predicate ExactWith(s: Settings) {
    forall actions: seq<Action> :: Legal(START, s, actions) && Orderly(START, s, actions) ==>
      var w := Run(START, s, actions);
      Lossless(w) && (forall t :: !IsDue(w, t)) ==> Agrees(w)
  }

  const SOME_STACK: Stack := Capture(0, NO_TRACE)

  /** The tracker is exact for every orderly run exactly when it does not sample. */
  lemma ExactIffNotSampling(s: Settings)
    ensures ExactWith(s) <==> s.rate <= 1
  {
    if s.rate <= 1 {
      forall actions: seq<Action> | Legal(START, s, actions) && Orderly(START, s, actions)
        ensures var w := Run(START, s, actions); Lossless(w) && (forall t :: !IsDue(w, t)) ==> Agrees(w)
      {
        TrackerIsExact(s, actions);
      }
    } else {
      MissedAllocation(s);
    }
  }

  lemma MissedAllocation(s: Settings)
    requires s.rate > 1
    ensures !ExactWith(s)
  {
    hide Legal, Possible, Orderly, Run, Leaves, InTurn;
    var a, b, c := Enter(1, Malloc(8), 0, SOME_STACK), Commit(1, 4096), Deliver(1, true);
    var w1 := Next(START, s, a);
    var w2 := Next(w1, s, b);
    var w3 := Next(w2, s, c);
    assert w1.kernel.args == map[];
    FirstInTurn(w2, 1);
    RunOfThree(START, s, a, b, c);
    assert w3.kernel.ring == [] && 4096 in w3.heap && Lossless(w3);
    assert forall t :: !IsDue(w3, t);
    assert !Agrees(w3);
  }

  lemma FirstInTurn(w: World, tid: Tid)
    requires IsDue(w, tid) && w.threads[tid].at == 0
    ensures InTurn(w, tid, true)
  {
  }

  lemma RunOfThree(w: World, s: Settings, a: Action, b: Action, c: Action)
    requires Enabled(w, a) && Respected(w, a) && OutputInTurn(w, a)
    requires var v := Next(w, s, a); Enabled(v, b) && Respected(v, b) && OutputInTurn(v, b)
    requires var v := Next(Next(w, s, a), s, b); Enabled(v, c) && Respected(v, c) && OutputInTurn(v, c)
    ensures Legal(w, s, [a, b, c]) && Orderly(w, s, [a, b, c])
    ensures Run(w, s, [a, b, c]) == Next(Next(Next(w, s, a), s, b), s, c)
  {
    hide Next, Enabled, Respected, OutputInTurn;
    var w1 := Next(w, s, a);
    var w2 := Next(w1, s, b);
    assert [a, b, c][1..] == [b, c] && [b, c][1..] == [c] && [c][1..] == [];
    var w3 := Next(w2, s, c);
    assert Legal(w3, s, []) && Orderly(w3, s, []) && Run(w3, s, []) == w3;
    assert Legal(w2, s, [c]) && Orderly(w2, s, [c]) && Run(w2, s, [c]) == Next(w2, s, c);
    assert Legal(w1, s, [b, c]) && Orderly(w1, s, [b, c]) && Run(w1, s, [b, c]) == Next(w2, s, c);
  }

  // ----- two calls at one address

  /** All that is due of a return probe, uninterrupted; `first` and `second` are its outputs' outcomes. */
  function Reported(w: World, s: Settings, tid: Tid, first: bool, second: bool): World
    requires IsDue(w, tid)
  {
    var v := if IsCommitted(w, tid) then Next(w, s, Deliver(tid, first)) else w;
    if tid in v.threads && v.threads[tid].Halfway? then Next(v, s, Follow(tid, second)) else v
  }

  lemma DeliveredKeeps(w: World, s: Settings, tid: Tid, first: bool, second: bool)
    requires Inv(w) && IsDue(w, tid)
    ensures var v := Reported(w, s, tid, first, second);
      && Inv(v) && v.heap == w.heap && v.changes == w.changes && v.threads == Returned(w.threads, tid)
  {
    hide Inv, Leaves, ChangeOf, Moves, FirstReturn, LostSilently;
    var v := w;
    if IsCommitted(w, tid) {
      DeliverKeeps(w, s, Deliver(tid, first));
      v := Next(w, s, Deliver(tid, first));
    }
    if tid in v.threads && v.threads[tid].Halfway? {
      FollowKeeps(v, s, Follow(tid, second));
    }
  }

  /** The last to touch the address decides what is reported there. */
  lemma DeliveredLeaves(w: World, s: Settings, tid: Tid, first: bool, second: bool, a: u64)
    requires IsDue(w, tid)
    ensures Leaves(Reported(w, s, tid, first, second).reported, a) ==
            if a in Touched(Pending(w, tid)) then LeftBy(Pending(w, tid), a) else Leaves(w.reported, a)
  {
    hide Leaves, LeftBy, Touched, ChangeOf, Moves, FirstReturn, LostSilently, Gained, Freed;
    var c := Pending(w, tid);
    if IsCommitted(w, tid) && first && Moves(c) {
      PartsOf(c);
      LeavesLast(w.reported, Gained(c), a);
      LeavesLast(w.reported + [Gained(c)], Freed(c), a);
    } else {
      LeavesLast(w.reported, c, a);
    }
  }

  /** When its outputs succeed nothing is lost. */
  lemma DeliveredWhole(w: World, s: Settings, tid: Tid)
    requires Inv(w) && Lossless(w) && IsDue(w, tid)
    ensures Lossless(Reported(w, s, tid, true, true))
  {
    hide Leaves, ChangeOf, Moves, Armed, Plausible, Accountable;
  }

  /** What is due of both return probes, one after the other, with every output succeeding. */
  function BothReported(w: World, s: Settings, one: Tid, other: Tid): World
    requires IsDue(w, one) && IsDue(w, other) && one != other
  {
    OthersDue(w, s, one, other);
    Reported(Reported(w, s, one, true, true), s, other, true, true)
  }

  lemma OthersDue(w: World, s: Settings, one: Tid, other: Tid)
    requires IsDue(w, one) && IsDue(w, other) && one != other
    ensures var m := Reported(w, s, one, true, true); IsDue(m, other) && m.threads[other] == w.threads[other]
  {
    hide ChangeOf, Moves, FirstReturn, LostSilently;
  }

  lemma BothLeave(w: World, s: Settings, one: Tid, other: Tid, a: u64)
    requires Inv(w) && Lossless(w)
    requires IsDue(w, one) && IsDue(w, other) && one != other
    requires a in Touched(Pending(w, one)) && a in Touched(Pending(w, other))
    ensures var v := BothReported(w, s, one, other);
      v.heap == w.heap && Lossless(v) && SizeOf(Map(v), a) == LeftBy(Pending(w, other), a)
  {
    hide Leaves, LeftBy, Touched, ChangeOf, Inv, Lossless, Reported, Moves, Freed;
    var m := Reported(w, s, one, true, true);
    var v := BothReported(w, s, one, other);
    DeliveredWhole(w, s, one);
    DeliveredKeeps(w, s, one, true, true);
    OthersDue(w, s, one, other);
    DeliveredWhole(m, s, other);
    DeliveredKeeps(m, s, other, true, true);
    DeliveredLeaves(m, s, other, true, true, a);
    MapAt(v, a);
  }

  lemma MapAt(w: World, a: u64)
    requires Inv(w) && Lossless(w)
    ensures SizeOf(Map(w), a) == Leaves(w.reported, a)
  {
  }

  /** A second call changes the heap at an address that a first one changed, before that was reported. When both
      have been reported the map is right there exactly when that was in the order of the changes, or the two changes
      leave the same. */
  lemma RightIffInOrder(w: World, s: Settings, first: Tid, second: Tid, result: u64, a: u64, inOrder: bool)
    requires Inv(w) && Lossless(w) && IsDue(w, first) && a in Touched(Pending(w, first))
    requires second in w.threads && w.threads[second].Inner?
    requires var call := w.threads[second].call;
      Plausible(call, result) && Accountable(call, result) && a in Touched(ChangeOf(call, result))
    ensures first != second
    ensures var c := Next(w, s, Commit(second, result));
      var v := if inOrder then BothReported(c, s, first, second) else BothReported(c, s, second, first);
      SizeOf(Map(v), a) == SizeIn(v.heap, a) <==>
        inOrder || LeftBy(Pending(w, first), a) == LeftBy(ChangeOf(w.threads[second].call, result), a)
  {
    hide Leaves, LeftBy, Touched, ChangeOf, Armed, Plausible, Accountable, Changed, Lossless, Freed, BothReported, Inv;
    var c := Next(w, s, Commit(second, result));
    CommitKeeps(w, s, Commit(second, result));
    StillLossless(w, c);
    ChangeLeaves(w.heap, Pending(c, second), a);
    assert Pending(c, first) == Pending(w, first);
    if inOrder {
      BothLeave(c, s, first, second, a);
    } else {
      BothLeave(c, s, second, first, a);
    }
  }

  lemma StillLossless(w: World, v: World)
    requires Lossless(w) && v.kernel == w.kernel && v.uncounted == w.uncounted
    ensures Lossless(v)
  {
  }

  /** An address whose free has not returned yet is handed out again: when both probes have fired, the map is right
      there exactly when the free's fired first; otherwise the live block is missing, and no loss is counted. */
  lemma ReissueRightIffFreeFirst(w: World, s: Settings, freer: Tid, taker: Tid, address: u64, freeFirst: bool)
    requires Inv(w) && Lossless(w) && address != 0
    requires IsCommitted(w, freer) && w.threads[freer].call == Call.Free(address)
    requires taker in w.threads && w.threads[taker].Inner? && w.threads[taker].call.Malloc?
    ensures freer != taker
    ensures var c := Next(w, s, Commit(taker, address));
      var v := if freeFirst then BothReported(c, s, freer, taker) else BothReported(c, s, taker, freer);
      && v.kernel.lost == 0 && address in v.heap
      && (SizeOf(Map(v), address) == SizeIn(v.heap, address) <==> freeFirst)
      && (!freeFirst ==> address !in Map(v))
  {
    hide Leaves, Armed, BothReported, Fits, AllAccountable, HeapFollows, MapFollows;
    RightIffInOrder(w, s, freer, taker, address, address, freeFirst);
    var a := Commit(taker, address);
    CommitKeeps(w, s, a);
    var c := Next(w, s, a);
    if freeFirst {
      BothLeave(c, s, freer, taker, address);
    } else {
      BothLeave(c, s, taker, freer, address);
    }
  }

  // ----- one call alone

  /** A world between calls whose map is right. */
  ghost predicate Idle(w: World) {
    && Inv(w) && Lossless(w) && w.threads == map[]
    && forall a :: Leaves(w.reported, a) == Leaves(w.changes, a)
  }

  /** One call from entry to return while no other is in progress; `first` and `second` are its outputs' outcomes. */
  function Alone(w: World, s: Settings, tid: Tid, call: Call, result: u64, stack: Stack, first: bool,
                 second: bool)
    : World
    requires w.threads == map[] && Plausible(call, result)
  {
    var e := Entered(w, s, tid, call, stack);
    var v := Reported(Next(e, s, Commit(tid, result)), s, tid, first, second);
    if Nests(call) then Next(v, s, Leave(tid, first, second)) else v
  }

  /** The call up to the return of its working part's entry probe. */
  function Entered(w: World, s: Settings, tid: Tid, call: Call, stack: Stack): (e: World)
    requires w.threads == map[]
    ensures tid in e.threads && e.threads[tid] == Inner(call)
  {
    var e := Next(w, s, Enter(tid, call, 0, stack));
    if Nests(call) then Next(e, s, Nest(tid, 0, stack)) else e
  }

  lemma EnteredKeeps(w: World, s: Settings, tid: Tid, call: Call, stack: Stack)
    requires s.rate <= 1 && Idle(w)
    ensures var e := Entered(w, s, tid, call, stack);
      && Inv(e) && Lossless(e) && Armed(e.kernel.args, tid, call)
      && e == w.(kernel := w.kernel.(args := e.kernel.args), threads := e.threads)
  {
    hide Leaves, Armed, Inv;
    var a := Enter(tid, call, 0, stack);
    StepKeeps(w, s, a);
    FitsOf(w);
    NoOutput(w, s, a);
    var e := Next(w, s, a);
    if Nests(call) {
      StepKeeps(e, s, Nest(tid, 0, stack));
      FitsOf(e);
      NoOutput(e, s, Nest(tid, 0, stack));
    }
    FitsOf(Entered(w, s, tid, call, stack));
    assert ThreadOk(Entered(w, s, tid, call, stack), tid);
  }

  lemma ReturnDisarms(k: Kernel, tid: Tid, call: Call, result: u64, first: bool, second: bool)
    ensures var after := ReturnProbe(k, tid, call, result, first, second);
      after.args == k.args - {tid} && after.lost >= k.lost
  {
    assert tid !in k.args ==> k.args - {tid} == k.args;
  }

  /** What a call alone does to the heap, the ring and the two counts of losses; the return of `reallocarray` itself
      adds nothing. */
  lemma AloneEffect(w: World, s: Settings, tid: Tid, call: Call, result: u64, stack: Stack, first: bool, second: bool)
    requires w.threads == map[] && Plausible(call, result)
    requires Armed(Entered(w, s, tid, call, stack).kernel.args, tid, call)
    ensures var e := Entered(w, s, tid, call, stack);
      var v := Alone(w, s, tid, call, result, stack, first, second);
      && v.heap == Changed(e.heap, ChangeOf(call, result))
      && v.kernel == ReturnProbe(e.kernel, tid, call, result, first, second)
      && v.uncounted == e.uncounted + (if LostSilently(e.kernel, tid, call, result, first) then 1 else 0)
  {
    hide ChangeOf, Changed, LostSilently, Entered, ReturnProbe, FirstReturn, Armed, Plausible, Moves;
    var e := Entered(w, s, tid, call, stack);
    ReturnInTwo(e.kernel, tid, call, result, first, second);
    ReturnDisarms(e.kernel, tid, call, result, first, second);
  }

  /** An accountable call alone leaves the map right whenever no output of it was lost. */
  lemma AloneIsRight(w: World, s: Settings, tid: Tid, call: Call, result: u64, stack: Stack, first: bool, second: bool)
    requires s.rate <= 1 && Idle(w) && Plausible(call, result) && Accountable(call, result)
    requires Lossless(Alone(w, s, tid, call, result, stack, first, second))
    ensures Agrees(Alone(w, s, tid, call, result, stack, first, second))
  {
    hide Leaves, LeftBy, Touched, ChangeOf, Armed, Plausible, Accountable, Changed, ReturnProbe, LostSilently, Agree;
    var e := Entered(w, s, tid, call, stack);
    var v := Alone(w, s, tid, call, result, stack, first, second);
    var c := ChangeOf(call, result);
    EnteredKeeps(w, s, tid, call, stack);
    AloneEffect(w, s, tid, call, result, stack, first, second);
    ReturnDisarms(e.kernel, tid, call, result, first, second);
    forall a ensures SizeOf(Map(v), a) == SizeIn(v.heap, a) {
      DeliverCarries(e.kernel, tid, call, result, first, second, a);
      ChangeLeaves(w.heap, c, a);
      MapAt(w, a);
      HeapAt(w, a);
    }
    AgreePointwise(Map(v), v.heap);
  }

  lemma HeapAt(w: World, a: u64)
    requires Inv(w)
    ensures SizeIn(w.heap, a) == Leaves(w.changes, a)
  {
  }

  lemma IdleAgrees(w: World)
    requires Idle(w)
    ensures Agrees(w) && 0 !in w.heap
  {
    hide Leaves, Agree;
    forall a ensures SizeOf(Map(w), a) == SizeIn(w.heap, a) {
      MapAt(w, a);
      HeapAt(w, a);
    }
    AgreePointwise(Map(w), w.heap);
    HeapAt(w, 0);
  }

  // ----- losses that no counter sees

  /** A reallocation to nothing that gave up an address. */
  predicate GivesUp(call: Call, result: u64) {
    result == 0 &&
    match call
    case Realloc(ptr, size) => ptr != 0 && size == 0
    case ReallocArray(ptr, count, size) => ptr != 0 && Product(count, size) == 0
    case _ => false
  }

  /** At any point of any run, whatever its calls: a failed output goes uncounted exactly when it was to report such a
      reallocation, or a refused `reallocarray` that passes for one. */
  lemma UncountedIffGivesUp(s: Settings, actions: seq<Action>, tid: Tid, first: bool)
    requires s.rate <= 1 && Possible(START, s, actions) && IsCommitted(Run(START, s, actions), tid)
    ensures var w := Run(START, s, actions);
      var t := w.threads[tid];
      LostSilently(w.kernel, tid, t.call, t.result, first) <==>
        !first && (GivesUp(t.call, t.result) || PassesAsNothing(t.call))
  {
    hide LostSilently, GivesUp, PassesAsNothing, Armed, Plausible;
    StartIsGood();
    FitsThroughout(START, s, actions);
    var w := Run(START, s, actions);
    assert ThreadOk(w, tid);
    ArmedGivesUp(w.kernel, tid, w.threads[tid].call, w.threads[tid].result, first);
  }

  lemma PassesIff(call: Call)
    ensures PassesAsNothing(call) <==>
            call.ReallocArray? && call.ptr != 0 && Overflows(call.count, call.size) &&
            ArrayTotal(call.size, AsLong(call.count)) == Some(0)
  {
  }

  lemma ArmedGivesUp(k: Kernel, tid: Tid, call: Call, result: u64, first: bool)
    requires Armed(k.args, tid, call) && Plausible(call, result)
    ensures LostSilently(k, tid, call, result, first) <==> !first && (GivesUp(call, result) || PassesAsNothing(call))
  {
    PassesIff(call);
    hide ArrayTotal, PassesAsNothing;
  }

  /** `reallocarray(8, 2^62, 4)` overflows, is refused, and its failed output, which would have reported the block
      gone, goes uncounted although nothing was given up. */
  lemma RefusedUncounted(s: Settings)
    requires s.rate <= 1
    ensures var call := ReallocArray(8, 0x4000_0000_0000_0000, 4);
      var actions := [Enter(1, call, 0, SOME_STACK), Commit(1, 0), Deliver(1, false)];
      && PassesAsNothing(call) && !GivesUp(call, 0)
      && Possible(START, s, actions)
      && Run(START, s, actions).uncounted == 1 && Run(START, s, actions).kernel.lost == 0
  {
    hide Possible, Run;
    var call := ReallocArray(8, 0x4000_0000_0000_0000, 4);
    RefusedPasses(call);
    var a, b, c := Enter(1, call, 0, SOME_STACK), Commit(1, 0), Deliver(1, false);
    PossibleThree(START, s, a, b, c);
    var w1 := Next(START, s, a);
    EntryArms(EMPTY, s, a);
    ArmedGivesUp(w1.kernel, 1, call, 0, false);
    NothingLost(w1.kernel, 1, call);
  }

  lemma RefusedPasses(call: Call)
    requires call == ReallocArray(8, 0x4000_0000_0000_0000, 4)
    ensures PassesAsNothing(call) && !GivesUp(call, 0) && Plausible(call, 0) && !Nests(call)
  {
  }

  lemma NothingLost(k: Kernel, tid: Tid, call: Call)
    requires Armed(k.args, tid, call) && PassesAsNothing(call)
    ensures FirstReturn(k, tid, call, 0, false).lost == k.lost
  {
    hide ArrayTotal;
  }

  lemma PossibleThree(w: World, s: Settings, a: Action, b: Action, c: Action)
    requires Enabled(w, a) && HasSpace(w, a)
    requires var v := Next(w, s, a); Enabled(v, b) && HasSpace(v, b)
    requires var v := Next(Next(w, s, a), s, b); Enabled(v, c) && HasSpace(v, c)
    ensures Possible(w, s, [a, b, c]) && Run(w, s, [a, b, c]) == Next(Next(Next(w, s, a), s, b), s, c)
  {
    hide Next, Enabled, HasSpace;
    var w1 := Next(w, s, a);
    var w2 := Next(w1, s, b);
    assert [a, b, c][1..] == [b, c] && [b, c][1..] == [c] && [c][1..] == [];
    var w3 := Next(w2, s, c);
    assert Possible(w3, s, []) && Run(w3, s, []) == w3;
    assert Possible(w2, s, [c]) && Run(w2, s, [c]) == w3;
    assert Possible(w1, s, [b, c]) && Run(w1, s, [b, c]) == w3;
  }

  lemma AccountableGivesUp(k: Kernel, tid: Tid, call: Call, result: u64, first: bool)
    requires Armed(k.args, tid, call) && Plausible(call, result) && Accountable(call, result)
    ensures LostSilently(k, tid, call, result, first) <==> !first && GivesUp(call, result)
  {
    hide LostSilently, GivesUp, PassesAsNothing, Armed, Plausible;
    ArmedGivesUp(k, tid, call, result, first);
  }

  /** For every call the probes can account for, made alone, whichever of its outputs fail: the map is wrong and the
      loss counter still zero exactly when the call was a reallocation of a live block to nothing and its one output
      failed. */
  lemma WrongAndUncountedIff(w: World, s: Settings, tid: Tid, call: Call, result: u64, stack: Stack, first: bool,
                             second: bool)
    requires s.rate <= 1 && Idle(w) && Plausible(call, result) && Accountable(call, result)
    ensures var v := Alone(w, s, tid, call, result, stack, first, second);
      v.kernel.lost == 0 && !Agrees(v) <==>
        !first && GivesUp(call, result) && (call.Realloc? || call.ReallocArray?) && call.ptr in w.heap
  {
    hide Leaves, LeftBy, Touched, Armed, Plausible, Accountable, Changed, Agree, GivesUp, ChangeOf;
    hide ReturnProbe, LostSilently, Alone, Entered, Inv, HeapFollows, MapFollows;
    var e := Entered(w, s, tid, call, stack);
    var v := Alone(w, s, tid, call, result, stack, first, second);
    EnteredKeeps(w, s, tid, call, stack);
    AloneEffect(w, s, tid, call, result, stack, first, second);
    AccountableGivesUp(e.kernel, tid, call, result, first);
    if !first && GivesUp(call, result) {
      GivenUp(e.kernel, tid, call, result, second, w.heap);
      IdleAgrees(w);
      RemovesLive(Map(w), w.heap, call.ptr);
    } else if v.kernel.lost == 0 {
      AloneIsRight(w, s, tid, call, result, stack, first, second);
    }
  }

  lemma GivenUp(k: Kernel, tid: Tid, call: Call, result: u64, second: bool, heap: Heap)
    requires Armed(k.args, tid, call) && Plausible(call, result) && Accountable(call, result) && GivesUp(call, result)
    ensures call.Realloc? || call.ReallocArray?
    ensures var after := ReturnProbe(k, tid, call, result, false, second);
      after.ring == k.ring && after.lost == k.lost
    ensures Changed(heap, ChangeOf(call, result)) == heap - {call.ptr}
  {
    assert k.ring + [] == k.ring;
  }

  lemma RemovesLive(m: Tracked, heap: Heap, ptr: u64)
    requires Agree(m, heap)
    ensures Agree(m, heap - {ptr}) <==> ptr !in heap
  {
    if ptr !in heap {
      assert heap - {ptr} == heap;
    }
  }

  // ----- sizes the probes get wrong

  /** The pending event of an array call decides what its return probe does to the map. */
  lemma AloneMap(w: World, s: Settings, tid: Tid, call: Call, result: u64, stack: Stack) returns (args: map<Tid, Event>)
    requires s.rate <= 1 && Idle(w)
    requires (call.Calloc? || call.ReallocArray?) && !Nests(call) && Plausible(call, result)
    ensures Armed(args, tid, call)
    ensures var v := Alone(w, s, tid, call, result, stack, true, true);
      && v.heap == Changed(w.heap, ChangeOf(call, result))
      && Map(v) == if tid in args then AppliedAll(Map(w), Attempts(args[tid], result, false)) else Map(w)
  {
    hide Leaves, LeftBy, Touched, Armed, Changed, Agree, ChangeOf, Alone, Entered, LostSilently;
    var e := Entered(w, s, tid, call, stack);
    EnteredKeeps(w, s, tid, call, stack);
    AloneEffect(w, s, tid, call, result, stack, true, true);
    args := e.kernel.args;
    SentMap(e.kernel, tid, result);
  }

  lemma SentMap(k: Kernel, tid: Tid, result: u64)
    ensures Replay(Sent(k, tid, result, false, true, true).ring) ==
            if tid in k.args then AppliedAll(Replay(k.ring), Attempts(k.args[tid], result, false)) else Replay(k.ring)
  {
    if tid in k.args {
      SentReplays(k, tid, result, false, true, true);
    }
  }

  /** A refused `reallocarray` whose size overflows leaves the map right exactly when the size check does not accept it
      with a total of zero, or the output that then says the block is gone fails; no loss is counted either way. */
  lemma OverflowingReallocArray(w: World, s: Settings, tid: Tid, call: Call, stack: Stack, first: bool, second: bool)
    requires s.rate <= 1 && Idle(w)
    requires call.ReallocArray? && Overflows(call.count, call.size) && call.ptr in w.heap
    ensures var v := Alone(w, s, tid, call, 0, stack, first, second);
      v.kernel.lost == 0 && (Agrees(v) <==> Accountable(call, 0) || !first)
  {
    hide Leaves, LeftBy, Touched, Armed, Changed, Agree, Alone, Entered, ArrayTotal, Overflows;
    var e := Entered(w, s, tid, call, stack);
    EnteredKeeps(w, s, tid, call, stack);
    AloneEffect(w, s, tid, call, 0, stack, first, second);
    IdleAgrees(w);
    RefusedEffect(e.kernel, tid, call, first, second);
    RemovesLive(Map(w), w.heap, call.ptr);
    MapWithout(Map(w), w.heap, call.ptr);
    assert Changed(w.heap, NOTHING) == w.heap by { Unchanged(w.heap); }
  }

  lemma Unchanged(heap: Heap)
    ensures Changed(heap, NOTHING) == heap
  {
    assert heap - {} == heap;
  }

  /** What the return probe of an overflowing `reallocarray` does. */
  lemma RefusedEffect(k: Kernel, tid: Tid, call: Call, first: bool, second: bool)
    requires Armed(k.args, tid, call) && call.ReallocArray? && Overflows(call.count, call.size) && call.ptr != 0
    ensures var after := ReturnProbe(k, tid, call, 0, first, second);
      && after.lost == k.lost
      && Replay(after.ring) == if first && !Accountable(call, 0) then Replay(k.ring) - {call.ptr} else Replay(k.ring)
  {
    PassesIff(call);
    hide ArrayTotal, Overflows, PassesAsNothing;
    var total := ArrayTotal(call.size, AsLong(call.count));
    if total.Some? {
      assert IsAlloc(k.args, tid, total.value, call.ptr);
      var e := k.args[tid];
      if total.value == 0 && first {
        assert Delivered(Attempts(e, 0, false), first, second) == [Release(e)];
        ReplayAppend(k.ring, [Release(e)]);
      } else {
        assert Delivered(Attempts(e, 0, false), first, second) == [];
        assert k.ring + [] == k.ring;
      }
    }
  }

  lemma MapWithout(m: Tracked, heap: Heap, ptr: u64)
    requires Agree(m, heap) && ptr in heap
    ensures !Agree(m - {ptr}, heap)
  {
    assert ptr !in m - {ptr};
  }

  /** A successful `calloc` of a new block leaves the map right exactly when its count survives the
      probe's cast to a C int, or it asks for nothing. */
  lemma WideCalloc(w: World, s: Settings, tid: Tid, call: Call, result: u64, stack: Stack)
    requires s.rate <= 1 && Idle(w)
    requires call.Calloc? && Plausible(call, result) && result != 0 && result !in w.heap
    ensures Agrees(Alone(w, s, tid, call, result, stack, true, true)) <==>
            call.count < 0x8000_0000 || (call.count % 0x1_0000_0000 < 0x8000_0000 && call.size == 0)
  {
    hide Alone;
    IdleAgrees(w);
    var args := AloneMap(w, s, tid, call, result, stack);
    RightTotal(call.count, call.size);
    assert Changed(w.heap, ChangeOf(call, result)) == w.heap[result := call.count * call.size];
    OneMore(Map(w), w.heap, args, tid, ArrayTotal(call.size, AsInt(call.count)), result, call.count * call.size);
  }

  /** A new block is tracked rightly exactly when the pending event holds its size. */
  lemma OneMore(m: Tracked, heap: Heap, args: map<Tid, Event>, tid: Tid, total: Option<u64>, result: u64, size: nat)
    requires Agree(m, heap) && result !in heap && result != 0
    requires if total.Some? then IsAlloc(args, tid, total.value, 0) else tid !in args
    ensures Agree(if tid in args then AppliedAll(m, Attempts(args[tid], result, false)) else m, heap[result := size])
            <==> total == Some(size)
  {
    var after := heap[result := size];
    if total.Some? {
      assert Attempts(args[tid], result, false) == [args[tid].(address := result)];
      var m' := AppliedAll(m, Attempts(args[tid], result, false));
      assert m' == m[result := m'[result]];
    } else {
      assert result in after && result !in m;
    }
  }

  lemma RightTotal(count: u64, size: u64)
    requires !Overflows(count, size)
    ensures ArrayTotal(size, AsInt(count)) == Some(count * size) <==>
            (count < 0x8000_0000 || (count % 0x1_0000_0000 < 0x8000_0000 && size == 0))
  {
    if count < 0x8000_0000 || (count % 0x1_0000_0000 < 0x8000_0000 && size == 0) {
      CallocTotal(count, size);
    } else if AsInt(count) >= 0 {
      WrongTotal(count, size);
    }
  }

  lemma WrongTotal(count: u64, size: u64)
    requires 0 <= AsInt(count) != count && size != 0
    ensures ArrayTotal(size, AsInt(count)) != Some(count * size)
  {
    IntTotal(size, count);
    Larger(AsInt(count), count, size);
    TooSmall(size, AsInt(count), count * size);
  }

  lemma IntTotal(size: u64, count: u64)
    requires AsInt(count) >= 0
    ensures ArrayTotal(size, AsInt(count)) == ArraySize.Product(size, AsInt(count))
  {
    ArraySize.Exact(size, AsInt(count));
  }

  lemma TooSmall(size: u64, count: u64, total: nat)
    requires size * count < total
    ensures ArraySize.Product(size, count) != Some(total)
  {
  }

  lemma Larger(a: nat, b: nat, c: nat)
    requires a < b && c > 0
    ensures c * a < b * c
  {
    ArraySize.Monotone(a + 1, b, c);
  }

  /** The four probes of a `reallocarray` and the `realloc` of `total` bytes it makes. */
  function NestedProbes(k: Kernel, s: Settings, cpu: nat, tid: Tid, ptr: u64, count: u64, size: u64, total: u64,
                        outer: Stack, inner: Stack, result: u64, first: bool, second: bool): Kernel
  {
    var entered := ReallocArrayEntered(k, s.pid, s.rate, cpu, tid, ptr, count, size, outer);
    var returned := PlainProbes(entered, s, cpu, tid, ptr, total, inner, result, first, second);
    Sent(returned, tid, result, false, first, second)
  }

  /** The two probes of a `realloc`. */
  function PlainProbes(k: Kernel, s: Settings, cpu: nat, tid: Tid, ptr: u64, size: u64, stack: Stack, result: u64,
                       first: bool, second: bool): Kernel
  {
    Sent(ReallocEntered(k, s.pid, s.rate, cpu, tid, ptr, size, stack), tid, result, false, first, second)
  }

  /** A `reallocarray` and the `realloc` it makes leave the kernel as that one `realloc` would. */
  lemma NestedReallocSendsOnce(k: Kernel, s: Settings, cpu: nat, tid: Tid, ptr: u64, count: u64, size: u64, total: u64,
                               outer: Stack, inner: Stack, result: u64, first: bool, second: bool)
    requires s.rate <= 1 && tid !in k.args && RoomFor(k.args, tid) && total == count * size
    ensures NestedProbes(k, s, cpu, tid, ptr, count, size, total, outer, inner, result, first, second) ==
            PlainProbes(k, s, cpu, tid, ptr, total, inner, result, first, second)
  {
    hide ArrayTotal;
    var entered := ReallocArrayEntered(k, s.pid, s.rate, cpu, tid, ptr, count, size, outer);
    var e := AllocEvent(s.pid, total, inner, 0).(previous := ptr);
    ReallocRecords(k, s, cpu, tid, ptr, total, inner);
    if ArrayTotal(size, AsLong(count)).Some? {
      var checked := ArrayTotal(size, AsLong(count)).value;
      ReallocRecords(k, s, cpu, tid, ptr, checked, outer);
      ReallocRecords(entered, s, cpu, tid, ptr, total, inner);
      assert entered.args[tid := e] == k.args[tid := e];
    }
  }

  lemma ReallocRecords(k: Kernel, s: Settings, cpu: nat, tid: Tid, ptr: u64, size: u64, stack: Stack)
    requires s.rate <= 1 && RoomFor(k.args, tid)
    ensures ReallocEntered(k, s.pid, s.rate, cpu, tid, ptr, size, stack) ==
            k.(args := k.args[tid := AllocEvent(s.pid, size, stack, 0).(previous := ptr)])
  {
    var e := AllocEvent(s.pid, size, stack, 0);
    assert k.args[tid := e][tid := e.(previous := ptr)] == k.args[tid := e.(previous := ptr)];
  }
}
