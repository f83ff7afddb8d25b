/** Starting and collecting the monitor threads: the start barrier, the startup guard and the final wait. */
module StartBarrier {
  import opened Bytes

  type Id = nat

  /** A monitor thread: about to test the flags under the lock, blocked on the condition variable,
      past the barrier, half way through a request to quit, or finished. */
  datatype Worker =
    | Testing
    | Waiting
    | Running
    | Quitting
    | Finished(ran: bool, failed: bool)

  /** The thread that starts the monitors and then waits for them. */
  datatype Main =
    | Spawning
    | Starting
    | FailCancel
    | FailQuit
    | Draining(next: nat)
    | Failed
    | Collecting(handles: seq<Id>, joined: seq<Id>, error: Option<Id>)
    | CollectCancel(handles: seq<Id>, joined: seq<Id>, error: Option<Id>)
    | CollectQuit(handles: seq<Id>, joined: seq<Id>, error: Option<Id>)
    | Done(joined: seq<Id>, error: Option<Id>)

  /** `guard` lists the threads pushed onto the startup guard; `asking` says that whoever started the monitors is half
      way through a request to quit. */
  datatype State = State(total: nat, main: Main, guard: seq<Id>, workers: seq<Worker>,
                         started: bool, quit: bool, cancelled: bool, asking: bool)

  datatype Action =
    | Spawn                     // a thread is created and pushed onto the guard
    | SpawnLoose                // a thread is created, and starting its partner fails before it is pushed
    | SpawnFails                // or the new thread failed before the barrier, and was joined at once
    | AllSpawned
    | MainStep
    | Join(index: nat)
    | WorkerTest(id: Id)
    | Wake(id: Id)              // a spurious wake-up
    | WorkerCancel(id: Id)
    | WorkerQuit(id: Id)
    | WorkerEnds(id: Id, failed: bool)
    | AskCancel                 // a request to quit from outside, once the monitors have been started
    | AskQuit

  function Initial(total: nat): State {
    State(total, Spawning, [], [], false, false, false, false)
  }

  /** `notify_all`: every blocked thread goes back to test the flags. */
  function Notified(workers: seq<Worker>): (r: seq<Worker>)
    ensures |r| == |workers|
    ensures forall i :: 0 <= i < |r| ==> r[i] == if workers[i].Waiting? then Testing else workers[i]
  {
    seq(|workers|, i requires 0 <= i < |workers| => if workers[i].Waiting? then Testing else workers[i])
  }

  /** Taking out element `i` by moving the last one into its place. */
  function SwapRemove(s: seq<Id>, i: nat): (r: seq<Id>)
    requires i < |s|
    ensures multiset(r) + multiset{s[i]} == multiset(s)
  {
    var last := s[|s| - 1];
    var front := s[..|s| - 1];
    assert s == front + [last];
    if i == |s| - 1 then front
    else
      assert front == front[..i] + [s[i]] + front[i + 1..];
      assert front[i := last] == front[..i] + [last] + front[i + 1..];
      front[i := last]
  }

  predicate Enabled(s: State, a: Action) {
    match a
    case Spawn => s.main.Spawning? && |s.guard| < s.total
    case SpawnLoose => s.main.Spawning? && |s.guard| < s.total
    case SpawnFails => s.main.Spawning? && |s.guard| < s.total
    case AllSpawned => s.main.Spawning? && |s.guard| == s.total
    case MainStep =>
      (match s.main
       case Starting => true
       case FailCancel => true
       case FailQuit => true
       case Draining(next) => next == |s.guard| || (next < |s.guard| && Ended(s, s.guard[next]))
       case Collecting(handles, _, _) => handles == []
       case CollectCancel(_, _, _) => true
       case CollectQuit(_, _, _) => true
       case _ => false)
    case Join(index) => s.main.Collecting? && index < |s.main.handles| && Ended(s, s.main.handles[index])
    case WorkerTest(id) => id < |s.workers| && s.workers[id].Testing?
    case Wake(id) => id < |s.workers| && s.workers[id].Waiting?
    case WorkerCancel(id) => id < |s.workers| && s.workers[id].Running?
    case WorkerQuit(id) => id < |s.workers| && s.workers[id].Quitting?
    case WorkerEnds(id, _) => id < |s.workers| && s.workers[id].Running?
    case AskCancel => Underway(s.main) && !s.asking
    case AskQuit => s.asking
  }

  predicate Ended(s: State, id: Id) {
    id < |s.workers| && s.workers[id].Finished?
  }

  function Next(s: State, a: Action): State
    requires Enabled(s, a)
  {
    match a
    case Spawn => s.(workers := s.workers + [Testing], guard := s.guard + [|s.workers|])
    case SpawnLoose => s.(workers := s.workers + [Testing], main := FailCancel)
    case SpawnFails => s.(main := FailCancel)
    case AllSpawned => s.(main := if s.total == 0 then FailCancel else Starting)
    case MainStep => MainNext(s)
    case Join(index) =>
      var m := s.main;
      var id := m.handles[index];
      var handles := SwapRemove(m.handles, index);
      var joined := m.joined + [id];
      if s.workers[id].failed then
        s.(main := CollectCancel(handles, joined, if m.error.None? then Some(id) else m.error))
      else if !s.cancelled then s.(main := CollectCancel(handles, joined, m.error))
      else s.(main := Collecting(handles, joined, m.error))
    case WorkerTest(id) =>
      s.(workers := s.workers[id := if s.quit then Finished(false, false) else if s.started then Running else Waiting])
    case Wake(id) => s.(workers := s.workers[id := Testing])
    case WorkerCancel(id) => s.(workers := s.workers[id := Quitting], cancelled := true)
    case WorkerQuit(id) => s.(workers := Notified(s.workers[id := Running]), quit := true)
    case WorkerEnds(id, failed) => s.(workers := s.workers[id := Finished(true, failed)])
    case AskCancel => s.(cancelled := true, asking := true)
    case AskQuit => s.(quit := true, workers := Notified(s.workers), asking := false)
  }

  function MainNext(s: State): State
    requires Enabled(s, MainStep)
  {
    match s.main
    case Starting => s.(started := true, workers := Notified(s.workers), main := Collecting(s.guard, [], None))
    case FailCancel => s.(cancelled := true, main := FailQuit)
    case FailQuit => s.(quit := true, workers := Notified(s.workers), main := Draining(0))
    case Draining(next) => s.(main := if next == |s.guard| then Failed else Draining(next + 1))
    case Collecting(_, joined, error) => s.(main := Done(joined, error))
    case CollectCancel(handles, joined, error) => s.(cancelled := true, main := CollectQuit(handles, joined, error))
    case CollectQuit(handles, joined, error) =>
      s.(quit := true, workers := Notified(s.workers), main := Collecting(handles, joined, error))
  }

  // ----- the invariant

  predicate PastBarrier(w: Worker) {
    w.Running? || w.Quitting? || (w.Finished? && w.ran)
  }

  predicate Underway(m: Main) {
    m.Collecting? || m.CollectCancel? || m.CollectQuit? || m.Done?
  }

  predicate Aborting(m: Main) {
    m.FailCancel? || m.FailQuit? || m.Draining? || m.Failed?
  }

  predicate WorkerOk(w: Worker, started: bool, quit: bool, cancelled: bool) {
    && (PastBarrier(w) ==> started)
    && (w.Waiting? ==> !started && !quit)
    && (w.Quitting? ==> cancelled)
    && (w.Finished? && !w.ran ==> quit && !w.failed)
  }

  predicate WorkerAt(s: State, i: nat)
    requires i < |s.workers|
  {
    WorkerOk(s.workers[i], s.started, s.quit, s.cancelled)
  }

  ghost predicate Workers(s: State) {
    forall i: nat :: i < |s.workers| ==> WorkerAt(s, i)
  }

  ghost predicate Guard(s: State) {
    && |s.guard| <= s.total
    && |s.guard| <= |s.workers|
    && (forall i :: 0 <= i < |s.guard| ==> s.guard[i] == i)
    && (!Aborting(s.main) ==> |s.guard| == |s.workers|)
  }

  ghost predicate Phase(s: State) {
    && (s.started <==> Underway(s.main))
    && (s.main.Starting? || Underway(s.main) ==> |s.guard| == s.total > 0)
    && (s.quit ==> s.cancelled)
    && (s.asking ==> s.cancelled && Underway(s.main))
    && (s.main.FailQuit? || s.main.CollectQuit? ==> s.cancelled)
    && (s.main.Draining? || s.main.Failed? ==> s.quit)
    && (s.main.Draining? ==> s.main.next <= |s.guard|)
  }

  ghost predicate DrainedEnded(s: State) {
    forall i :: 0 <= i < Drained(s) ==> Ended(s, s.guard[i])
  }

  /** How many guarded threads a failed start has joined so far. */
  function Drained(s: State): nat {
    match s.main
    case Draining(next) => Min(next, |s.guard|)
    case Failed => |s.guard|
    case _ => 0
  }

  function Handles(m: Main): seq<Id> {
    match m
    case Collecting(handles, _, _) => handles
    case CollectCancel(handles, _, _) => handles
    case CollectQuit(handles, _, _) => handles
    case _ => []
  }

  predicate Broken(workers: seq<Worker>, id: Id) {
    id < |workers| && workers[id].Finished? && workers[id].failed
  }

  /** The first thread, in the order of joining, that returned an error. */
  function FirstBroken(workers: seq<Worker>, joined: seq<Id>): Option<Id> {
    if joined == [] then None
    else
      var earlier := FirstBroken(workers, joined[..|joined| - 1]);
      var last := joined[|joined| - 1];
      if earlier.Some? then earlier else if Broken(workers, last) then Some(last) else None
  }

  ghost predicate Collection(s: State) {
    Underway(s.main) ==>
      && multiset(Handles(s.main)) + multiset(s.main.joined) == multiset(s.guard)
      && (forall i :: 0 <= i < |s.main.joined| ==> Ended(s, s.main.joined[i]))
      && s.main.error == FirstBroken(s.workers, s.main.joined)
      && (s.main.joined != [] && !s.main.CollectCancel? ==> s.cancelled)
  }

  ghost predicate Inv(s: State) {
    Workers(s) && Guard(s) && Phase(s) && DrainedEnded(s) && Collection(s)
  }

  lemma InitialInv(total: nat)
    ensures Inv(Initial(total))
  {
  }

  // ----- every step keeps it

  /** Finished threads stay as they are. */
  lemma FinishedStay(s: State, a: Action, id: Id)
    requires Enabled(s, a) && Ended(s, id)
    ensures Ended(Next(s, a), id) && Next(s, a).workers[id] == s.workers[id]
  {
  }

  lemma WorkersKept(s: State, a: Action)
    requires Inv(s) && Enabled(s, a)
    ensures Workers(Next(s, a))
  {
    var v := Next(s, a);
    forall i: nat | i < |v.workers| ensures WorkerAt(v, i) {
      WorkerKept(s, a, i);
    }
  }

  lemma WorkerKept(s: State, a: Action, i: nat)
    requires Enabled(s, a) && Phase(s) && i < |Next(s, a).workers|
    requires i < |s.workers| ==> WorkerAt(s, i)
    ensures WorkerAt(Next(s, a), i)
  {
    hide SwapRemove, Ended;
  }

  lemma GuardKept(s: State, a: Action)
    requires Inv(s) && Enabled(s, a)
    ensures Guard(Next(s, a))
  {
    hide SwapRemove, Workers, DrainedEnded, Collection, Ended;
  }

  lemma PhaseKept(s: State, a: Action)
    requires Inv(s) && Enabled(s, a)
    ensures Phase(Next(s, a))
  {
    hide SwapRemove, Notified, DrainedEnded, Collection, WorkerOk, Ended;
    if a.WorkerQuit? {
      QuittingCancelled(s, a.id);
    }
  }

  lemma QuittingCancelled(s: State, id: Id)
    requires Workers(s) && id < |s.workers| && s.workers[id].Quitting?
    ensures s.cancelled
  {
    assert WorkerAt(s, id);
  }

  lemma DrainedKept(s: State, a: Action)
    requires Inv(s) && Enabled(s, a)
    ensures DrainedEnded(Next(s, a))
  {
    var v := Next(s, a);
    forall i | 0 <= i < Drained(v) ensures Ended(v, v.guard[i]) {
      FinishedStay(s, a, s.guard[i]);
    }
  }

  lemma {:induction false} FirstBrokenStays(before: seq<Worker>, after: seq<Worker>, joined: seq<Id>)
    requires forall i :: 0 <= i < |joined| ==> Broken(before, joined[i]) == Broken(after, joined[i])
    ensures FirstBroken(before, joined) == FirstBroken(after, joined)
  {
    if joined != [] {
      FirstBrokenStays(before, after, joined[..|joined| - 1]);
    }
  }

  lemma JoinKeepsCollection(s: State, a: Action)
    requires Inv(s) && Enabled(s, a) && a.Join?
    ensures Collection(Next(s, a))
  {
    hide SwapRemove, FirstBroken, Broken, Workers, Guard, Phase, DrainedEnded, Next;
    JoinMain(s, a);
    JoinKeepsHandles(s, a);
    JoinKeepsError(s, a);
    JoinedEnded(s, a);
  }

  lemma JoinKeepsHandles(s: State, a: Action)
    requires Collection(s) && Enabled(s, a) && a.Join?
    ensures var v := Next(s, a); multiset(v.main.handles) + multiset(v.main.joined) == multiset(s.guard)
  {
    hide SwapRemove, FirstBroken, Broken, Next;
    JoinMain(s, a);
    JoinMovesHandle(s.main.handles, s.main.joined, a.index);
  }

  lemma JoinKeepsError(s: State, a: Action)
    requires Collection(s) && Enabled(s, a) && a.Join?
    ensures var v := Next(s, a); v.main.error == FirstBroken(v.workers, v.main.joined)
  {
    hide SwapRemove, FirstBroken, Broken, Next;
    JoinMain(s, a);
    FirstBrokenNext(s.workers, s.main.joined, s.main.handles[a.index]);
  }

  lemma JoinedEnded(s: State, a: Action)
    requires Collection(s) && Enabled(s, a) && a.Join?
    ensures var v := Next(s, a); forall i :: 0 <= i < |v.main.joined| ==> Ended(v, v.main.joined[i])
  {
    hide SwapRemove, FirstBroken, Broken, Next;
    JoinMain(s, a);
    var m, v := s.main, Next(s, a);
    forall i | 0 <= i < |v.main.joined| ensures Ended(v, v.main.joined[i]) {
      if i < |m.joined| {
        assert Ended(s, m.joined[i]);
      }
    }
  }

  lemma JoinMain(s: State, a: Action)
    requires Enabled(s, a) && a.Join?
    ensures var m, v := s.main, Next(s, a);
      var id := m.handles[a.index];
      && v == s.(main := v.main)
      && (v.main.Collecting? || v.main.CollectCancel?)
      && v.main.handles == SwapRemove(m.handles, a.index)
      && v.main.joined == m.joined + [id]
      && v.main.error == (if m.error.Some? then m.error else if Broken(s.workers, id) then Some(id) else None)
      && (v.main.Collecting? ==> s.cancelled)
  {
    hide SwapRemove;
  }

  lemma JoinMovesHandle(handles: seq<Id>, joined: seq<Id>, index: nat)
    requires index < |handles|
    ensures multiset(SwapRemove(handles, index)) + multiset(joined + [handles[index]]) ==
            multiset(handles) + multiset(joined)
  {
    assert multiset(joined + [handles[index]]) == multiset(joined) + multiset{handles[index]};
  }

  lemma FirstBrokenNext(workers: seq<Worker>, joined: seq<Id>, id: Id)
    ensures FirstBroken(workers, joined + [id]) ==
            if FirstBroken(workers, joined).Some? then FirstBroken(workers, joined)
            else if Broken(workers, id) then Some(id) else None
  {
    assert (joined + [id])[..|joined|] == joined;
  }

  lemma CollectionKept(s: State, a: Action)
    requires Inv(s) && Enabled(s, a)
    ensures Collection(Next(s, a))
  {
    if a.Join? {
      JoinKeepsCollection(s, a);
    } else if Underway(s.main) {
      var v := Next(s, a);
      SameCollection(s, a);
      forall i | 0 <= i < |v.main.joined|
        ensures Ended(v, v.main.joined[i])
        ensures Broken(s.workers, v.main.joined[i]) == Broken(v.workers, v.main.joined[i])
      {
        FinishedStay(s, a, s.main.joined[i]);
      }
      FirstBrokenStays(s.workers, v.workers, v.main.joined);
    } else if Underway(Next(s, a).main) {
      assert s.main.Starting?;
    }
  }

  lemma SameCollection(s: State, a: Action)
    requires Inv(s) && Enabled(s, a) && !a.Join? && Underway(s.main)
    ensures var v := Next(s, a);
      && Underway(v.main) && v.guard == s.guard
      && v.main.joined == s.main.joined && v.main.error == s.main.error && Handles(v.main) == Handles(s.main)
      && (s.cancelled ==> v.cancelled)
      && (s.main.CollectCancel? ==> v.main.CollectCancel? || v.cancelled)
  {
  }

  lemma StepKeeps(s: State, a: Action)
    requires Inv(s) && Enabled(s, a)
    ensures Inv(Next(s, a))
  {
    hide Enabled, Next, Workers, Guard, Phase, DrainedEnded, Collection;
    WorkersKept(s, a);
    GuardKept(s, a);
    PhaseKept(s, a);
    DrainedKept(s, a);
    CollectionKept(s, a);
  }

  // ----- whole runs

  predicate Runs(s: State, actions: seq<Action>)
    decreases |actions|
  {
    actions == [] || (Enabled(s, actions[0]) && Runs(Next(s, actions[0]), actions[1..]))
  }

  function After(s: State, actions: seq<Action>): State
    requires Runs(s, actions)
    decreases |actions|
  {
    if actions == [] then s else After(Next(s, actions[0]), actions[1..])
  }

  lemma SameTotal(s: State, a: Action)
    requires Enabled(s, a)
    ensures Next(s, a).total == s.total
  {
    hide SwapRemove, Ended, Notified;
  }

  lemma {:induction false} RunKeeps(s: State, actions: seq<Action>)
    requires Inv(s) && Runs(s, actions)
    ensures Inv(After(s, actions)) && After(s, actions).total == s.total
    decreases |actions|
  {
    hide Inv, Enabled, Next;
    if actions != [] {
      SameTotal(s, actions[0]);
      StepKeeps(s, actions[0]);
      RunKeeps(Next(s, actions[0]), actions[1..]);
    }
  }

  /** No thread passes the barrier before every thread has been created and the guard released them;
      and if starting fails, no thread ever passes it. */
  lemma NobodyStartsEarly(total: nat, actions: seq<Action>, id: Id)
    requires Runs(Initial(total), actions)
    requires var s := After(Initial(total), actions); id < |s.workers| && PastBarrier(s.workers[id])
    ensures var s := After(Initial(total), actions);
      s.started && |s.workers| == |s.guard| == total && Underway(s.main)
  {
    InitialInv(total);
    RunKeeps(Initial(total), actions);
    assert WorkerAt(After(Initial(total), actions), id);
  }

  /** No wake-up is lost: a thread blocked at the barrier is one that neither flag concerns yet. */
  lemma NoLostWakeup(total: nat, actions: seq<Action>, id: Id)
    requires Runs(Initial(total), actions)
    requires var s := After(Initial(total), actions); id < |s.workers| && s.workers[id].Waiting?
    ensures var s := After(Initial(total), actions); !s.started && !s.quit
  {
    InitialInv(total);
    RunKeeps(Initial(total), actions);
    assert WorkerAt(After(Initial(total), actions), id);
  }

  /** After a failed start every guarded thread has been told to quit, ran nothing, and was joined;
      a thread that never reached the guard runs nothing either. */
  lemma FailedStartJoinsAll(total: nat, actions: seq<Action>)
    requires Runs(Initial(total), actions) && After(Initial(total), actions).main.Failed?
    ensures var s := After(Initial(total), actions);
      && (forall i :: 0 <= i < |s.guard| ==>
            s.guard[i] < |s.workers| && s.workers[s.guard[i]] == Finished(false, false))
      && (forall i :: 0 <= i < |s.workers| ==> !PastBarrier(s.workers[i]))
  {
    InitialInv(total);
    RunKeeps(Initial(total), actions);
    var s := After(Initial(total), actions);
    forall i | 0 <= i < |s.guard| ensures s.guard[i] < |s.workers| && s.workers[s.guard[i]] == Finished(false, false) {
      assert i < Drained(s) && Ended(s, s.guard[i]);
      assert WorkerAt(s, s.guard[i]);
    }
    forall i | 0 <= i < |s.workers| ensures !PastBarrier(s.workers[i]) {
      assert WorkerAt(s, i);
    }
  }

  /** The join loop of a failed start cannot hang: the thread it waits for is about to test the flags,
      and that test ends it. */
  lemma DrainingAdvances(total: nat, actions: seq<Action>)
    requires Runs(Initial(total), actions)
    requires var s := After(Initial(total), actions); s.main.Draining? && s.main.next < |s.guard|
    ensures var s := After(Initial(total), actions);
      var id := s.guard[s.main.next];
      Ended(s, id) || (Enabled(s, WorkerTest(id)) && Ended(Next(s, WorkerTest(id)), id))
  {
    InitialInv(total);
    RunKeeps(Initial(total), actions);
    var s := After(Initial(total), actions);
    var id := s.guard[s.main.next];
    assert WorkerAt(s, id);
  }

  /** When the final wait returns, every thread was joined exactly once, all were told to quit, and the
      error returned is that of the first joined thread that failed, if any did. */
  lemma WaitCollectsEveryThread(total: nat, actions: seq<Action>)
    requires Runs(Initial(total), actions) && After(Initial(total), actions).main.Done?
    ensures var s := After(Initial(total), actions);
      && multiset(s.main.joined) == multiset(s.guard)
      && (forall i :: 0 <= i < |s.workers| ==> s.workers[i].Finished?)
      && s.cancelled
      && s.main.error == FirstBroken(s.workers, s.main.joined)
      && (s.main.error.None? <==> forall i :: 0 <= i < |s.workers| ==> !Broken(s.workers, i))
  {
    InitialInv(total);
    RunKeeps(Initial(total), actions);
    var s := After(Initial(total), actions);
    var joined := s.main.joined;
    assert multiset(joined) == multiset(s.guard);
    forall i | 0 <= i < |s.workers| ensures s.workers[i].Finished? && i in joined {
      assert s.guard[i] == i;
      assert i in multiset(s.guard);
      var j :| 0 <= j < |joined| && joined[j] == i;
      assert Ended(s, joined[j]);
    }
    assert joined != [] by {
      assert |joined| == |multiset(joined)| == |multiset(s.guard)| == |s.guard|;
    }
    FirstBrokenNone(s.workers, joined);
  }

  /** A step that goes on with what the program does of itself: nothing fails to start, nobody requests to quit, and no
      thread wakes without reason. */
  predicate Ordinary(a: Action) {
    a.Spawn? || a.AllSpawned? || a.MainStep? || a.Join? || a.WorkerTest? || a.WorkerQuit? || a.WorkerEnds?
  }

  /** Until the monitors have been waited for, or starting them has failed, an ordinary step is always left that
      changes something. */
  lemma NeverStuck(total: nat, actions: seq<Action>) returns (a: Action)
    requires Runs(Initial(total), actions)
    requires var s := After(Initial(total), actions); !s.main.Done? && !s.main.Failed?
    ensures var s := After(Initial(total), actions); Ordinary(a) && Enabled(s, a) && Next(s, a) != s
  {
    InitialInv(total);
    RunKeeps(Initial(total), actions);
    var s := After(Initial(total), actions);
    match s.main
    case Spawning => a := if |s.guard| < s.total then Spawn else AllSpawned;
    case Draining(next) => a := DrainingStep(s);
    case Collecting(_, _, _) => a := CollectingStep(s);
    case _ => a := MainStep;
  }

  lemma DrainingStep(s: State) returns (a: Action)
    requires Inv(s) && s.main.Draining?
    ensures Ordinary(a) && Enabled(s, a) && Next(s, a) != s
  {
    a := MainStep;
    var next := s.main.next;
    if next < |s.guard| && !Ended(s, s.guard[next]) {
      assert WorkerAt(s, s.guard[next]);
      a := WorkerTest(s.guard[next]);
      assert Next(s, a).workers[s.guard[next]].Finished?;
    }
  }

  lemma CollectingStep(s: State) returns (a: Action)
    requires Inv(s) && s.main.Collecting?
    ensures Ordinary(a) && Enabled(s, a) && Next(s, a) != s
  {
    hide SwapRemove;
    if s.main.handles == [] {
      a := MainStep;
    } else {
      var id := s.main.handles[0];
      assert id in multiset(s.guard) by { assert id in multiset(Handles(s.main)); }
      assert WorkerAt(s, id);
      if s.workers[id].Finished? {
        a := Join(0);
        JoinMain(s, a);
      } else {
        a := if s.workers[id].Testing? then WorkerTest(id)
             else if s.workers[id].Running? then WorkerEnds(id, false) else WorkerQuit(id);
        assert Next(s, a).workers[id] != s.workers[id];
      }
    }
  }

  /** A request to quit, from outside or from a monitor, is never left half way: its second half is open from then on,
      and leaves quitting requested and no thread blocked. */
  lemma RequestCompletes(s: State, id: Id)
    ensures Underway(s.main) && !s.asking ==>
      && Enabled(s, AskCancel)
      && Next(s, AskCancel).cancelled && Enabled(Next(s, AskCancel), AskQuit)
      && Next(Next(s, AskCancel), AskQuit).quit && !Next(Next(s, AskCancel), AskQuit).asking
      && forall i :: 0 <= i < |s.workers| ==> !Next(Next(s, AskCancel), AskQuit).workers[i].Waiting?
    ensures Enabled(s, WorkerCancel(id)) ==>
      && Next(s, WorkerCancel(id)).cancelled && Enabled(Next(s, WorkerCancel(id)), WorkerQuit(id))
      && var v := Next(Next(s, WorkerCancel(id)), WorkerQuit(id));
      v.quit && v.workers[id].Running? && forall i :: 0 <= i < |v.workers| ==> !v.workers[i].Waiting?
  {
  }

  /** A failed start leaves one more thread, which the guard does not know, or none; the monitors are then told to
      quit. */
  lemma FailedSpawns(s: State)
    requires Enabled(s, SpawnLoose)
    ensures Next(s, SpawnLoose).workers == s.workers + [Testing] && Next(s, SpawnFails).workers == s.workers
    ensures Next(s, SpawnLoose).guard == Next(s, SpawnFails).guard == s.guard
    ensures Next(s, SpawnLoose).main == Next(s, SpawnFails).main == FailCancel
  {
  }

  /** Nothing in the run failed to start, or requested to quit. */
  predicate Undisturbed(actions: seq<Action>) {
    forall i :: 0 <= i < |actions| ==>
      !actions[i].SpawnLoose? && !actions[i].SpawnFails? && !actions[i].WorkerCancel? && !actions[i].AskCancel?
  }

  /** Monitors are being started or run, and if they have been told to quit, one of them has ended and been joined. */
  predicate Undecided(s: State) {
    && !Aborting(s.main) && !s.asking
    && (s.cancelled ==> Underway(s.main) && s.main.joined != [])
    && (s.main.CollectCancel? || s.main.CollectQuit? ==> s.main.joined != [])
  }

  lemma UndecidedNext(s: State, a: Action)
    requires Undecided(s) && s.total > 0 && Enabled(s, a) && Undisturbed([a])
    ensures Undecided(Next(s, a)) && Next(s, a).total == s.total
  {
    hide SwapRemove, Ended;
    assert Undisturbed([a]) ==> !a.SpawnLoose? && !a.SpawnFails? && !a.WorkerCancel? && !a.AskCancel? by {
      assert [a][0] == a;
    }
    if a.Join? {
      JoinMain(s, a);
    }
  }

  lemma {:induction false} StaysUndecided(s: State, actions: seq<Action>)
    requires Undecided(s) && s.total > 0 && Runs(s, actions) && Undisturbed(actions)
    ensures Undecided(After(s, actions))
    decreases |actions|
  {
    hide Undecided, Enabled, Next;
    if actions != [] {
      assert Undisturbed([actions[0]]) && Undisturbed(actions[1..]);
      UndecidedNext(s, actions[0]);
      StaysUndecided(Next(s, actions[0]), actions[1..]);
    }
  }

  /** If nothing fails to start and nobody requests to quit, starting does not fail, and no thread is told to quit
      before another has ended and been joined. */
  lemma QuitsOnlyWithReason(total: nat, actions: seq<Action>)
    requires total > 0 && Runs(Initial(total), actions) && Undisturbed(actions)
    ensures var s := After(Initial(total), actions);
      !Aborting(s.main) && (s.quit || s.cancelled ==> Underway(s.main) && s.main.joined != [])
  {
    InitialInv(total);
    RunKeeps(Initial(total), actions);
    StaysUndecided(Initial(total), actions);
  }

  lemma {:induction false} FirstBrokenNone(workers: seq<Worker>, joined: seq<Id>)
    ensures FirstBroken(workers, joined).None? <==> forall i :: 0 <= i < |joined| ==> !Broken(workers, joined[i])
  {
    if joined != [] {
      FirstBrokenNone(workers, joined[..|joined| - 1]);
    }
  }
}
