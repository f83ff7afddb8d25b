/** Stopping every thread of a process that may keep starting new ones, and letting them all go again. */
module Attach {
  import opened Bytes
  import opened CoreWriter
  import opened Sequences

  const TID_LIMIT: int := 0x8000_0000
  const DEADLINE_MS: nat := 10_000

  datatype Error =
    | CannotList
    | NoThreads
    | CannotAttach(tid: int)
    | TimedOut(tid: int)
    | CannotWait(tid: int)
    | NotStopped(tid: int)
    | CannotDetach(tid: int)
    | Cancelled
    | Stage(step: Step)
    | Both(write: Error, cleanup: Error)

  /** The steps of a dump between attaching and detaching. */
  datatype Step = ReadProcess | ApplyFilter | ReadStates | BuildNotes | WriteFile

  // ----- the order of thread lists

  /** The leader first, then by number. */
  predicate Before(a: int, b: int, pid: int) {
    a == pid || (b != pid && a <= b)
  }

  predicate InOrder(tids: seq<int>, pid: int) {
    forall i, j :: 0 <= i < j < |tids| ==> tids[i] == pid || (tids[j] != pid && tids[i] <= tids[j])
  }

  function Insert(tid: int, tids: seq<int>, pid: int): (r: seq<int>)
    ensures multiset(r) == multiset(tids) + multiset{tid}
  {
    if tids == [] || Before(tid, tids[0], pid) then
      [tid] + tids
    else
      assert tids == [tids[0]] + tids[1..];
      [tids[0]] + Insert(tid, tids[1..], pid)
  }

  function Sort(tids: seq<int>, pid: int): (r: seq<int>)
    ensures multiset(r) == multiset(tids)
  {
    if tids == [] then []
    else
      assert tids == [tids[0]] + tids[1..];
      Insert(tids[0], Sort(tids[1..], pid), pid)
  }

  lemma {:induction false} InsertInOrder(tid: int, tids: seq<int>, pid: int)
    requires InOrder(tids, pid)
    ensures InOrder(Insert(tid, tids, pid), pid)
  {
    if tids != [] && !Before(tid, tids[0], pid) {
      InsertInOrder(tid, tids[1..], pid);
      var rest := Insert(tid, tids[1..], pid);
      forall j | 0 <= j < |rest| ensures Before(tids[0], rest[j], pid) {
        assert rest[j] in multiset(rest);
        assert rest[j] == tid || rest[j] in tids[1..];
      }
    }
  }

  lemma {:induction false} SortInOrder(tids: seq<int>, pid: int)
    ensures InOrder(Sort(tids, pid), pid)
  {
    if tids != [] {
      SortInOrder(tids[1..], pid);
      InsertInOrder(tids[0], Sort(tids[1..], pid), pid);
    }
  }

  /** Distinctness is a matter of the multiset alone. */
  lemma DistinctCounts(tids: seq<int>)
    ensures Distinct(tids) <==> forall t :: multiset(tids)[t] <= 1
  {
    if Distinct(tids) {
      forall t ensures multiset(tids)[t] <= 1 {
        CountOnce(tids, t);
      }
    } else {
      var i, j :| 0 <= i < j < |tids| && tids[i] == tids[j];
      assert tids == tids[..j] + [tids[j]] + tids[j + 1..];
      assert tids[i] in tids[..j] by { assert tids[..j][i] == tids[i]; }
      assert multiset(tids)[tids[i]] >= 2;
    }
  }

  /** The same threads, in whatever order. */
  ghost predicate SameMembers(a: seq<int>, b: seq<int>) {
    forall t :: t in a <==> t in b
  }

  lemma SameThreads(a: seq<int>, b: seq<int>)
    requires multiset(a) == multiset(b)
    ensures SameMembers(a, b) && (Distinct(a) <==> Distinct(b))
  {
    hide Distinct;
    DistinctCounts(a);
    DistinctCounts(b);
    forall t ensures t in a <==> t in b {
      assert t in multiset(a) <==> t in multiset(b);
    }
  }

  lemma LeaderFirst(tids: seq<int>, pid: int)
    requires InOrder(tids, pid) && pid in tids
    ensures tids[0] == pid
  {
    var i :| 0 <= i < |tids| && tids[i] == pid;
    assert i > 0 ==> Before(tids[0], tids[i], pid);
  }

  lemma SortedThreads(tids: seq<int>, pid: int)
    ensures var r := Sort(tids, pid);
      && InOrder(r, pid) && SameMembers(r, tids) && (Distinct(r) <==> Distinct(tids))
      && (pid in tids ==> r != [] && r[0] == pid)
  {
    hide Distinct, InOrder;
    var r := Sort(tids, pid);
    SortInOrder(tids, pid);
    SameThreads(tids, r);
    if pid in tids {
      LeaderFirst(r, pid);
    }
  }

  // ----- the target process

  /** What `waitpid` reports. */
  datatype Wait = Stopped | NotYet | Interrupted | Ended | Broken

  /** One answer of `waitpid`, about one thread. */
  datatype Answer = Answer(tid: int, wait: Wait)

  /** A process under observation: its threads in the order of its task directory, those this tracer has stopped,
      the thread numbers ever used, and those this tracer is attached to. Its methods are system calls; before each
      one the process has run on in any way it can, which `Interfere` stands for: callers may rely on its contract
      alone. */
  class Target {
    const pid: int
    var tasks: seq<int>
    var stopped: set<int>
    var used: set<int>
    var traced: set<int>
    ghost var attaches: seq<int>
    ghost var detaches: seq<int>
    ghost var answers: seq<Answer>
    const listable: bool
    const attachable: int -> bool
    const detachable: (nat, int) -> bool
    const wait: (nat, int) -> Wait
    var waits: nat
    var detachCalls: nat
    var interruptions: nat

    ghost predicate Valid()
      reads this
    {
      && (forall t :: t in tasks ==> t in used)
      && (forall t :: t in stopped ==> t in tasks && t in traced)
      && (forall t :: t in traced ==> t in used)
      && (forall t :: t in used ==> IsTid(t))
    }

    /** No thread can run. */
    ghost predicate Frozen()
      reads this
    {
      forall t :: t in tasks ==> t in stopped
    }

    /** A thread number used before is not used again. */
    twostate predicate KnownKept()
      reads this
    {
      && (forall t :: t in old(used) ==> t in used)
      && (forall t :: t in tasks && t in old(used) ==> t in old(tasks))
    }

    /** Threads may end, and a thread that is not stopped may start others, under numbers never used before. */
    twostate predicate RanOn()
      reads this
    {
      && KnownKept()
      && (forall t :: t in stopped <==> t in old(stopped) && t in tasks) && traced == old(traced)
      && (old(Frozen()) ==> forall t :: t in tasks ==> t in old(tasks))
      && attaches == old(attaches) && detaches == old(detaches)
      && interruptions == old(interruptions) && waits == old(waits) && detachCalls == old(detachCalls)
      && answers == old(answers)
    }

    method Interfere()
      requires Valid()
      modifies this
      ensures Valid() && RanOn()
    {
    }

    /** The threads at one moment. */
    method EnumerateThreads() returns (r: Result<seq<int>, Error>)
      requires Valid()
      modifies this
      ensures Valid() && RanOn()
      ensures r.Ok? ==> SameMembers(r.value, tasks) && r.value != [] && InOrder(r.value, pid)
      ensures r.Ok? <==> listable && tasks != []
      ensures r.Err? ==> r.error == if listable then NoThreads else CannotList
    {
      Interfere();
      if !listable {
        return Err(CannotList);
      }
      SortedThreads(tasks, pid);
      var tids := Sort(tasks, pid);
      assert tasks != [] ==> tasks[0] in tids;
      r := if tids == [] then Err(NoThreads) else Ok(tids);
    }

    /** `PTRACE_ATTACH`. A thread that is gone is no error; one that is there is traced from now on. */
    method PtraceAttach(tid: int) returns (r: Result<bool, Error>)
      requires Valid()
      modifies this
      ensures Valid() && KnownKept() && detaches == old(detaches) && interruptions == old(interruptions)
      ensures forall t :: t in stopped <==> t in old(stopped) && t in tasks
      ensures r == if tid !in tasks then Ok(false) else if attachable(tid) then Ok(true) else Err(CannotAttach(tid))
      ensures answers == old(answers)
      ensures if r == Ok(true) then traced == old(traced) + {tid} && attaches == old(attaches) + [tid]
              else traced == old(traced) && attaches == old(attaches)
    {
      Interfere();
      if tid !in tasks {
        return Ok(false);
      }
      if !attachable(tid) {
        return Err(CannotAttach(tid));
      }
      traced, attaches := traced + {tid}, attaches + [tid];
      r := Ok(true);
    }

    /** `waitpid` without blocking; interruptions are finitely many. */
    method WaitPid(tid: int) returns (r: Wait)
      requires Valid()
      modifies this
      ensures Valid() && KnownKept() && detaches == old(detaches) && attaches == old(attaches)
      ensures traced == old(traced) && (r == Stopped ==> tid in stopped) && answers == old(answers) + [Answer(tid, r)]
      ensures r == match wait(old(waits), tid)
                   case Stopped => if tid in tasks && tid in traced then Stopped else Broken
                   case Interrupted => if old(interruptions) == 0 then NotYet else Interrupted
                   case other => other
      ensures forall t :: t in old(stopped) && t in tasks ==> t in stopped
      ensures interruptions == if r == Interrupted then old(interruptions) - 1 else old(interruptions)
    {
      Interfere();
      r := wait(waits, tid);
      waits := waits + 1;
      if r == Stopped && tid in tasks && tid in traced {
        stopped := stopped + {tid};
      } else if r == Stopped {
        r := Broken;
      } else if r == Interrupted {
        if interruptions == 0 {
          r := NotYet;
        } else {
          interruptions := interruptions - 1;
        }
      }
      answers := answers + [Answer(tid, r)];
    }

    /** `PTRACE_DETACH`: the thread runs again, or it could not be detached, for example because it is gone. */
    method PtraceDetach(tid: int) returns (ok: bool)
      requires Valid()
      modifies this
      ensures Valid() && detaches == old(detaches) + [tid] && attaches == old(attaches) && answers == old(answers)
      ensures traced == if ok then old(traced) - {tid} else old(traced)
      ensures ok == detachable(old(detachCalls), tid) && detachCalls == old(detachCalls) + 1
    {
      Interfere();
      ok := detachable(detachCalls, tid);
      detachCalls := detachCalls + 1;
      detaches := detaches + [tid];
      if ok {
        traced, stopped := traced - {tid}, stopped - {tid};
      }
    }
  }

  // ----- attaching

  method CheckCancelled(cancellation: Cancellation) returns (r: Result<(), Error>)
    modifies cancellation
    ensures r.Err? ==> r.error == Error.Cancelled
    ensures cancellation.seen == (old(cancellation.seen) || r.Err?)
  {
    var poll := cancellation.Poll();
    r := if poll.Ok? then Ok(()) else Err(Error.Cancelled);
  }

  /** What the process may have done while this tracer attached to nothing new: threads known before are the same,
      stopped or gone. */
  twostate predicate Steady(target: Target)
    reads target
  {
    && target.Valid() && target.KnownKept()
    && (forall t :: t in old(target.stopped) && t in target.tasks ==> t in target.stopped)
    && target.traced == old(target.traced) && target.attaches == old(target.attaches)
    && target.detaches == old(target.detaches)
  }

  /** The answers about a thread that leave open whether it stops. */
  ghost predicate Open(answers: seq<Answer>, tid: int) {
    forall i :: 0 <= i < |answers| ==>
      answers[i] == Answer(tid, NotYet) || answers[i] == Answer(tid, Interrupted)
  }

  /** How often the thread had not stopped yet. */
  ghost function Naps(answers: seq<Answer>): nat {
    if answers == [] then 0
    else Naps(answers[..|answers| - 1]) + if answers[|answers| - 1].wait == NotYet then 1 else 0
  }

  lemma OneMore(answers: seq<Answer>, tid: int, wait: Wait)
    requires Open(answers, tid)
    ensures Naps(answers + [Answer(tid, wait)]) == Naps(answers) + if wait == NotYet then 1 else 0
    ensures Open(answers + [Answer(tid, wait)], tid) <==> wait == NotYet || wait == Interrupted
  {
    assert (answers + [Answer(tid, wait)])[..|answers|] == answers;
    assert (answers + [Answer(tid, wait)])[|answers|] == Answer(tid, wait);
  }

  /** A wait ends with the first answer that is not open, with the 1001st that the thread has not stopped yet, or
      because cancellation was seen in between. */
  ghost predicate Waited(r: Result<(), Error>, tid: int, answers: seq<Answer>, seen: bool) {
    match r
    case Ok(_) => !seen && EndsWith(answers, tid, Stopped) && Naps(answers) <= 1000
    case Err(NotStopped(t)) => t == tid && !seen && EndsWith(answers, tid, Ended) && Naps(answers) <= 1000
    case Err(CannotWait(t)) => t == tid && !seen && EndsWith(answers, tid, Broken) && Naps(answers) <= 1000
    case Err(TimedOut(t)) => t == tid && !seen && EndsWith(answers, tid, NotYet) && Naps(answers) == 1001
    case Err(Cancelled) => seen && Open(answers, tid) && Naps(answers) <= 1000
    case Err(_) => false
  }

  ghost predicate EndsWith(answers: seq<Answer>, tid: int, wait: Wait) {
    answers != [] && Open(answers[..|answers| - 1], tid) && answers[|answers| - 1] == Answer(tid, wait)
  }

  lemma EndsWithLast(answers: seq<Answer>, tid: int, wait: Wait)
    requires Open(answers, tid)
    ensures EndsWith(answers + [Answer(tid, wait)], tid, wait)
  {
    assert (answers + [Answer(tid, wait)])[..|answers|] == answers;
  }

  /** Polls every ten milliseconds until the thread stops or ten seconds have gone by; `slept` says for how long. */
  method WaitStopped(target: Target, tid: int, cancellation: Cancellation)
    returns (r: Result<(), Error>, ghost slept: nat)
    requires target.Valid() && !cancellation.seen
    modifies target, cancellation
    ensures Steady(target) && old(target.answers) <= target.answers
    ensures r.Ok? ==> tid in target.stopped
    ensures slept <= DEADLINE_MS && (r == Err(TimedOut(tid)) ==> slept == DEADLINE_MS)
    ensures Waited(r, tid, target.answers[|old(target.answers)|..], cancellation.seen)
  {
    hide Naps, Open, EndsWith;
    var elapsed := 0;
    slept := 0;
    ghost var answers: seq<Answer> := [];
    NotAsked(tid);
    while true
      invariant Steady(target) && slept == elapsed <= DEADLINE_MS && elapsed == 10 * Naps(answers)
      invariant target.answers == old(target.answers) + answers && Open(answers, tid) && !cancellation.seen
      decreases DEADLINE_MS - elapsed, target.interruptions
    {
      var _ :- CheckCancelled(cancellation);
      var result := target.WaitPid(tid);
      OneMore(answers, tid, result);
      EndsWithLast(answers, tid, result);
      answers := answers + [Answer(tid, result)];
      assert target.answers[|old(target.answers)|..] == answers;
      match result
      case Stopped => return Ok(()), slept;
      case Ended => return Err(NotStopped(tid)), slept;
      case NotYet =>
        if elapsed >= DEADLINE_MS {
          return Err(TimedOut(tid)), slept;
        }
        elapsed, slept := elapsed + 10, slept + 10;
      case Interrupted =>
      case Broken => return Err(CannotWait(tid)), slept;
    }
  }

  lemma NotAsked(tid: int)
    ensures Open([], tid) && Naps([]) == 0
  {
  }

  predicate IsTid(t: int) {
    0 < t < TID_LIMIT
  }

  ghost function AllTids(): set<int> {
    set t: int | 0 < t < TID_LIMIT && IsTid(t)
  }

  /** Those of `tids` not known yet, in order; all of them are known afterwards. */
  method Additions(tids: seq<int>, known: set<int>) returns (additions: seq<int>, nowKnown: set<int>)
    ensures forall t :: t in nowKnown <==> t in known || t in tids
    ensures Distinct(additions) && forall t :: t in additions <==> t in tids && t !in known
  {
    additions, nowKnown := [], known;
    for i := 0 to |tids|
      invariant forall t :: t in nowKnown <==> t in known || t in tids[..i]
      invariant Distinct(additions) && forall t :: t in additions <==> t in tids[..i] && t !in known
    {
      assert tids[..i + 1] == tids[..i] + [tids[i]];
      if tids[i] !in nowKnown {
        additions, nowKnown := additions + [tids[i]], nowKnown + {tids[i]};
      }
    }
    assert tids[..|tids|] == tids;
  }

  /** How it ends when a thread was not attached to: cancellation was seen, the thread is gone, or it is there and
      attaching to it is refused. */
  ghost predicate PassedOver(r: Result<(), Error>, target: Target, tid: int, seen: bool)
    reads target
  {
    if seen then r == Err(Error.Cancelled)
    else if tid !in target.tasks then r == Ok(())
    else r == Err(CannotAttach(tid)) && !target.attachable(tid)
  }

  /** Attaching to a process, of which `tasks` were the threads in the end, fails for a reason that really obtains. */
  ghost predicate Blames(error: Error, target: Target, tasks: seq<int>, tids: seq<int>, seen: bool)
    reads target
  {
    match error
    case CannotList => !target.listable
    case NoThreads => target.listable && tasks == []
    case CannotAttach(tid) => tid in tasks && !target.attachable(tid)
    case TimedOut(tid) => LastAnswer(target, tids, tid, NotYet)
    case NotStopped(tid) => LastAnswer(target, tids, tid, Ended)
    case CannotWait(tid) => LastAnswer(target, tids, tid, Broken)
    case Cancelled => seen
    case _ => false
  }

  ghost predicate LastAnswer(target: Target, tids: seq<int>, tid: int, wait: Wait)
    reads target
  {
    tid in tids && target.answers != [] && target.answers[|target.answers| - 1] == Answer(tid, wait)
  }

  /** Attached threads; dropping the guard detaches those it still holds. */
  class AttachedThreads {
    var tids: seq<int>

    constructor ()
      ensures tids == []
    {
      tids := [];
    }

    /** What the guard holds is what has been attached since it was made. */
    twostate predicate Holds(target: Target)
      reads this, target
    {
      && target.Valid() && Distinct(tids)
      && (forall t :: t in target.traced <==> t in old(target.traced) || t in tids)
      && target.detaches == old(target.detaches)
    }

    /** Every thread in `known`, apart from those in `pending`, is stopped or gone. */
    ghost predicate Settled(target: Target, known: set<int>, pending: seq<int>)
      reads this, target
    {
      && (forall t :: t in known ==> t in target.used)
      && (forall t :: t in tids || t in pending ==> t in known)
      && (forall t :: t in known && t in target.tasks ==> t in target.stopped || t in pending)
      && (forall t :: t in pending ==> t !in tids)
    }

    /** Attaches to one thread and waits for it to stop. The guard has the thread before the wait can fail. A thread
        that is gone is passed over; one that is there is attached to unless that is refused. */
    method AttachOne(target: Target, tid: int, cancellation: Cancellation) returns (r: Result<(), Error>)
      requires target.Valid() && Distinct(tids) && tid !in tids && !cancellation.seen
      modifies this, target, cancellation
      ensures target.Valid() && target.KnownKept() && target.detaches == old(target.detaches)
      ensures forall t :: t in old(target.stopped) && t in target.tasks ==> t in target.stopped
      ensures Distinct(tids) && (tids == old(tids) || tids == old(tids) + [tid])
      ensures target.attaches == old(target.attaches) + tids[|old(tids)|..]
      ensures forall t :: t in target.traced <==> t in old(target.traced) || t in tids[|old(tids)|..]
      ensures r.Ok? && tid in target.tasks ==> tid in target.stopped
      ensures old(target.answers) <= target.answers
      ensures var answers := target.answers[|old(target.answers)|..];
        if tids == old(tids) then answers == [] && PassedOver(r, target, tid, cancellation.seen)
        else target.attachable(tid) && Waited(r, tid, answers, cancellation.seen)
    {
      hide Waited;
      var _ :- CheckCancelled(cancellation);
      var attached :- target.PtraceAttach(tid);
      if !attached {
        return Ok(());
      }
      tids := tids + [tid];
      ghost var slept;
      r, slept := WaitStopped(target, tid, cancellation);
    }

    /** Attaches to threads until a listing shows none that is not known. */
    method Collect(target: Target, cancellation: Cancellation) returns (r: Result<(), Error>)
      requires target.Valid() && tids == [] && !cancellation.seen
      modifies this, target, cancellation
      ensures Holds(target) && target.attaches == old(target.attaches) + tids
      ensures r.Ok? ==> forall t :: t in target.tasks ==> t in target.stopped
      ensures r.Ok? ==> !cancellation.seen && target.listable && forall t :: t in tids ==> target.attachable(t)
      ensures r.Err? ==> Blames(r.error, target, target.tasks, tids, cancellation.seen)
    {
      var known: set<int> := {};
      while true
        invariant Holds(target) && target.attaches == old(target.attaches) + tids && Settled(target, known, [])
        invariant !cancellation.seen && forall t :: t in tids ==> target.attachable(t)
        decreases AllTids() - known
      {
        var listed :- target.EnumerateThreads();
        var additions, nowKnown := Additions(listed, known);
        if additions == [] {
          assert forall t :: t in target.tasks ==> t in listed && t in known;
          return Ok(());
        }
        var tid := additions[0];
        assert tid in additions && tid in listed && tid in target.tasks;
        assert tid in nowKnown && tid !in known && IsTid(tid);
        r := AttachAdditions(target, nowKnown, additions, cancellation);
        if r.Err? {
          return;
        }
        known := nowKnown;
      }
    }

    method AttachAdditions(target: Target, ghost known: set<int>, additions: seq<int>, cancellation: Cancellation)
      returns (r: Result<(), Error>)
      requires target.Valid() && Distinct(tids) && Distinct(additions) && Settled(target, known, additions)
      requires !cancellation.seen && forall t :: t in tids ==> target.attachable(t)
      modifies this, target, cancellation
      ensures target.Valid() && Distinct(tids) && target.detaches == old(target.detaches)
      ensures old(tids) <= tids && target.attaches == old(target.attaches) + tids[|old(tids)|..]
      ensures forall t :: t in target.traced <==> t in old(target.traced) || t in tids[|old(tids)|..]
      ensures forall t :: t in tids ==> target.attachable(t)
      ensures if r.Ok? then Settled(target, known, []) && !cancellation.seen
              else Blames(r.error, target, target.tasks, tids, cancellation.seen)
    {
      assert additions[0..] == additions;
      for i := 0 to |additions|
        invariant target.Valid() && Distinct(tids) && target.detaches == old(target.detaches)
        invariant old(tids) <= tids && target.attaches == old(target.attaches) + tids[|old(tids)|..]
        invariant forall t :: t in target.traced <==> t in old(target.traced) || t in tids[|old(tids)|..]
        invariant Settled(target, known, additions[i..])
        invariant !cancellation.seen && forall t :: t in tids ==> target.attachable(t)
      {
        r := AttachOne(target, additions[i], cancellation);
        if r.Err? {
          return;
        }
      }
      r := Ok(());
    }

    /** Pops and detaches every thread; those that could not be detached are kept, in the order they failed. */
    method DetachAll(target: Target) returns (r: Result<(), Error>)
      requires target.Valid() && Distinct(tids)
      modifies this, target
      ensures target.Valid() && Distinct(tids) && target.attaches == old(target.attaches)
      ensures target.detaches == old(target.detaches) + Reversed(old(tids)) && target.answers == old(target.answers)
      ensures forall t :: t in tids ==> t in old(tids)
      ensures forall t :: t in target.traced <==> t in old(target.traced) && (t in old(tids) ==> t in tids)
      ensures r == if tids == [] then Ok(()) else Err(CannotDetach(tids[0]))
    {
      var failed: seq<int> := [];
      var firstError: Option<Error> := None;
      ghost var all := tids;
      assert all[..|tids|] == all;
      while tids != []
        invariant |tids| <= |all| && tids == all[..|tids|]
        invariant target.Valid() && target.attaches == old(target.attaches) && target.answers == old(target.answers)
        invariant target.detaches == old(target.detaches) + Reversed(all[|tids|..])
        invariant Distinct(failed) && forall t :: t in failed ==> t in all[|tids|..]
        invariant forall t :: t in target.traced <==> t in old(target.traced) && (t in all[|tids|..] ==> t in failed)
        invariant firstError == if failed == [] then None else Some(CannotDetach(failed[0]))
        decreases |tids|
      {
        var n := |tids| - 1;
        var tid := tids[n];
        PopLast(all, n);
        tids := tids[..n];
        var ok := target.PtraceDetach(tid);
        if !ok {
          firstError := if firstError.None? then Some(CannotDetach(tid)) else firstError;
          failed := failed + [tid];
        }
      }
      assert all[0..] == all;
      tids := failed;
      r := if firstError.Some? then Err(firstError.value) else Ok(());
    }

    /** Detaches, and drops the guard: what failed is tried once more, and that is all. */
    method Finish(target: Target) returns (r: Result<(), Error>, ghost failed: seq<int>)
      requires target.Valid() && Distinct(tids)
      modifies this, target
      ensures target.Valid() && target.attaches == old(target.attaches)
      ensures target.detaches == old(target.detaches) + Reversed(old(tids)) + Reversed(failed)
      ensures Distinct(failed) && forall t :: t in failed ==> t in old(tids)
      ensures forall t :: t in target.traced ==> t in old(target.traced) && (t in old(tids) ==> t in failed)
      ensures r == if failed == [] then Ok(()) else Err(CannotDetach(failed[0]))
    {
      r := DetachAll(target);
      failed := tids;
      var _ := DetachAll(target);
    }
  }

  function Reversed(tids: seq<int>): (r: seq<int>)
    ensures |r| == |tids|
  {
    if tids == [] then [] else Reversed(tids[1..]) + [tids[0]]
  }

  lemma PopLast(all: seq<int>, n: nat)
    requires n < |all| && Distinct(all)
    ensures all[n] !in all[n + 1..] && all[n] !in all[..n]
    ensures Reversed(all[n..]) == Reversed(all[n + 1..]) + [all[n]]
    ensures forall t :: t in all[n..] <==> t == all[n] || t in all[n + 1..]
  {
    assert all[n..][1..] == all[n + 1..];
    assert forall j :: n < j < |all| ==> all[j] == all[n + 1..][j - n - 1];
    assert forall i :: 0 <= i < n ==> all[..n][i] == all[i];
    assert all[n..] == [all[n]] + all[n + 1..];
  }

  lemma NoneDistinct()
    ensures Distinct<int>([]) && Reversed([]) == []
  {
  }

  lemma {:induction false} ReversedMembers(tids: seq<int>)
    ensures multiset(Reversed(tids)) == multiset(tids)
  {
    if tids != [] {
      ReversedMembers(tids[1..]);
      assert tids == [tids[0]] + tids[1..];
    }
  }

  /** Attaches to the whole process. If it succeeds, every thread of the process is stopped and in the guard, the
      leader first; if not, every thread attached to so far has been offered to detach once. `tasks` are the threads
      the process had when attaching ended. */
  method AttachProcess(target: Target, cancellation: Cancellation)
    returns (guard: AttachedThreads, r: Result<(), Error>, ghost tasks: seq<int>)
    requires target.Valid() && !cancellation.seen
    modifies target, cancellation
    ensures fresh(guard) && target.Valid() && Distinct(guard.tids)
    ensures old(target.attaches) <= target.attaches
    ensures r.Ok? ==>
      && multiset(target.attaches[|old(target.attaches)|..]) == multiset(guard.tids)
      && target.detaches == old(target.detaches) && !cancellation.seen
      && target.Frozen() && InOrder(guard.tids, target.pid)
      && (forall t :: t in target.traced <==> t in old(target.traced) || t in guard.tids)
      && (target.pid in guard.tids ==> guard.tids[0] == target.pid)
    ensures r.Err? ==>
      && target.detaches == old(target.detaches) + Reversed(target.attaches[|old(target.attaches)|..])
      && (forall t :: t in target.traced ==> t in old(target.traced) || t in guard.tids)
      && Blames(r.error, target, tasks, target.attaches[|old(target.attaches)|..], cancellation.seen)
  {
    guard := new AttachedThreads();
    r := guard.Collect(target, cancellation);
    tasks := target.tasks;
    if r.Err? {
      var _ := guard.DetachAll(target);
      return;
    }
    SortedThreads(guard.tids, target.pid);
    guard.tids := Sort(guard.tids, target.pid);
  }

  /** The first step before writing that fails. */
  function FirstFailed(succeeds: Step -> bool): Option<Step> {
    if !succeeds(ReadProcess) then Some(ReadProcess)
    else if !succeeds(ApplyFilter) then Some(ApplyFilter)
    else if !succeeds(ReadStates) then Some(ReadStates)
    else if !succeeds(BuildNotes) then Some(BuildNotes)
    else None
  }

  /** What a dump reports, from how attaching and each step ended and which threads could not be detached. */
  function Reported(attached: Result<(), Error>, succeeds: Step -> bool, failed: seq<int>): Result<(), Error> {
    if attached.Err? then attached
    else if FirstFailed(succeeds).Some? then Err(Stage(FirstFailed(succeeds).value))
    else if succeeds(WriteFile) then if failed == [] then Ok(()) else Err(CannotDetach(failed[0]))
    else if failed == [] then Err(Stage(WriteFile))
    else Err(Both(Stage(WriteFile), CannotDetach(failed[0])))
  }

  const STEPS := [ReadProcess, ApplyFilter, ReadStates, BuildNotes, WriteFile]

  /** The process as a step of the dump found it. */
  datatype Glance = Glance(step: Step, tasks: seq<int>, stopped: set<int>)

  ghost predicate StillIn(glance: Glance, threads: seq<int>) {
    forall t :: t in glance.tasks ==> t in glance.stopped && t in threads
  }

  /** Nothing ran during any step: every thread there was had been stopped, and is one of `threads`. */
  ghost predicate Still(glances: seq<Glance>, threads: seq<int>): (still: bool)
    ensures glances == [] ==> still
  {
    forall i :: 0 <= i < |glances| ==> StillIn(glances[i], threads)
  }

  /** The steps are taken in order, up to the first that fails. */
  ghost predicate InTurn(glances: seq<Glance>, succeeds: Step -> bool) {
    && 0 < |glances| <= 5
    && (forall i :: 0 <= i < |glances| ==> glances[i].step == STEPS[i])
    && (forall i :: 0 <= i < |glances| - 1 ==> succeeds(STEPS[i]))
    && (|glances| == 5 || !succeeds(STEPS[|glances| - 1]))
  }

  /** One step, before which the process has run on as far as it can. */
  method Perform(target: Target, step: Step, succeeds: Step -> bool, ghost before: seq<Glance>, ghost threads: seq<int>)
    returns (r: Result<(), Error>, ghost glances: seq<Glance>)
    requires target.Valid() && target.Frozen() && (forall t :: t in target.tasks ==> t in threads)
    requires Still(before, threads)
    modifies target
    ensures target.Valid() && target.RanOn() && target.Frozen() && (forall t :: t in target.tasks ==> t in threads)
    ensures Still(glances, threads) && |glances| == |before| + 1 && before == glances[..|before|]
    ensures glances[|before|].step == step && r == if succeeds(step) then Ok(()) else Err(Stage(step))
  {
    target.Interfere();
    ghost var glance := Glance(step, target.tasks, target.stopped);
    assert StillIn(glance, threads);
    glances := before + [glance];
    r := if succeeds(step) then Ok(()) else Err(Stage(step));
  }

  /** The steps before writing. */
  method Prepare(target: Target, succeeds: Step -> bool, ghost threads: seq<int>)
    returns (r: Result<(), Error>, ghost glances: seq<Glance>)
    requires target.Valid() && target.Frozen() && (forall t :: t in target.tasks ==> t in threads)
    modifies target
    ensures target.Valid() && target.RanOn() && target.Frozen() && (forall t :: t in target.tasks ==> t in threads)
    ensures Still(glances, threads) && (forall i :: 0 <= i < |glances| <= 4 ==> glances[i].step == STEPS[i])
    ensures r == if FirstFailed(succeeds).Some? then Err(Stage(FirstFailed(succeeds).value)) else Ok(())
    ensures if r.Err? then InTurn(glances, succeeds)
            else |glances| == 4 && forall i :: 0 <= i < 4 ==> succeeds(STEPS[i])
  {
    glances := [];
    r, glances := Perform(target, ReadProcess, succeeds, glances, threads);
    if r.Err? {
      return;
    }
    r, glances := Perform(target, ApplyFilter, succeeds, glances, threads);
    if r.Err? {
      return;
    }
    r, glances := Perform(target, ReadStates, succeeds, glances, threads);
    if r.Err? {
      return;
    }
    r, glances := Perform(target, BuildNotes, succeeds, glances, threads);
  }

  /** All the steps: `written` is how writing the file ended, if the steps before it went well. */
  method Take(target: Target, succeeds: Step -> bool, ghost threads: seq<int>)
    returns (prepared: Result<(), Error>, written: Result<(), Error>, ghost glances: seq<Glance>)
    requires target.Valid() && target.Frozen() && (forall t :: t in target.tasks ==> t in threads)
    modifies target
    ensures target.Valid() && target.RanOn()
    ensures Still(glances, threads) && InTurn(glances, succeeds)
    ensures prepared == if FirstFailed(succeeds).Some? then Err(Stage(FirstFailed(succeeds).value)) else Ok(())
    ensures prepared.Ok? ==> written == if succeeds(WriteFile) then Ok(()) else Err(Stage(WriteFile))
  {
    hide Still, FirstFailed;
    written := Ok(());
    prepared, glances := Prepare(target, succeeds, threads);
    if prepared.Ok? {
      ghost var before := glances;
      written, glances := Perform(target, WriteFile, succeeds, before, threads);
      assert forall i :: 0 <= i < 4 ==> glances[i] == before[i];
    }
  }

  /** Dumps a process. On every path, each thread attached to is offered to detach once, in `first`; only those that
      could not be let go after the file was written, `failed`, are tried again, once. In between the steps are taken
      in turn, and at each of them every thread the process has is stopped and was attached to, although the process
      runs on as far as it can. */
  method DumpPid(target: Target, cancellation: Cancellation, succeeds: Step -> bool)
    returns (r: Result<(), Error>, ghost attached: Result<(), Error>, ghost first: seq<int>, ghost failed: seq<int>,
             ghost glances: seq<Glance>, ghost tasks: seq<int>)
    requires target.Valid() && !cancellation.seen
    modifies target, cancellation
    ensures target.Valid() && old(target.attaches) <= target.attaches
    ensures target.detaches == old(target.detaches) + first + Reversed(failed)
    ensures multiset(first) == multiset(target.attaches[|old(target.attaches)|..])
    ensures Distinct(failed) && forall t :: t in failed ==> t in first
    ensures r == Reported(attached, succeeds, failed)
    ensures attached.Err? ==>
      Blames(attached.error, target, tasks, target.attaches[|old(target.attaches)|..], cancellation.seen)
    ensures attached.Ok? ==> !cancellation.seen
    ensures if attached.Ok? then InTurn(glances, succeeds) else glances == []
    ensures old(target.traced) == {} ==> Still(glances, target.attaches[|old(target.attaches)|..])
    ensures r.Ok? ==> forall t :: t in target.traced ==> t in old(target.traced)
  {
    hide Reversed, Distinct, InOrder, InTurn, Still, Blames;
    NoneDistinct();
    failed, glances := [], [];
    var guard, collected;
    guard, collected, tasks := AttachProcess(target, cancellation);
    attached := collected;
    if collected.Err? {
      first := Reversed(target.attaches[|old(target.attaches)|..]);
      ReversedMembers(target.attaches[|old(target.attaches)|..]);
      r := collected;
      return;
    }
    ghost var held := guard.tids;
    first := Reversed(held);
    ReversedMembers(held);
    assert forall t :: t in held ==> t in multiset(first);
    ghost var since := target.attaches[|old(target.attaches)|..];
    assert forall t :: t in held <==> t in multiset(since);
    ghost var threads := if old(target.traced) == {} then since else target.tasks;
    var written;
    r, written, glances := Take(target, succeeds, threads);
    if r.Err? {
      var _ := guard.DetachAll(target);
      return;
    }
    var detached;
    detached, failed := guard.Finish(target);
    match (written, detached)
    case (Ok(_), Ok(_)) => r := Ok(());
    case (Err(error), Ok(_)) => r := Err(error);
    case (Ok(_), Err(error)) => r := Err(error);
    case (Err(writeError), Err(detachError)) => r := Err(Both(writeError, detachError));
  }
}
