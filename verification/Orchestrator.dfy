/** One monitor per process instance, while process numbers come and go and are reused. */
module Orchestrator {
  import opened Bytes
  import opened Sequences

  /** A process number, and the start time that tells its users apart. */
  datatype Identity = Identity(pid: int, startTime: nat)

  /** A started monitor; `id` counts the monitors started before it. */
  datatype Session = Session(identity: Identity, id: nat)

  datatype Error = CannotDiscover | CannotStart | CannotTellAlive | MonitorFailed

  // ----- which monitors should be started

  /** The last identity seen under a process number. */
  function Latest(seen: seq<Identity>, pid: int): (r: Option<Identity>)
    ensures r.Some? ==> r.value in seen && r.value.pid == pid
  {
    if seen == [] then None
    else if seen[|seen| - 1].pid == pid then Some(seen[|seen| - 1])
    else Latest(seen[..|seen| - 1], pid)
  }

  /** The identities that are not the one seen last under their number. */
  function Changes(seen: seq<Identity>): (r: seq<Identity>)
    ensures forall x :: x in r ==> x in seen
  {
    if seen == [] then []
    else
      var before, last := seen[..|seen| - 1], seen[|seen| - 1];
      Changes(before) + if Latest(before, last.pid) == Some(last) then [] else [last]
  }

  /** An identity was seen, then another under the same number, then the first again. */
  predicate Returns(seen: seq<Identity>, i: nat, j: nat, k: nat) {
    && i < j < k < |seen|
    && seen[i] == seen[k] && seen[j].pid == seen[i].pid && seen[j] != seen[i]
  }

  ghost predicate NoneReturns(seen: seq<Identity>) {
    forall i: nat, j: nat, k: nat :: !Returns(seen, i, j, k)
  }

  lemma {:induction false} SeenIsStarted(seen: seq<Identity>, i: nat)
    requires i < |seen|
    ensures seen[i] in Changes(seen)
    decreases |seen|
  {
    var n := |seen| - 1;
    var before, last := seen[..n], seen[n];
    if i < n {
      SeenIsStarted(before, i);
    } else if Latest(before, last.pid) == Some(last) {
      var k :| 0 <= k < n && before[k] == last;
      SeenIsStarted(before, k);
    }
  }

  /** Where the latest identity was seen, and that nothing came under its number since. */
  lemma {:induction false} LatestAt(seen: seq<Identity>, pid: int) returns (k: nat)
    requires Latest(seen, pid).Some?
    ensures k < |seen| && seen[k] == Latest(seen, pid).value
    ensures forall j :: k < j < |seen| ==> seen[j].pid != pid
  {
    var n := |seen| - 1;
    if seen[n].pid == pid {
      k := n;
    } else {
      k := LatestAt(seen[..n], pid);
      forall j | k < j < |seen| ensures seen[j].pid != pid {
        assert j < n ==> seen[..n][j] == seen[j];
      }
    }
  }

  lemma LatestExists(seen: seq<Identity>, i: nat)
    requires i < |seen|
    ensures Latest(seen, seen[i].pid).Some?
    decreases |seen|
  {
    var n := |seen| - 1;
    if seen[n].pid != seen[i].pid {
      assert seen[..n][i] == seen[i];
      LatestExists(seen[..n], i);
    }
  }

  lemma {:induction false} StartedOnce(seen: seq<Identity>)
    requires NoneReturns(seen)
    ensures Distinct(Changes(seen))
  {
    if seen != [] {
      var n := |seen| - 1;
      var before, last := seen[..n], seen[n];
      forall i: nat, j: nat, k: nat ensures !Returns(before, i, j, k) {
        assert !Returns(seen, i, j, k);
      }
      StartedOnce(before);
      if Latest(before, last.pid) != Some(last) && last in Changes(before) {
        StartedBefore(seen);
      }
    }
  }

  /** A change to an identity that was started before is a return. */
  lemma StartedBefore(seen: seq<Identity>)
    requires seen != []
    requires var last := seen[|seen| - 1]; var before := seen[..|seen| - 1];
      Latest(before, last.pid) != Some(last) && last in Changes(before)
    ensures !NoneReturns(seen)
  {
    var n := |seen| - 1;
    var before, last := seen[..n], seen[n];
    var i :| 0 <= i < n && before[i] == last;
    LatestExists(before, i);
    var j := LatestAt(before, last.pid);
    assert before[j] == seen[j] && before[i] == seen[i];
    assert Returns(seen, i, j, n);
  }

  lemma {:induction false} ChangesGrow(seen: seq<Identity>, n: nat)
    requires n <= |seen|
    ensures Changes(seen[..n]) <= Changes(seen)
    decreases |seen|
  {
    if n < |seen| {
      var before := seen[..|seen| - 1];
      ChangesGrow(before, n);
      assert before[..n] == seen[..n];
    } else {
      assert seen[..n] == seen;
    }
  }

  lemma ChangesStep(seen: seq<Identity>, k: nat)
    requires k < |seen|
    ensures Changes(seen[..k + 1]) ==
            Changes(seen[..k]) + if Latest(seen[..k], seen[k].pid) == Some(seen[k]) then [] else [seen[k]]
  {
    assert seen[..k + 1][..k] == seen[..k];
  }

  /** After another identity under its number, one that comes again is started again, as the `b`-th. */
  lemma {:induction false} StartedAgain(seen: seq<Identity>, j: nat, k: nat) returns (b: nat)
    requires j < k < |seen| && seen[j].pid == seen[k].pid && seen[j] != seen[k]
    ensures |Changes(seen[..j + 1])| <= b < |Changes(seen)| && Changes(seen)[b] == seen[k]
    decreases |seen|, k
  {
    hide Changes;
    var before, x := seen[..k], seen[k];
    assert before[..j + 1] == seen[..j + 1];
    if Latest(before, x.pid) != Some(x) {
      ChangesGrow(before, j + 1);
      ChangesGrow(seen, k + 1);
      ChangesStep(seen, k);
      b := |Changes(before)|;
      assert Changes(seen[..k + 1])[b] == x;
    } else {
      var m := LatestAt(before, x.pid);
      assert m > j by { assert before[j] == seen[j]; }
      b := StartedAgain(before, j, m);
      ChangesGrow(seen, k);
    }
  }

  /** No identity is started twice exactly when none that was replaced comes back. */
  lemma StartedOnceIffNoneReturns(seen: seq<Identity>)
    ensures Distinct(Changes(seen)) <==> NoneReturns(seen)
  {
    hide Changes;
    if NoneReturns(seen) {
      StartedOnce(seen);
    } else {
      var i: nat, j: nat, k: nat :| Returns(seen, i, j, k);
      var done := seen[..j + 1];
      ChangesGrow(seen, j + 1);
      assert done[i] == seen[i];
      SeenIsStarted(done, i);
      var a :| 0 <= a < |Changes(done)| && Changes(done)[a] == seen[i];
      var b := StartedAgain(seen, j, k);
      assert Changes(seen)[a] == Changes(seen)[b];
    }
  }

  // ----- the books

  function Without(active: map<int, Session>, pid: int): (r: map<int, Session>)
    ensures pid !in r
    ensures forall p :: p in r <==> p in active && p != pid
    ensures forall p :: p in r ==> r[p] == active[p]
  {
    map p | p in active && p != pid :: active[p]
  }

  /** Each active session is one that was started, under its own number. */
  predicate Filed(active: map<int, Session>, started: seq<Identity>) {
    forall p :: p in active ==>
      active[p].id < |started| && started[active[p].id] == active[p].identity && active[p].identity.pid == p
  }

  /** Session `id` is among the active ones. */
  predicate IsActive(active: map<int, Session>, started: seq<Identity>, id: nat)
    requires id < |started|
  {
    started[id].pid in active && active[started[id].pid].id == id
  }

  /** Each started session is either active or was finished once; `pending` has left the maps but is not finished. */
  ghost predicate Accounted(active: map<int, Session>, started: seq<Identity>, finished: seq<nat>,
                            pending: Option<nat>)
  {
    && Filed(active, started) && Distinct(finished)
    && (forall id :: id in finished ==> id < |started|)
    && (forall id: nat :: id < |started| ==>
         (id in finished || pending == Some(id) <==> !IsActive(active, started, id)))
    && (pending.Some? ==> pending.value < |started| && pending.value !in finished)
  }

  lemma FinishedAccounted(active: map<int, Session>, started: seq<Identity>, finished: seq<nat>, id: nat)
    requires Accounted(active, started, finished, Some(id))
    ensures id < |started| && id !in finished && Accounted(active, started, finished + [id], None)
  {
  }

  /** Each finished session was asked to quit, once, unless it could not be told whether its process was alive. */
  ghost predicate Requested(finished: seq<nat>, asked: seq<nat>, untold: set<nat>) {
    && Distinct(asked)
    && (forall id :: id in asked ==> id in finished)
    && (forall id :: id in untold ==> id in finished)
    && (forall id :: id in finished ==> (id in asked <==> id !in untold))
  }

  lemma NotUntold(finished: seq<nat>, asked: seq<nat>, untold: set<nat>, id: nat)
    requires Requested(finished, asked, untold) && id !in finished
    ensures id !in untold && id !in asked
  {
  }

  lemma RequestedNext(finished: seq<nat>, asked: seq<nat>, untold: set<nat>, id: nat)
    requires Requested(finished, asked, untold) && id !in finished
    ensures Requested(finished + [id], asked + [id], untold)
    ensures Requested(finished + [id], asked, untold + {id})
  {
  }

  /** `asks` holds when it was asked whether the process of each finished session is alive, and the sessions in `untold`
      are those for which that could not be told. */
  ghost predicate Told(w: World, started: seq<Identity>, finished: seq<nat>, asks: map<nat, nat>, untold: set<nat>) {
    forall id :: id in finished ==>
      id < |started| && id in asks && (id in untold <==> w.alive(asks[id], started[id]).Unknown?)
  }

  lemma ToldNext(w: World, started: seq<Identity>, finished: seq<nat>, asks: map<nat, nat>, untold: set<nat>, id: nat,
                 t: nat)
    requires Told(w, started, finished, asks, untold) && id !in finished && id !in untold && id < |started|
    ensures Told(w, started, finished + [id], asks[id := t],
                 if w.alive(t, started[id]).Unknown? then untold + {id} else untold)
  {
  }

  lemma ToldMore(w: World, started: seq<Identity>, finished: seq<nat>, asks: map<nat, nat>, untold: set<nat>,
                 x: Identity)
    requires Told(w, started, finished, asks, untold)
    ensures Told(w, started + [x], finished, asks, untold)
  {
  }

  /** The two maps are in step. */
  predicate InStep(active: map<int, Session>, monitored: map<int, Identity>) {
    forall p :: p in active ==> p in monitored && monitored[p] == active[p].identity
  }

  /** The second map holds the last identity seen under each number. */
  ghost predicate Remembers(monitored: map<int, Identity>, seen: seq<Identity>) {
    forall p :: if p in monitored then Latest(seen, p) == Some(monitored[p]) else Latest(seen, p) == None
  }

  // ----- the world outside

  datatype Alive = Yes | No | Disappeared | Unknown

  /** How waiting for a monitor ends: the process gone or its number reused counts as an end like any other. */
  datatype Ending = Fine | Gone | Reused | Other

  /** Answers from the system, one for each question asked; a request to quit comes after `horizon`
      rounds at the latest. */
  datatype World = World(alive: (nat, Identity) -> Alive, ending: (nat, Identity) -> Ending,
                         done: (nat, Identity) -> bool, starts: nat -> bool,
                         discovered: nat -> Result<seq<Identity>, Error>, quits: nat -> bool, horizon: nat)

  /** How finishing a session ends, asked from time `t` on. Once the process is gone its monitor's failure does not
      matter; but if that cannot be told, the monitor is not even waited for. */
  function Finishing(w: World, t: nat, identity: Identity): Result<(), Error> {
    if w.alive(t, identity).Unknown? then Err(CannotTellAlive)
    else if w.ending(t + 1, identity).Other? && w.alive(t, identity).Yes? then Err(MonitorFailed)
    else Ok(())
  }

  lemma FinishingSteps(w: World, t: nat, identity: Identity)
    ensures var r := Finishing(w, t, identity);
      && (w.alive(t, identity).Unknown? ==> r == Err(CannotTellAlive))
      && (!w.alive(t, identity).Unknown? ==>
            r == if w.ending(t + 1, identity).Other? && w.alive(t, identity).Yes? then Err(MonitorFailed) else Ok(()))
  {
  }

  /** Looked at from time `t` on, the session is found done or its process gone. */
  predicate Over(w: World, t: nat, session: Session) {
    !w.alive(t, session.identity).Yes? || w.done(t + 1, session.identity)
  }

  lemma OverWhen(w: World, t: nat, session: Session)
    ensures Over(w, t, session) <==> !w.alive(t, session.identity).Yes? || w.done(t + 1, session.identity)
  {
  }

  /** What is monitored: one process, or all that match from time to time. */
  datatype Mode = One | Named | Group

  class Orchestrator {
    const world: World
    var clock: nat
    var active: map<int, Session>
    var monitored: map<int, Identity>
    ghost var seen: seq<Identity>
    var count: nat
    ghost var started: seq<Identity>
    ghost var finished: seq<nat>
    ghost var asked: seq<nat>
    ghost var untold: set<nat>
    ghost var asks: map<nat, nat>

    // what a run has done so far: its discoveries, the processes they found, the rounds of reaping, those that left
    // nothing to watch, each answer whether quitting was requested, and the first thing that went wrong
    ghost var discoveries: nat
    ghost var found: seq<Identity>
    ghost var reapings: nat
    ghost var exhausted: nat
    ghost var polls: seq<bool>
    ghost var trouble: Option<Error>

    constructor (world: World)
      ensures this.world == world && clock == 0 && Valid() && Fresh() && finished == [] && asked == []
    {
      this.world := world;
      clock, count, active, monitored := 0, 0, map[], map[];
      seen, started, finished, asked, untold, asks := [], [], [], [], {}, map[];
      discoveries, found, reapings, exhausted, polls, trouble := 0, [], 0, 0, [], None;
    }

    /** No run has begun. */
    ghost predicate Fresh()
      reads this
    {
      && seen == started == [] && active == map[] && untold == {} && trouble.None?
      && discoveries == reapings == exhausted == 0 && found == [] && polls == []
    }

    /** Nothing of this is done. */
    twostate predicate SameRounds()
      reads `discoveries, `found, `reapings, `exhausted, `polls
    {
      && discoveries == old(discoveries) && found == old(found) && reapings == old(reapings)
      && exhausted == old(exhausted) && polls == old(polls)
    }

    /** Nothing of this but reaping is done. */
    twostate predicate SameWatch()
      reads `discoveries, `found, `exhausted, `polls
    {
      discoveries == old(discoveries) && found == old(found) && exhausted == old(exhausted) && polls == old(polls)
    }

    /** The result is good exactly when nothing went wrong, and otherwise names the first thing that did. */
    ghost predicate Explained(r: Result<(), Error>)
      reads `trouble
    {
      r == if trouble.None? then Ok(()) else Err(trouble.value)
    }

    ghost predicate Books(pending: Option<nat>)
      reads `active, `monitored, `count, `started, `finished, `asked, `untold, `asks
    {
      && Accounted(active, started, finished, pending) && count == |started|
      && InStep(active, monitored) && Requested(finished, asked, untold)
      && Told(world, started, finished, asks, untold)
    }

    ghost predicate Valid()
      reads `active, `monitored, `seen, `count, `started, `finished, `asked, `untold, `asks
    {
      && Books(None) && Remembers(monitored, seen) && started == Changes(seen)
    }

    method IsAlive(identity: Identity) returns (r: Result<bool, Error>)
      requires trouble.None?
      modifies `clock, `trouble
      ensures clock == old(clock) + 1 && trouble == if r.Err? then Some(r.error) else None
      ensures r == match world.alive(old(clock), identity)
                   case Unknown => Err(CannotTellAlive)
                   case Yes => Ok(true)
                   case _ => Ok(false)
    {
      var answer := world.alive(clock, identity);
      clock := clock + 1;
      match answer
      case Yes => r := Ok(true);
      case No => r := Ok(false);
      case Disappeared => r := Ok(false);
      case Unknown =>
        r := Err(CannotTellAlive);
        trouble := Some(CannotTellAlive);
    }

    /** Stops one monitor. Its own failure does not matter once the process is gone; and it is asked to quit exactly
        when it can be told whether the process is alive. */
    method FinishSession(session: Session) returns (r: Result<(), Error>)
      requires Books(Some(session.id)) && session.id < |started| && started[session.id] == session.identity
      requires trouble.None?
      modifies `clock, `finished, `asked, `untold, `asks, `trouble
      ensures Books(None) && finished == old(finished) + [session.id] && Explained(r)
      ensures r == Finishing(world, old(clock), session.identity)
      ensures session.id in asked <==> !world.alive(old(clock), session.identity).Unknown?
      ensures forall id :: id != session.id ==> (id in asked <==> id in old(asked))
      ensures r.Ok? ==> untold == old(untold)
    {
      hide Finishing, Told, Requested, Accounted;
      FinishedAccounted(active, started, finished, session.id);
      NotUntold(finished, asked, untold, session.id);
      ToldNext(world, started, finished, asks, untold, session.id, clock);
      RequestedNext(finished, asked, untold, session.id);
      FinishingSteps(world, clock, session.identity);
      finished, asks := finished + [session.id], asks[session.id := clock];
      untold := untold + {session.id};
      var alive :- IsAlive(session.identity);
      untold := old(untold);
      asked := asked + [session.id];
      var ending := world.ending(clock, session.identity);
      clock := clock + 1;
      match ending
      case Fine => r := Ok(());
      case Gone => r := Ok(());
      case Reused => r := Ok(());
      case Other =>
        r := if alive then Err(MonitorFailed) else Ok(());
        trouble := if alive then Some(MonitorFailed) else None;
    }

    /** Takes a session out of the map and finishes it. */
    method Retire(pid: int) returns (r: Result<(), Error>)
      requires Valid() && pid in active && trouble.None?
      modifies `clock, `finished, `active, `asked, `untold, `asks, `trouble
      ensures Valid() && active == Without(old(active), pid) && finished == old(finished) + [old(active)[pid].id]
      ensures Explained(r)
      ensures r == Finishing(world, old(clock), old(active)[pid].identity)
      ensures old(active)[pid].id in asked <==> !world.alive(old(clock), old(active)[pid].identity).Unknown?
      ensures r.Ok? ==> untold == old(untold)
    {
      hide Finishing, Requested, Told, Remembers, Changes;
      var session := active[pid];
      active := Without(active, pid);
      r := FinishSession(session);
    }

    /** One discovered process: nothing to do if it is the one known under its number, else a new monitor in place of
        any old one. */
    method StartOne(identity: Identity) returns (r: Result<(), Error>)
      requires Valid() && trouble.None?
      modifies this
      ensures Valid() && Explained(r) && SameRounds()
      ensures seen == if r.Ok? then old(seen) + [identity] else old(seen)
      ensures r.Ok? ==> untold == old(untold)
      ensures identity.pid !in old(active) ==> finished == old(finished) && asked == old(asked)
      ensures identity.pid !in old(active) ==>
        (r.Ok? <==>
           || (identity.pid in old(monitored) && old(monitored)[identity.pid] == identity)
           || world.starts(old(clock)))
    {
      hide Accounted, Changes, Latest, Without, Finishing, Requested, Told, Remembers;
      var pid := identity.pid;
      RemembersNext(monitored, seen, identity);
      if (pid in active && active[pid].identity == identity) || (pid in monitored && monitored[pid] == identity) {
        assert monitored[pid := identity] == monitored;
        seen := seen + [identity];
        return Ok(());
      }
      if pid in active {
        var _ :- Retire(pid);
      }
      r := Open(identity);
    }

    /** Starts a monitor for a process that has none. */
    method Open(identity: Identity) returns (r: Result<(), Error>)
      requires Valid() && identity.pid !in active && trouble.None?
      requires identity.pid in monitored ==> monitored[identity.pid] != identity
      modifies `clock, `monitored, `active, `count, `started, `seen, `trouble
      ensures Explained(r)
      ensures Valid() && seen == if r.Ok? then old(seen) + [identity] else old(seen)
      ensures r.Ok? <==> world.starts(old(clock))
    {
      hide Accounted, Changes, Latest, Requested, Told, Remembers, InStep;
      var pid := identity.pid;
      var ok := world.starts(clock);
      clock := clock + 1;
      if !ok {
        trouble := Some(CannotStart);
        return Err(CannotStart);
      }
      RemembersNext(monitored, seen, identity);
      OpensBook(active, started, finished, identity);
      ToldMore(world, started, finished, asks, untold, identity);
      OpenInStep(active, monitored, Session(identity, count));
      monitored := monitored[pid := identity];
      active := active[pid := Session(identity, count)];
      count, started, seen := count + 1, started + [identity], seen + [identity];
      r := Ok(());
    }

    method StartNewMonitors(discovered: seq<Identity>) returns (r: Result<(), Error>)
      requires Valid() && trouble.None?
      modifies this
      ensures Valid() && Explained(r) && SameRounds()
      ensures if r.Ok? then seen == old(seen) + discovered else old(seen) <= seen <= old(seen) + discovered
      ensures r.Ok? ==> untold == old(untold)
      ensures discovered == [] ==> active == old(active)
      ensures discovered != [] && old(active) == map[] && world.starts(old(clock)) ==> |seen| > |old(seen)|
    {
      hide Valid;
      for i := 0 to |discovered|
        invariant Valid() && seen == old(seen) + discovered[..i] && untold == old(untold) && trouble.None?
        invariant SameRounds()
        invariant i == 0 ==> active == old(active) && clock == old(clock)
      {
        var _ :- StartOne(discovered[i]);
        assert discovered[..i + 1] == discovered[..i] + [discovered[i]];
      }
      assert discovered[..|discovered|] == discovered;
      r := Ok(());
    }

    /** Looks at all the sessions, `looked` being when: those that are done or whose process is gone. */
    method FindCompleted() returns (r: Result<seq<int>, Error>, ghost looked: map<int, nat>)
      requires trouble.None?
      modifies `clock, `trouble
      ensures trouble == if r.Err? then Some(r.error) else None
      ensures r.Ok? ==> forall p :: p in active ==> p in looked
      ensures r.Ok? ==> forall p :: p in r.value <==> p in active && Over(world, looked[p], active[p])
    {
      var completed: seq<int> := [];
      var left := active.Keys;
      looked := map[];
      while left != {}
        invariant trouble.None? && forall p :: p in left ==> p in active
        invariant forall p :: p in looked <==> p in active && p !in left
        invariant forall p :: p in completed <==> p in looked && Over(world, looked[p], active[p])
        decreases left
      {
        hide Over;
        EmptyIfNoMember(left);
        var pid :| pid in left;
        var session := active[pid];
        looked := looked[pid := clock];
        left := left - {pid};
        var alive := IsAlive(session.identity);
        if alive.Err? {
          return Err(alive.error), looked;
        }
        OverWhen(world, looked[pid], session);
        if world.done(clock, session.identity) || !alive.value {
          completed := completed + [pid];
        }
      }
      r := Ok(completed);
    }

    /** Finishes the monitors that are done or whose process is gone: first all are looked at, then those found. */
    method ReapFinished() returns (r: Result<(), Error>, ghost looked: map<int, nat>)
      requires Valid() && trouble.None?
      modifies this
      ensures Valid() && seen == old(seen) && Explained(r) && reapings == old(reapings) + 1
      ensures SameWatch()
      ensures r.Ok? ==> forall p :: p in old(active) ==> p in looked
      ensures r.Ok? ==> forall p :: p in active <==> p in old(active) && !Over(world, looked[p], old(active)[p])
      ensures forall p :: p in active ==> p in old(active) && active[p] == old(active)[p]
      ensures r.Ok? ==> untold == old(untold)
    {
      hide Finishing, Valid, Over, Without;
      reapings := reapings + 1;
      var over;
      over, looked := FindCompleted();
      if over.Err? {
        return Err(over.error), looked;
      }
      var completed := over.value;
      for i := 0 to |completed|
        invariant Valid() && seen == old(seen) && untold == old(untold) && trouble.None?
        invariant reapings == old(reapings) + 1
        invariant SameWatch()
        invariant forall p :: p in active <==> p in old(active) && p !in completed[..i]
        invariant forall p :: p in active ==> active[p] == old(active)[p]
      {
        assert completed[..i + 1] == completed[..i] + [completed[i]];
        if completed[i] in active {
          r := Retire(completed[i]);
          if r.Err? {
            return;
          }
        }
      }
      assert completed[..|completed|] == completed;
      r := Ok(());
    }

    method Drain() returns (r: Result<(), Error>)
      requires Valid() && trouble.None?
      modifies `clock, `finished, `active, `asked, `untold, `asks, `trouble
      ensures Valid() && seen == old(seen) && Explained(r)
      ensures r.Ok? ==> active == map[] && untold == old(untold)
    {
      hide Finishing, Valid;
      while active.Keys != {}
        invariant Valid() && seen == old(seen) && untold == old(untold) && trouble.None?
        decreases |active.Keys|
      {
        var keys := active.Keys;
        EmptyIfNoMember(keys);
        var pid :| pid in keys;
        Fewer(active, pid);
        var _ :- Retire(pid);
      }
      assert active.Keys == {};
      r := Ok(());
    }

    method QuitRequested(roundsLeft: nat) returns (quit: bool)
      requires Valid()
      modifies `clock, `polls
      ensures Valid() && polls == old(polls) + [quit]
      ensures quit <==> world.quits(old(clock)) || roundsLeft == 0
    {
      hide Valid;
      quit := world.quits(clock) || roundsLeft == 0;
      clock, polls := clock + 1, polls + [quit];
    }

    method Discover() returns (r: Result<seq<Identity>, Error>)
      requires Valid() && trouble.None?
      modifies `clock, `discoveries, `found, `trouble
      ensures Valid() && clock == old(clock) + 1 && r == world.discovered(old(clock))
      ensures discoveries == old(discoveries) + 1 && found == old(found) + if r.Ok? then r.value else []
      ensures trouble == if r.Err? then Some(r.error) else None
    {
      hide Valid;
      r := world.discovered(clock);
      clock, discoveries := clock + 1, discoveries + 1;
      if r.Ok? {
        found := found + r.value;
      } else {
        trouble := Some(r.error);
      }
    }

    /** The whole run. When it ends well, every monitor that was started has been finished and asked to quit, exactly
        once, and every process found in any round was seen to. However it ends, a monitor was asked to quit exactly
        when it was finished and it could be told, when that was asked, whether its process was alive; so all were
        exactly when none is left and that was so for all. It fails with the first thing that goes wrong, and only
        then, or because a group has no process to begin with. */
    method MonitorProcesses(mode: Mode) returns (r: Result<(), Error>, ghost told: bool)
      requires Valid() && Fresh()
      modifies this
      ensures Valid()
      ensures r.Ok? ==> forall id: nat :: id < |started| ==> multiset(finished)[id] == 1 && multiset(asked)[id] == 1
      ensures forall id: nat :: id < |started| ==> (id in asked <==> id in finished && Answered(id))
      ensures (forall id: nat :: id < |started| ==> id in asked) <==>
              active == map[] && forall id: nat :: id < |started| ==> Answered(id)
      ensures var first := world.discovered(old(clock));
        first.Ok? && first.value != [] && world.starts(old(clock) + 1) ==> started != []
      ensures mode == Group && world.discovered(old(clock)) == Ok([]) ==> r == Err(CannotDiscover) && started == []
      ensures r.Ok? ==> seen == found && InRounds(mode, told, 1, 0, 0, 0)
      ensures Explained(r) || (trouble.None? && mode == Group && found == [] && r == Err(CannotDiscover))
    {
      r, told := RunAndDrain(mode);
      AskedIff(world, active, started, finished, asked, untold, asks);
      if r.Ok? {
        AllFinished(active, started, finished);
        AllAsked(started, finished, asked, untold);
      }
    }

    /** It was asked whether the session's process was alive, and could be told. */
    ghost predicate Answered(id: nat)
      requires id < |started|
      reads this
    {
      id in asks && !world.alive(asks[id], started[id]).Unknown?
    }

    /** How often a round has reaped and, unless a single process is monitored, looked for new ones, since there had
        been so many discoveries, reapings and polls. A round asks whether to quit at its beginning and at its end, and
        the first answer that says so is the last. `told` is whether there was one; if not, the last round, and none
        before, has left nothing to watch. */
    ghost predicate InRounds(mode: Mode, told: bool, discovered: nat, reaped: nat, left: nat, polled: nat)
      reads `discoveries, `reapings, `exhausted, `polls
    {
      && polled <= |polls|
      && var asked := |polls| - polled;
      && asked > 0
      && reapings == reaped + (if told then asked / 2 else (asked + 1) / 2)
      && discoveries == discovered + (if mode == One then 0 else reapings - reaped)
      && (forall i :: polled <= i < |polls| - 1 ==> !polls[i]) && polls[|polls| - 1] == told
      && exhausted == left + (if told then 0 else 1) && (told || mode != Named)
    }

    method RunAndDrain(mode: Mode) returns (r: Result<(), Error>, ghost told: bool)
      requires Valid() && Fresh()
      modifies this
      ensures Valid()
      ensures r.Ok? ==> active == map[] && untold == {}
      ensures var first := world.discovered(old(clock));
        first.Ok? && first.value != [] && world.starts(old(clock) + 1) ==> started != []
      ensures mode == Group && world.discovered(old(clock)) == Ok([]) ==> r == Err(CannotDiscover) && started == []
      ensures r.Ok? ==> seen == found && InRounds(mode, told, 1, 0, 0, 0)
      ensures Explained(r) || (trouble.None? && mode == Group && found == [] && r == Err(CannotDiscover))
    {
      hide Valid, InRounds, Changes;
      told := false;
      var initial :- Discover();
      if mode == Group && initial == [] {
        r := Err(CannotDiscover);
        return;
      }
      r := StartNewMonitors(initial);
      ghost var begun := seen;
      if r.Ok? {
        r, told := RunUntilQuit(mode);
      }
      if r.Ok? {
        r := Drain();
      }
      if begun != [] {
        FirstStarted(seen);
        StartedChanges();
      }
    }

    lemma StartedChanges()
      requires Valid()
      ensures started == Changes(seen)
    {
    }

    /** One round: finishes what is over and starts what is new, unless a single process is monitored; then the result
        says whether nothing is left to watch. */
    method Round(mode: Mode) returns (r: Result<bool, Error>)
      requires Valid() && seen == found && trouble.None?
      modifies this
      ensures Valid() && old(seen) <= seen && polls == old(polls)
      ensures trouble == if r.Err? then Some(r.error) else None
      ensures r.Ok? ==> seen == found && untold == old(untold)
      ensures r.Ok? ==> reapings == old(reapings) + 1
      ensures r.Ok? ==> exhausted == old(exhausted) + if r.value then 1 else 0
      ensures r.Ok? ==> discoveries == old(discoveries) + if mode == One then 0 else 1
      ensures r.Ok? ==> (r.value <==> mode != Named && active == map[])
    {
      hide Valid;
      var reaped, _ := ReapFinished();
      if reaped.Err? {
        return Err(reaped.error);
      }
      if mode == One && active == map[] {
        exhausted := exhausted + 1;
        return Ok(true);
      }
      var discovered: seq<Identity> := [];
      if mode != One {
        discovered :- Discover();
      }
      var _ :- StartNewMonitors(discovered);
      r := Ok(mode == Group && active == map[]);
      exhausted := exhausted + if r.value then 1 else 0;
    }

    /** Watches until asked to quit, or, unless it waits for processes by name, until there is nothing left to watch. */
    method RunUntilQuit(mode: Mode) returns (r: Result<(), Error>, ghost told: bool)
      requires Valid() && seen == found && trouble.None?
      modifies this
      ensures Valid() && old(seen) <= seen && Explained(r)
      ensures r.Ok? ==> untold == old(untold) && seen == found
      ensures r.Ok? ==> told || active == map[]
      ensures r.Ok? ==> InRounds(mode, told, old(discoveries), old(reapings), old(exhausted), |old(polls)|)
    {
      hide Valid;
      told := false;
      var roundsLeft := world.horizon;
      ghost var rounds := 0;
      while true
        invariant Valid() && untold == old(untold) && old(seen) <= seen && seen == found && trouble.None?
        invariant |polls| == |old(polls)| + 2 * rounds && reapings == old(reapings) + rounds
        invariant exhausted == old(exhausted) && forall i :: |old(polls)| <= i < |polls| ==> !polls[i]
        invariant discoveries == old(discoveries) + if mode == One then 0 else rounds
        decreases roundsLeft
      {
        var quit := QuitRequested(roundsLeft);
        if quit {
          told := true;
          break;
        }
        roundsLeft := roundsLeft - 1;
        var over := Round(mode);
        if over.Err? {
          return Err(over.error), told;
        }
        if over.value {
          break;
        }
        quit := QuitRequested(roundsLeft);
        if quit {
          told := true;
          break;
        }
        rounds := rounds + 1;
      }
      r := Ok(());
    }
  }

  lemma RemembersNext(monitored: map<int, Identity>, seen: seq<Identity>, x: Identity)
    requires Remembers(monitored, seen)
    ensures Remembers(monitored[x.pid := x], seen + [x])
    ensures Changes(seen + [x]) == Changes(seen) + if x.pid in monitored && monitored[x.pid] == x then [] else [x]
  {
    var next := seen + [x];
    assert next[..|seen|] == seen;
  }

  lemma OpenInStep(active: map<int, Session>, monitored: map<int, Identity>, session: Session)
    requires InStep(active, monitored)
    ensures var pid := session.identity.pid; InStep(active[pid := session], monitored[pid := session.identity])
  {
  }

  /** Starting a monitor for a number that has none keeps the books. */
  lemma OpensBook(active: map<int, Session>, started: seq<Identity>, finished: seq<nat>, x: Identity)
    requires Accounted(active, started, finished, None) && x.pid !in active
    ensures Accounted(active[x.pid := Session(x, |started|)], started + [x], finished, None)
  {
    var now, all := active[x.pid := Session(x, |started|)], started + [x];
    forall id: nat | id < |all|
      ensures id in finished <==> !IsActive(now, all, id)
    {
      assert id < |started| ==> all[id] == started[id] && IsActive(now, all, id) == IsActive(active, started, id);
    }
  }

  lemma EmptyIfNoMember(s: set<int>)
    ensures (forall x :: x !in s) ==> s == {}
  {
    if forall x :: x !in s {
      assert s == {};
    }
  }

  lemma Fewer(active: map<int, Session>, pid: int)
    requires pid in active
    ensures |Without(active, pid).Keys| < |active.Keys|
  {
    assert Without(active, pid).Keys == active.Keys - {pid};
  }

  lemma AllFinished(active: map<int, Session>, started: seq<Identity>, finished: seq<nat>)
    requires active == map[] && Accounted(active, started, finished, None)
    ensures forall id: nat :: id < |started| ==> multiset(finished)[id] == 1
  {
    forall id: nat | id < |started| ensures multiset(finished)[id] == 1 {
      assert !IsActive(active, started, id);
      CountOnce(finished, id);
    }
  }

  lemma AllAsked(started: seq<Identity>, finished: seq<nat>, asked: seq<nat>, untold: set<nat>)
    requires Requested(finished, asked, untold) && untold == {}
    requires forall id: nat :: id < |started| ==> multiset(finished)[id] == 1
    ensures forall id: nat :: id < |started| ==> multiset(asked)[id] == 1
  {
    forall id: nat | id < |started| ensures multiset(asked)[id] == 1 {
      assert id in multiset(finished);
      assert id in finished && id in asked;
      CountOnce(asked, id);
    }
  }

  lemma ActiveUnasked(active: map<int, Session>, started: seq<Identity>, finished: seq<nat>, asked: seq<nat>,
                      untold: set<nat>, pid: int)
    requires Accounted(active, started, finished, None) && Requested(finished, asked, untold) && pid in active
    ensures active[pid].id < |started| && active[pid].id !in asked
  {
    assert IsActive(active, started, active[pid].id);
  }

  lemma AskedIff(w: World, active: map<int, Session>, started: seq<Identity>, finished: seq<nat>, asked: seq<nat>,
                 untold: set<nat>, asks: map<nat, nat>)
    requires Accounted(active, started, finished, None) && Requested(finished, asked, untold)
    requires Told(w, started, finished, asks, untold)
    ensures forall id: nat :: id < |started| ==>
      (id in asked <==> id in finished && id in asks && !w.alive(asks[id], started[id]).Unknown?)
    ensures (forall id: nat :: id < |started| ==> id in asked) <==>
            active == map[] &&
            forall id: nat :: id < |started| ==> id in asks && !w.alive(asks[id], started[id]).Unknown?
  {
    if forall id: nat :: id < |started| ==> id in asked {
      forall p ensures p !in active {
        if p in active {
          ActiveUnasked(active, started, finished, asked, untold, p);
        }
      }
      assert active.Keys == {};
    }
    if active == map[] {
      forall id: nat | id < |started| ensures id in finished {
        assert !IsActive(active, started, id);
      }
    }
  }

  lemma {:induction false} FirstStarted(seen: seq<Identity>)
    requires seen != []
    ensures Changes(seen) != [] && Changes(seen)[0] == seen[0]
  {
    if |seen| > 1 {
      FirstStarted(seen[..|seen| - 1]);
    }
  }

  lemma AskedStarted(active: map<int, Session>, started: seq<Identity>, finished: seq<nat>, asked: seq<nat>,
                     untold: set<nat>)
    requires Accounted(active, started, finished, None) && Requested(finished, asked, untold)
    ensures forall id :: id in asked ==> id < |started|
  {
  }

  lemma EmptyIfNone(s: seq<nat>)
    ensures (forall x :: x !in s) ==> s == []
  {
    if s != [] {
      assert s[0] in s;
    }
  }

  /** A world in which there is one process to be found, and it can never be told whether it is alive. */
  function Blind(identity: Identity): World {
    World((_, _) => Unknown, (_, _) => Fine, (_, _) => false, _ => true, _ => Ok([identity]), _ => true, 0)
  }

  /** In such a world a run starts a monitor and never asks any to quit. */
  method DroppedUnasked(identity: Identity, mode: Mode) returns (o: Orchestrator, r: Result<(), Error>)
    ensures o.world == Blind(identity) && o.started != [] && o.asked == [] && r.Err?
  {
    o := new Orchestrator(Blind(identity));
    ghost var told;
    r, told := o.MonitorProcesses(mode);
    AskedStarted(o.active, o.started, o.finished, o.asked, o.untold);
    EmptyIfNone(o.asked);
    assert o.asked == [] && 0 < |o.started|;
    assert multiset(o.asked)[0] == 0;
  }
}
