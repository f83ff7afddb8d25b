/** The dump gate, the cancellation flag and the bounded dump counter, under every interleaving. */
module DumpProtocol {
  import opened Bytes

  type Tid = int

  /** How a call of `write` or `record_external_dump` ends. */
  datatype Answer = Recorded | Nothing | Failure

  /** Where a thread is that holds no permit. `external` tells `record_external_dump` from `write`. */
  datatype Approach =
    | CheckLimit
    | CheckQuit
    | WantGate(external: bool)
    | HoldGate(external: bool)
    | GateBusy(external: bool)
    | GateFree(external: bool)
    | TakePermit(external: bool)
    | OutsideCancel
    | OutsideQuit

  /** Where a thread is that holds the permit. */
  datatype Permit =
    | Recheck(external: bool)
    | RecheckQuit
    | Primary
    | Sidecar(dumped: bool)
    | Count(dumped: bool)
    | Compare(number: nat)
    | Cancel
    | SetQuit
    | WantRelease(answer: Answer)
    | Release(answer: Answer)

  datatype Pc = Outside(at: Approach) | Inside(step: Permit)

  /** The dump limit, whether a sidecar exists, and whether it asks for a primary dump. */
  datatype Settings = Settings(limit: u32, sidecar: bool, primary: bool)

  /** What the threads share. `holder` is the thread that owns the permit value. */
  datatype Shared = Shared(cancelled: bool, quit: bool, active: bool, gate: Option<Tid>, holder: Option<Tid>,
                           tally: Tally)

  /** `collected` is the program's counter. For the record: `dumps` counts successful primary dumps,
      `counted` those that reached the counter, `orphaned` those whose sidecar then failed, and
      `reported` the permits dropped by calls that had recorded a dump. */
  datatype Tally = Tally(collected: u32, dumps: nat, counted: nat, orphaned: nat, reported: nat)

  datatype State = State(shared: Shared, pcs: map<Tid, Pc>)

  const START := State(Shared(false, false, false, None, None, Tally(0, 0, 0, 0, 0)), map[])

  datatype Action =
    | Write(tid: Tid)
    | RecordExternal(tid: Tid)
    | RequestQuit(tid: Tid)
    | Step(tid: Tid, ok: bool)

  function PcOf(s: State, t: Tid): Option<Pc> {
    if t in s.pcs then Some(s.pcs[t]) else None
  }

  /** Only the two points that lock the gate's mutex can block. */
  predicate Blocked(m: Shared, pc: Pc) {
    m.gate.Some? && ((pc.Outside? && pc.at.WantGate?) || (pc.Inside? && pc.step.WantRelease?))
  }

  predicate Enabled(s: State, a: Action) {
    match a
    case Step(tid, _) => tid in s.pcs && !Blocked(s.shared, s.pcs[tid])
    case _ => a.tid !in s.pcs
  }

  /** The shared state after one step of a thread, and where the thread goes; no place when it returns. */
  datatype Move = Move(shared: Shared, pc: Option<Pc>)

  function ToOutside(m: Shared, at: Approach): Move {
    Move(m, Some(Outside(at)))
  }

  function ToInside(m: Shared, step: Permit): Move {
    Move(m, Some(Inside(step)))
  }

  function Approached(c: Settings, m: Shared, tid: Tid, at: Approach): Move {
    match at
    case CheckLimit => if m.tally.collected >= c.limit then Move(m, None) else ToOutside(m, CheckQuit)
    case CheckQuit => if m.cancelled then Move(m, None) else ToOutside(m, WantGate(false))
    case WantGate(e) => ToOutside(m.(gate := Some(tid)), HoldGate(e))
    case HoldGate(e) => ToOutside(m, if m.active then GateBusy(e) else GateFree(e))
    case GateBusy(e) =>
      if m.cancelled then Move(m.(gate := None), None) else ToOutside(m.(gate := None), WantGate(e))
    case GateFree(e) =>
      if m.cancelled then Move(m.(gate := None), None) else ToOutside(m, TakePermit(e))
    case TakePermit(e) => ToInside(m.(gate := None, active := true, holder := Some(tid)), Recheck(e))
    case OutsideCancel => ToOutside(m.(cancelled := true), OutsideQuit)
    case OutsideQuit => Move(m.(quit := true), None)
  }

  function Permitted(c: Settings, m: Shared, tid: Tid, step: Permit, ok: bool): Move {
    var tally := m.tally;
    match step
    case Recheck(e) =>
      ToInside(m, if tally.collected >= c.limit then WantRelease(Nothing) else if e then Count(false) else RecheckQuit)
    case RecheckQuit => ToInside(m, if m.cancelled then WantRelease(Nothing) else Primary)
    case Primary =>
      if c.sidecar && !c.primary then ToInside(m, Sidecar(false))
      else if ok then ToInside(m.(tally := tally.(dumps := tally.dumps + 1)), Sidecar(true))
      else ToInside(m, WantRelease(Failure))
    case Sidecar(dumped) =>
      if !c.sidecar || ok then ToInside(m, Count(dumped))
      else ToInside(m.(tally := tally.(orphaned := tally.orphaned + One(dumped))), WantRelease(Failure))
    case Count(dumped) =>
      ToInside(m.(tally := tally.(collected := (tally.collected + 1) % U32_LIMIT,
                                  counted := tally.counted + One(dumped))),
               Compare(tally.collected))
    case Compare(number) => ToInside(m, if number + 1 >= c.limit then Cancel else WantRelease(Recorded))
    case Cancel => ToInside(m.(cancelled := true), SetQuit)
    case SetQuit => ToInside(m.(quit := true), WantRelease(Recorded))
    case WantRelease(answer) => ToInside(m.(gate := Some(tid)), Release(answer))
    case Release(answer) =>
      Move(m.(gate := None, active := false, holder := None,
              tally := tally.(reported := tally.reported + One(answer.Recorded?))), None)
  }

  function Moved(c: Settings, m: Shared, tid: Tid, pc: Pc, ok: bool): Move {
    match pc
    case Outside(at) => Approached(c, m, tid, at)
    case Inside(step) => Permitted(c, m, tid, step, ok)
  }

  function Entered(a: Action): Approach
    requires !a.Step?
  {
    match a
    case Write(_) => CheckLimit
    case RecordExternal(_) => WantGate(true)
    case RequestQuit(_) => OutsideCancel
  }

  function MoveOf(c: Settings, s: State, a: Action): Move
    requires Enabled(s, a)
  {
    match a
    case Step(tid, ok) => Moved(c, s.shared, tid, s.pcs[tid], ok)
    case _ => ToOutside(s.shared, Entered(a))
  }

  function Next(c: Settings, s: State, a: Action): State
    requires Enabled(s, a)
  {
    var move := MoveOf(c, s, a);
    State(move.shared, if move.pc.Some? then s.pcs[a.tid := move.pc.value] else s.pcs - {a.tid})
  }

  // ----- the invariant

  predicate HoldsGate(pc: Option<Pc>) {
    pc.Some? &&
    match pc.value
    case Outside(at) => at.HoldGate? || at.GateBusy? || at.GateFree? || at.TakePermit?
    case Inside(step) => step.Release?
  }

  predicate HoldsPermit(pc: Option<Pc>) {
    pc.Some? && pc.value.Inside?
  }

  /** The gate mutex is held and was seen free of a permit. */
  predicate SawFree(pc: Option<Pc>) {
    pc.Some? && pc.value.Outside? && (pc.value.at.GateFree? || pc.value.at.TakePermit?)
  }

  predicate Cancelling(pc: Option<Pc>) {
    pc == Some(Inside(SetQuit)) || pc == Some(Outside(OutsideQuit))
  }

  /** The holder has checked the limit and not yet counted its dump. */
  predicate MayCount(step: Permit) {
    step.RecheckQuit? || step.Primary? || step.Sidecar? || step.Count?
  }

  /** The holder has counted its dump and not yet dropped the permit. */
  predicate HasCounted(step: Permit) {
    step.Compare? || step.Cancel? || step.SetQuit? || step == WantRelease(Recorded) || step == Release(Recorded)
  }

  predicate HasDumped(step: Permit) {
    (step.Sidecar? || step.Count?) && step.dumped
  }

  function One(b: bool): nat {
    if b then 1 else 0
  }

  ghost predicate Ownership(s: State) {
    && (forall t :: HoldsGate(PcOf(s, t)) <==> s.shared.gate == Some(t))
    && (forall t :: HoldsPermit(PcOf(s, t)) <==> s.shared.holder == Some(t))
    && (s.shared.active <==> s.shared.holder.Some?)
    && (forall t :: SawFree(PcOf(s, t)) ==> !s.shared.active)
  }

  ghost predicate Flags(s: State) {
    && (s.shared.quit ==> s.shared.cancelled)
    && (forall t :: Cancelling(PcOf(s, t)) ==> s.shared.cancelled)
  }

  /** The counters, while the permit is held at `step`. */
  predicate CountersInside(c: Settings, m: Shared, step: Permit) {
    && m.tally.collected <= c.limit
    && (MayCount(step) ==> m.tally.collected < c.limit)
    && (step.Compare? ==> step.number + 1 == m.tally.collected)
    && (m.tally.collected >= c.limit > 0 ==> m.cancelled || step.Compare? || step.Cancel?)
    && m.tally.collected == m.tally.reported + One(HasCounted(step))
    && m.tally.counted <= m.tally.collected
    && m.tally.dumps == m.tally.counted + m.tally.orphaned + One(HasDumped(step))
  }

  /** The counters, while nobody holds the permit. */
  predicate CountersOutside(c: Settings, m: Shared) {
    && m.tally.collected <= c.limit
    && (m.tally.collected >= c.limit > 0 ==> m.cancelled)
    && m.tally.collected == m.tally.reported
    && m.tally.counted <= m.tally.collected
    && m.tally.dumps == m.tally.counted + m.tally.orphaned
  }

  ghost predicate Counters(c: Settings, s: State) {
    && (s.shared.holder.None? ==> CountersOutside(c, s.shared))
    && (forall t :: HoldsPermit(PcOf(s, t)) ==> CountersInside(c, s.shared, s.pcs[t].step))
  }

  ghost predicate Inv(c: Settings, s: State) {
    Ownership(s) && Flags(s) && Counters(c, s)
  }

  lemma StartInv(c: Settings)
    ensures Inv(c, START)
  {
  }

  // ----- what one step changes

  lemma OthersStay(c: Settings, s: State, a: Action, t: Tid)
    requires Enabled(s, a)
    ensures PcOf(Next(c, s, a), t) == if t == a.tid then MoveOf(c, s, a).pc else PcOf(s, t)
  {
  }

  lemma OwnershipMoves(c: Settings, s: State, a: Action)
    requires Ownership(s) && Enabled(s, a)
    ensures var m, v, pc := s.shared, MoveOf(c, s, a).shared, MoveOf(c, s, a).pc;
      && (if HoldsGate(pc) then v.gate == Some(a.tid) && (m.gate == v.gate || m.gate == None)
          else if m.gate == Some(a.tid) then v.gate == None else v.gate == m.gate)
      && (if HoldsPermit(pc) then
            v.holder == Some(a.tid) && (m.holder == v.holder || (m.holder == None && m.gate == Some(a.tid)))
          else if m.holder == Some(a.tid) then v.holder == None else v.holder == m.holder)
      && (v.active <==> v.holder.Some?)
      && (SawFree(pc) ==> !v.active)
  {
    assert HoldsGate(PcOf(s, a.tid)) <==> s.shared.gate == Some(a.tid);
    assert HoldsPermit(PcOf(s, a.tid)) <==> s.shared.holder == Some(a.tid);
    assert SawFree(PcOf(s, a.tid)) ==> !s.shared.active;
  }

  lemma OwnershipKept(c: Settings, s: State, a: Action)
    requires Ownership(s) && Enabled(s, a)
    ensures Ownership(Next(c, s, a))
  {
    var v := Next(c, s, a);
    OwnershipMoves(c, s, a);
    forall t ensures HoldsGate(PcOf(v, t)) <==> v.shared.gate == Some(t) {
      OthersStay(c, s, a, t);
    }
    forall t ensures HoldsPermit(PcOf(v, t)) <==> v.shared.holder == Some(t) {
      OthersStay(c, s, a, t);
    }
    forall t | SawFree(PcOf(v, t)) ensures !v.shared.active {
      OthersStay(c, s, a, t);
      if t != a.tid {
        assert s.shared.gate == Some(t);
      }
    }
  }

  lemma FlagsKept(c: Settings, s: State, a: Action)
    requires Flags(s) && Enabled(s, a)
    ensures Flags(Next(c, s, a))
    ensures s.shared.cancelled ==> Next(c, s, a).shared.cancelled
  {
    var v := Next(c, s, a);
    assert Cancelling(PcOf(s, a.tid)) ==> s.shared.cancelled;
    forall t | Cancelling(PcOf(v, t)) ensures v.shared.cancelled {
      OthersStay(c, s, a, t);
    }
  }

  lemma OutsidersCountNothing(c: Settings, m: Shared, tid: Tid, at: Approach)
    ensures var v := Approached(c, m, tid, at);
      && v.shared.tally == m.tally
      && (m.cancelled ==> v.shared.cancelled)
      && (HoldsPermit(v.pc) ==> v.pc.value.step.Recheck?)
  {
  }

  lemma HolderCounts(c: Settings, m: Shared, tid: Tid, step: Permit, ok: bool)
    requires CountersInside(c, m, step) && (step.SetQuit? ==> m.cancelled)
    ensures var v := Permitted(c, m, tid, step, ok);
      if v.pc.Some? then v.pc.value.Inside? && CountersInside(c, v.shared, v.pc.value.step)
      else CountersOutside(c, v.shared)
  {
  }

  lemma CountersKept(c: Settings, s: State, a: Action)
    requires Inv(c, s) && Enabled(s, a)
    ensures Counters(c, Next(c, s, a))
  {
    var v := Next(c, s, a);
    OwnershipMoves(c, s, a);
    OwnershipKept(c, s, a);
    if s.shared.holder == Some(a.tid) {
      assert HoldsPermit(PcOf(s, a.tid)) && (Cancelling(PcOf(s, a.tid)) ==> s.shared.cancelled);
      HolderCounts(c, s.shared, a.tid, s.pcs[a.tid].step, a.ok);
    } else if a.Step? {
      assert !HoldsPermit(PcOf(s, a.tid));
      OutsidersCountNothing(c, s.shared, a.tid, s.pcs[a.tid].at);
    }
    forall t | HoldsPermit(PcOf(v, t)) ensures CountersInside(c, v.shared, v.pcs[t].step) {
      OthersStay(c, s, a, t);
      assert v.shared.holder == Some(t);
    }
  }

  lemma StepKeeps(c: Settings, s: State, a: Action)
    requires Inv(c, s) && Enabled(s, a)
    ensures Inv(c, Next(c, s, a))
  {
    OwnershipKept(c, s, a);
    FlagsKept(c, s, a);
    CountersKept(c, s, a);
  }

  // ----- whole runs

  predicate Runs(c: Settings, s: State, actions: seq<Action>)
    decreases |actions|
  {
    actions == [] || (Enabled(s, actions[0]) && Runs(c, Next(c, s, actions[0]), actions[1..]))
  }

  function After(c: Settings, s: State, actions: seq<Action>): State
    requires Runs(c, s, actions)
    decreases |actions|
  {
    if actions == [] then s else After(c, Next(c, s, actions[0]), actions[1..])
  }

  lemma {:induction false} RunKeeps(c: Settings, s: State, actions: seq<Action>)
    requires Inv(c, s) && Runs(c, s, actions)
    ensures Inv(c, After(c, s, actions))
    ensures s.shared.cancelled ==> After(c, s, actions).shared.cancelled
    decreases |actions|
  {
    if actions != [] {
      StepKeeps(c, s, actions[0]);
      FlagsKept(c, s, actions[0]);
      RunKeeps(c, Next(c, s, actions[0]), actions[1..]);
    }
  }

  /** The thread runs with the permit: it is between taking it and dropping it. */
  predicate Holds(s: State, t: Tid) {
    HoldsPermit(PcOf(s, t))
  }

  /** In every state of every run of any number of threads: one permit, a counter that never passes the
      limit, quitting only when cancelled, cancellation once the limit is reached and the permit
      dropped, and no more primary dumps than the limit plus those whose sidecar failed. */
  lemma DumpsAreBounded(c: Settings, actions: seq<Action>)
    requires Runs(c, START, actions)
    ensures var s := After(c, START, actions);
      var tally := s.shared.tally;
      && (forall t, u :: Holds(s, t) && Holds(s, u) ==> t == u)
      && (s.shared.active <==> exists t :: Holds(s, t))
      && tally.collected <= c.limit
      && (s.shared.quit ==> s.shared.cancelled)
      && (!s.shared.active && tally.collected >= c.limit > 0 ==> s.shared.cancelled)
      && tally.dumps <= c.limit + tally.orphaned
      && (!s.shared.active ==> tally.collected == tally.reported)
  {
    StartInv(c);
    RunKeeps(c, START, actions);
    var s := After(c, START, actions);
    if s.shared.holder.Some? {
      var h := s.shared.holder.value;
      assert Holds(s, h);
      assert CountersInside(c, s.shared, s.pcs[h].step);
    } else {
      assert forall t :: !Holds(s, t);
    }
  }

  /** The program's 32-bit counter never wraps. */
  lemma CounterNeverWraps(c: Settings, actions: seq<Action>, tid: Tid)
    requires Runs(c, START, actions)
    requires var s := After(c, START, actions); tid in s.pcs && s.pcs[tid].Inside? && s.pcs[tid].step.Count?
    ensures var s := After(c, START, actions);
      Next(c, s, Step(tid, true)).shared.tally.collected == s.shared.tally.collected + 1 <= c.limit
  {
    StartInv(c);
    RunKeeps(c, START, actions);
    var s := After(c, START, actions);
    assert HoldsPermit(PcOf(s, tid));
  }

  // ----- after cancellation

  /** The thread can still record a dump although cancellation has been requested. */
  predicate Committed(pc: Option<Pc>) {
    pc.Some? &&
    match pc.value
    case Outside(at) => at == TakePermit(true)
    case Inside(step) => step == Recheck(true) || step.Primary? || step.Sidecar? || step.Count?
  }

  predicate StillToDump(pc: Option<Pc>) {
    pc == Some(Inside(Primary))
  }

  ghost predicate AnyCommitted(s: State) {
    exists t :: Committed(PcOf(s, t))
  }

  ghost function Ahead(s: State): nat {
    if AnyCommitted(s) then 1 else 0
  }

  ghost function DumpsAhead(s: State): nat {
    if exists t :: StillToDump(PcOf(s, t)) then 1 else 0
  }

  lemma OneCommitted(s: State, t: Tid, u: Tid)
    requires Ownership(s) && Committed(PcOf(s, t)) && Committed(PcOf(s, u))
    ensures t == u
  {
    if PcOf(s, t).value.Outside? {
      assert SawFree(PcOf(s, t)) && HoldsGate(PcOf(s, t));
    }
    if PcOf(s, u).value.Outside? {
      assert SawFree(PcOf(s, u)) && HoldsGate(PcOf(s, u));
    }
    assert HoldsPermit(PcOf(s, t)) ==> s.shared.holder == Some(t);
    assert HoldsPermit(PcOf(s, u)) ==> s.shared.holder == Some(u);
  }

  lemma CancelledMove(c: Settings, s: State, a: Action)
    requires Inv(c, s) && Enabled(s, a) && s.shared.cancelled
    ensures var before, move := PcOf(s, a.tid), MoveOf(c, s, a);
      && (Committed(move.pc) ==> Committed(before))
      && (StillToDump(move.pc) ==> StillToDump(before))
      && move.shared.tally.collected + One(Committed(move.pc)) <= s.shared.tally.collected + One(Committed(before))
      && move.shared.tally.dumps + One(StillToDump(move.pc)) <= s.shared.tally.dumps + One(StillToDump(before))
  {
    assert forall t :: HoldsPermit(PcOf(s, t)) ==> CountersInside(c, s.shared, s.pcs[t].step);
  }

  lemma CancelledStep(c: Settings, s: State, a: Action)
    requires Inv(c, s) && Enabled(s, a) && s.shared.cancelled
    ensures var v := Next(c, s, a);
      && v.shared.tally.collected + Ahead(v) <= s.shared.tally.collected + Ahead(s)
      && v.shared.tally.dumps + DumpsAhead(v) <= s.shared.tally.dumps + DumpsAhead(s)
  {
    var v := Next(c, s, a);
    CancelledMove(c, s, a);
    OthersStay(c, s, a, a.tid);
    if AnyCommitted(v) {
      var t :| Committed(PcOf(v, t));
      OthersStay(c, s, a, t);
      assert Committed(PcOf(s, t));
      if t != a.tid && Committed(PcOf(s, a.tid)) {
        OneCommitted(s, t, a.tid);
      }
    }
    if t :| StillToDump(PcOf(v, t)) {
      OthersStay(c, s, a, t);
      assert StillToDump(PcOf(s, t));
      if t != a.tid && StillToDump(PcOf(s, a.tid)) {
        OneCommitted(s, t, a.tid);
      }
    }
  }

  lemma {:induction false} CancelledRun(c: Settings, s: State, actions: seq<Action>)
    requires Inv(c, s) && Runs(c, s, actions) && s.shared.cancelled
    ensures var v := After(c, s, actions);
      && v.shared.tally.collected + Ahead(v) <= s.shared.tally.collected + Ahead(s)
      && v.shared.tally.dumps + DumpsAhead(v) <= s.shared.tally.dumps + DumpsAhead(s)
    decreases |actions|
  {
    if actions != [] {
      CancelledStep(c, s, actions[0]);
      StepKeeps(c, s, actions[0]);
      FlagsKept(c, s, actions[0]);
      CancelledRun(c, Next(c, s, actions[0]), actions[1..]);
    }
  }

  /** From any point of a run at which quitting has been requested, whatever the threads do next,
      at most one more primary dump succeeds and at most one more dump is counted. */
  lemma AtMostOneAfterCancellation(c: Settings, before: seq<Action>, later: seq<Action>)
    requires Runs(c, START, before) && After(c, START, before).shared.cancelled
    requires Runs(c, After(c, START, before), later)
    ensures var s, v := After(c, START, before), After(c, After(c, START, before), later);
      && v.shared.cancelled
      && v.shared.tally.dumps <= s.shared.tally.dumps + 1
      && v.shared.tally.collected <= s.shared.tally.collected + 1
  {
    StartInv(c);
    RunKeeps(c, START, before);
    RunKeeps(c, After(c, START, before), later);
    CancelledRun(c, After(c, START, before), later);
  }

  // ----- progress

  /** While any call is in progress, some thread can take a step. */
  lemma NeverStuck(c: Settings, actions: seq<Action>, tid: Tid)
    requires Runs(c, START, actions) && tid in After(c, START, actions).pcs
    ensures exists t :: Enabled(After(c, START, actions), Step(t, true))
  {
    StartInv(c);
    RunKeeps(c, START, actions);
    var s := After(c, START, actions);
    if s.shared.gate.Some? {
      var h := s.shared.gate.value;
      assert HoldsGate(PcOf(s, h));
      assert Enabled(s, Step(h, true));
    } else {
      assert Enabled(s, Step(tid, true));
    }
  }

  // ----- cancelled no earlier than at the limit

  /** Nobody asks to quit from outside. */
  predicate Unasked(actions: seq<Action>) {
    forall i :: 0 <= i < |actions| ==> !actions[i].RequestQuit?
  }

  predicate AsksToQuit(pc: Option<Pc>) {
    pc == Some(Outside(OutsideCancel)) || pc == Some(Outside(OutsideQuit))
  }

  /** Whoever is about to cancel has counted the last dump. */
  ghost predicate Earned(c: Settings, s: State) {
    && (s.shared.cancelled ==> s.shared.tally.collected >= c.limit)
    && (forall t :: !AsksToQuit(PcOf(s, t)))
    && (forall t :: PcOf(s, t) == Some(Inside(Cancel)) ==> s.shared.tally.collected >= c.limit)
  }

  lemma CollectedGrows(c: Settings, s: State, a: Action)
    requires Inv(c, s) && Enabled(s, a)
    ensures Next(c, s, a).shared.tally.collected >= s.shared.tally.collected
  {
    hide Ownership, Flags;
    if a.Step? && s.pcs[a.tid].Inside? {
      assert HoldsPermit(PcOf(s, a.tid));
    }
  }

  lemma EarnedKept(c: Settings, s: State, a: Action)
    requires Inv(c, s) && Earned(c, s) && Enabled(s, a) && !a.RequestQuit?
    ensures Earned(c, Next(c, s, a))
  {
    var v := Next(c, s, a);
    CollectedGrows(c, s, a);
    EarnedMove(c, s, a);
    forall t ensures !AsksToQuit(PcOf(v, t)) {
      OthersStay(c, s, a, t);
    }
    forall t | PcOf(v, t) == Some(Inside(Cancel)) ensures v.shared.tally.collected >= c.limit {
      OthersStay(c, s, a, t);
    }
  }

  lemma EarnedMove(c: Settings, s: State, a: Action)
    requires Inv(c, s) && Earned(c, s) && Enabled(s, a) && !a.RequestQuit?
    ensures var move := MoveOf(c, s, a);
      && (move.shared.cancelled ==> s.shared.cancelled || move.shared.tally.collected >= c.limit)
      && !AsksToQuit(move.pc)
      && (move.pc == Some(Inside(Cancel)) ==> move.shared.tally.collected >= c.limit)
  {
    hide Ownership, Flags;
    assert !AsksToQuit(PcOf(s, a.tid));
    if a.Step? && s.pcs[a.tid].Inside? {
      assert HoldsPermit(PcOf(s, a.tid));
    }
  }

  lemma {:induction false} EarnedThroughout(c: Settings, s: State, actions: seq<Action>)
    requires Inv(c, s) && Earned(c, s) && Runs(c, s, actions) && Unasked(actions)
    ensures Earned(c, After(c, s, actions))
    decreases |actions|
  {
    hide Earned, Inv, Next, Enabled;
    if actions != [] {
      EarnedKept(c, s, actions[0]);
      StepKeeps(c, s, actions[0]);
      EarnedThroughout(c, Next(c, s, actions[0]), actions[1..]);
    }
  }

  /** Unless somebody asks to quit, no run is cancelled before the limit is reached; and between permits it is
      cancelled exactly when it is. */
  lemma CancelledIffLimitReached(c: Settings, actions: seq<Action>)
    requires Runs(c, START, actions) && Unasked(actions)
    ensures var m := After(c, START, actions).shared;
      && (m.cancelled ==> m.tally.collected >= c.limit)
      && (!m.active && c.limit > 0 ==> (m.cancelled <==> m.tally.collected >= c.limit))
  {
    StartInv(c);
    EarnedThroughout(c, START, actions);
    DumpsAreBounded(c, actions);
  }

  // ----- nothing is given up without a reason

  /** The thread has decided to return without a dump. */
  predicate GivesUp(pc: Option<Pc>) {
    pc == Some(Inside(WantRelease(Nothing))) || pc == Some(Inside(Release(Nothing)))
  }

  /** Quitting has been requested, or the limit is reached. */
  predicate Over(c: Settings, m: Shared) {
    m.cancelled || m.tally.collected >= c.limit
  }

  ghost predicate Excused(c: Settings, s: State) {
    forall t :: GivesUp(PcOf(s, t)) ==> Over(c, s.shared)
  }

  lemma ExcusedMove(c: Settings, s: State, a: Action)
    requires Inv(c, s) && Enabled(s, a)
    ensures GivesUp(MoveOf(c, s, a).pc) ==> GivesUp(PcOf(s, a.tid)) || Over(c, s.shared)
    ensures MoveOf(c, s, a).pc.None? && !GivesUp(PcOf(s, a.tid)) ==>
      || Over(c, s.shared) || s.pcs[a.tid] == Outside(OutsideQuit)
      || s.pcs[a.tid] == Inside(Release(Recorded)) || s.pcs[a.tid] == Inside(Release(Failure))
    ensures a.Step? && MoveOf(c, s, a).pc == Some(Inside(WantRelease(Failure))) ==> !a.ok
  {
    hide Ownership, Flags, Counters;
  }

  lemma ExcusedKept(c: Settings, s: State, a: Action)
    requires Inv(c, s) && Excused(c, s) && Enabled(s, a)
    ensures Excused(c, Next(c, s, a))
  {
    hide Ownership, Flags, Counters, Enabled, MoveOf, GivesUp;
    var v := Next(c, s, a);
    CollectedGrows(c, s, a);
    FlagsKept(c, s, a);
    ExcusedMove(c, s, a);
    forall t | GivesUp(PcOf(v, t)) ensures Over(c, v.shared) {
      OthersStay(c, s, a, t);
      assert GivesUp(PcOf(s, t)) || Over(c, s.shared);
    }
  }

  lemma {:induction false} ExcusedThroughout(c: Settings, s: State, actions: seq<Action>)
    requires Inv(c, s) && Excused(c, s) && Runs(c, s, actions)
    ensures Excused(c, After(c, s, actions))
    decreases |actions|
  {
    hide Excused, Inv, Next, Enabled;
    if actions != [] {
      ExcusedKept(c, s, actions[0]);
      StepKeeps(c, s, actions[0]);
      ExcusedThroughout(c, Next(c, s, actions[0]), actions[1..]);
    }
  }

  lemma StartExcused(c: Settings)
    ensures Excused(c, START)
  {
  }

  /** In no run does a call return without a dump, or stop waiting for the gate, unless quitting was requested or the
      limit is reached, or its own dump or sidecar failed. */
  lemma GivesUpOnlyWithReason(c: Settings, actions: seq<Action>, tid: Tid, ok: bool)
    requires Runs(c, START, actions) && Enabled(After(c, START, actions), Step(tid, ok))
    ensures var s := After(c, START, actions);
      var v := Next(c, s, Step(tid, ok));
      && (tid !in v.pcs ==>
            || Over(c, s.shared) || s.pcs[tid] == Outside(OutsideQuit)
            || s.pcs[tid] == Inside(Release(Recorded)) || s.pcs[tid] == Inside(Release(Failure)))
      && (PcOf(v, tid) == Some(Inside(WantRelease(Failure))) ==> !ok)
  {
    hide Runs, After, GivesUp, Over;
    StartInv(c);
    StartExcused(c);
    RunKeeps(c, START, actions);
    ExcusedThroughout(c, START, actions);
    ExcusedMove(c, After(c, START, actions), Step(tid, ok));
  }

  // ----- one call alone

  /** Nobody is inside a call. */
  predicate Quiet(s: State) {
    s.pcs == map[] && s.shared.gate.None? && s.shared.holder.None? && !s.shared.active
  }

  /** What the backend and the sidecar answer the thread at this point. */
  function Answered(pc: Pc, primary: bool, sidecar: bool): bool {
    if pc == Inside(Primary) then primary else sidecar
  }

  /** A thread going on by itself for at most `n` steps. */
  function Alone(c: Settings, s: State, tid: Tid, primary: bool, sidecar: bool, n: nat): State
    decreases n
  {
    if n == 0 || tid !in s.pcs || Blocked(s.shared, s.pcs[tid]) then s
    else Alone(c, Next(c, s, Step(tid, Answered(s.pcs[tid], primary, sidecar))), tid, primary, sidecar, n - 1)
  }

  /** The same, for the thread only. */
  function Played(c: Settings, m: Shared, tid: Tid, pc: Option<Pc>, primary: bool, sidecar: bool, n: nat): Move
    decreases n
  {
    if n == 0 || pc.None? || Blocked(m, pc.value) then Move(m, pc)
    else
      var move := Moved(c, m, tid, pc.value, Answered(pc.value, primary, sidecar));
      Played(c, move.shared, tid, move.pc, primary, sidecar, n - 1)
  }

  function Just(tid: Tid, pc: Option<Pc>): map<Tid, Pc> {
    if pc.Some? then map[tid := pc.value] else map[]
  }

  lemma {:induction false} AlonePlays(c: Settings, m: Shared, tid: Tid, pc: Option<Pc>, primary: bool, sidecar: bool,
                                      n: nat)
    ensures var move := Played(c, m, tid, pc, primary, sidecar, n);
      Alone(c, State(m, Just(tid, pc)), tid, primary, sidecar, n) == State(move.shared, Just(tid, move.pc))
    decreases n
  {
    hide Moved, Answered, Blocked;
    if n > 0 && pc.Some? && !Blocked(m, pc.value) {
      var move := Moved(c, m, tid, pc.value, Answered(pc.value, primary, sidecar));
      var a := Step(tid, Answered(pc.value, primary, sidecar));
      assert Next(c, State(m, Just(tid, pc)), a).pcs == Just(tid, move.pc);
      AlonePlays(c, move.shared, tid, move.pc, primary, sidecar, n - 1);
    }
  }

  /** What one call should do to the shared state when it goes through: the dump is counted, and quitting requested with
      the last one. */
  function Counted(c: Settings, m: Shared, dumped: bool): Shared {
    var number := (m.tally.collected + 1) % U32_LIMIT;
    var last := m.tally.collected + 1 >= c.limit;
    m.(cancelled := m.cancelled || last, quit := m.quit || last,
       tally := m.tally.(collected := number, counted := m.tally.counted + One(dumped),
                         reported := m.tally.reported + 1))
  }

  /** The permit is dropped. */
  lemma Drops(c: Settings, m: Shared, tid: Tid, answer: Answer, primary: bool, sidecar: bool, n: nat)
    requires n >= 3 && m.gate.None?
    ensures var move := Played(c, m, tid, Some(Inside(WantRelease(answer))), primary, sidecar, n);
      && move.pc == None
      && move.shared == m.(active := false, holder := None,
                           tally := m.tally.(reported := m.tally.reported + One(answer.Recorded?)))
  {
    var held := m.(gate := Some(tid));
    assert Played(c, m, tid, Some(Inside(WantRelease(answer))), primary, sidecar, n) ==
           Played(c, held, tid, Some(Inside(Release(answer))), primary, sidecar, n - 1);
    var v := m.(active := false, holder := None,
                tally := m.tally.(reported := m.tally.reported + One(answer.Recorded?)));
    assert Played(c, held, tid, Some(Inside(Release(answer))), primary, sidecar, n - 1) ==
           Played(c, v, tid, None, primary, sidecar, n - 2);
  }

  /** The dump is counted. */
  lemma Counts(c: Settings, m: Shared, tid: Tid, dumped: bool, primary: bool, sidecar: bool, n: nat)
    requires n >= 7 && m.gate.None?
    ensures Played(c, m, tid, Some(Inside(Count(dumped))), primary, sidecar, n) ==
            Move(Counted(c, m, dumped).(active := false, holder := None), None)
  {
    var number := (m.tally.collected + 1) % U32_LIMIT;
    var counted := m.(tally := m.tally.(collected := number, counted := m.tally.counted + One(dumped)));
    assert Played(c, m, tid, Some(Inside(Count(dumped))), primary, sidecar, n) ==
           Played(c, counted, tid, Some(Inside(Compare(m.tally.collected))), primary, sidecar, n - 1);
    ComparesThenDrops(c, counted, tid, m.tally.collected, primary, sidecar, n - 1);
  }

  lemma ComparesThenDrops(c: Settings, m: Shared, tid: Tid, number: nat, primary: bool, sidecar: bool, n: nat)
    requires n >= 6 && m.gate.None?
    ensures var last := number + 1 >= c.limit;
      Played(c, m, tid, Some(Inside(Compare(number))), primary, sidecar, n) ==
      Move(m.(cancelled := m.cancelled || last, quit := m.quit || last, active := false, holder := None,
              tally := m.tally.(reported := m.tally.reported + 1)), None)
  {
    if number + 1 >= c.limit {
      var v := m.(cancelled := true);
      var w := v.(quit := true);
      assert Played(c, m, tid, Some(Inside(Compare(number))), primary, sidecar, n) ==
             Played(c, m, tid, Some(Inside(Cancel)), primary, sidecar, n - 1);
      assert Played(c, m, tid, Some(Inside(Cancel)), primary, sidecar, n - 1) ==
             Played(c, v, tid, Some(Inside(SetQuit)), primary, sidecar, n - 2);
      assert Played(c, v, tid, Some(Inside(SetQuit)), primary, sidecar, n - 2) ==
             Played(c, w, tid, Some(Inside(WantRelease(Recorded))), primary, sidecar, n - 3);
      Drops(c, w, tid, Recorded, primary, sidecar, n - 3);
    } else {
      assert Played(c, m, tid, Some(Inside(Compare(number))), primary, sidecar, n) ==
             Played(c, m, tid, Some(Inside(WantRelease(Recorded))), primary, sidecar, n - 1);
      Drops(c, m, tid, Recorded, primary, sidecar, n - 1);
    }
  }

  /** The sidecar is asked, if there is one, and then the dump counted. */
  lemma AsksSidecar(c: Settings, m: Shared, tid: Tid, dumped: bool, primary: bool, sidecar: bool, n: nat)
    requires n >= 8 && m.gate.None?
    ensures Played(c, m, tid, Some(Inside(Sidecar(dumped))), primary, sidecar, n) ==
            Move(if c.sidecar && !sidecar
                 then m.(active := false, holder := None,
                         tally := m.tally.(orphaned := m.tally.orphaned + One(dumped)))
                 else Counted(c, m, dumped).(active := false, holder := None), None)
  {
    if c.sidecar && !sidecar {
      var v := m.(tally := m.tally.(orphaned := m.tally.orphaned + One(dumped)));
      assert Played(c, m, tid, Some(Inside(Sidecar(dumped))), primary, sidecar, n) ==
             Played(c, v, tid, Some(Inside(WantRelease(Failure))), primary, sidecar, n - 1);
      Drops(c, v, tid, Failure, primary, sidecar, n - 1);
    } else {
      assert Played(c, m, tid, Some(Inside(Sidecar(dumped))), primary, sidecar, n) ==
             Played(c, m, tid, Some(Inside(Count(dumped))), primary, sidecar, n - 1);
      Counts(c, m, tid, dumped, primary, sidecar, n - 1);
    }
  }

  /** What a `write` should do to the shared state when it holds the permit and may dump. */
  function Written(c: Settings, m: Shared, primary: bool, sidecar: bool): Shared {
    var wanted := !c.sidecar || c.primary;
    if wanted && !primary then m
    else
      var v := m.(tally := m.tally.(dumps := m.tally.dumps + One(wanted)));
      if c.sidecar && !sidecar then v.(tally := v.tally.(orphaned := v.tally.orphaned + One(wanted)))
      else Counted(c, v, wanted)
  }

  lemma Dumps(c: Settings, m: Shared, tid: Tid, primary: bool, sidecar: bool, n: nat)
    requires n >= 9 && m.gate.None?
    ensures Played(c, m, tid, Some(Inside(Primary)), primary, sidecar, n) ==
            Move(Written(c, m, primary, sidecar).(active := false, holder := None), None)
  {
    hide Counted;
    if c.sidecar && !c.primary {
      assert Played(c, m, tid, Some(Inside(Primary)), primary, sidecar, n) ==
             Played(c, m, tid, Some(Inside(Sidecar(false))), primary, sidecar, n - 1);
      AsksSidecar(c, m, tid, false, primary, sidecar, n - 1);
    } else if primary {
      var v := m.(tally := m.tally.(dumps := m.tally.dumps + 1));
      assert Played(c, m, tid, Some(Inside(Primary)), primary, sidecar, n) ==
             Played(c, v, tid, Some(Inside(Sidecar(true))), primary, sidecar, n - 1);
      AsksSidecar(c, v, tid, true, primary, sidecar, n - 1);
    } else {
      assert Played(c, m, tid, Some(Inside(Primary)), primary, sidecar, n) ==
             Played(c, m, tid, Some(Inside(WantRelease(Failure))), primary, sidecar, n - 1);
      Drops(c, m, tid, Failure, primary, sidecar, n - 1);
    }
  }

  /** Taking the permit of a free gate, unless quitting was requested. */
  lemma Acquires(c: Settings, m: Shared, tid: Tid, external: bool, primary: bool, sidecar: bool, n: nat)
    requires n >= 5 && m.gate.None? && !m.active
    ensures Played(c, m, tid, Some(Outside(WantGate(external))), primary, sidecar, n) ==
            if m.cancelled then Move(m, None)
            else Played(c, m.(active := true, holder := Some(tid)), tid, Some(Inside(Recheck(external))), primary,
                        sidecar, n - 4)
  {
    var held := m.(gate := Some(tid));
    assert Played(c, m, tid, Some(Outside(WantGate(external))), primary, sidecar, n) ==
           Played(c, held, tid, Some(Outside(HoldGate(external))), primary, sidecar, n - 1);
    assert Played(c, held, tid, Some(Outside(HoldGate(external))), primary, sidecar, n - 1) ==
           Played(c, held, tid, Some(Outside(GateFree(external))), primary, sidecar, n - 2);
    if m.cancelled {
      assert held.(gate := None) == m;
      assert Played(c, held, tid, Some(Outside(GateFree(external))), primary, sidecar, n - 2) ==
             Played(c, m, tid, None, primary, sidecar, n - 3);
    } else {
      assert Played(c, held, tid, Some(Outside(GateFree(external))), primary, sidecar, n - 2) ==
             Played(c, held, tid, Some(Outside(TakePermit(external))), primary, sidecar, n - 3);
      var taken := m.(active := true, holder := Some(tid));
      assert held.(gate := None, active := true, holder := Some(tid)) == taken;
      assert Played(c, held, tid, Some(Outside(TakePermit(external))), primary, sidecar, n - 3) ==
             Played(c, taken, tid, Some(Inside(Recheck(external))), primary, sidecar, n - 4);
    }
  }

  lemma Checks(c: Settings, m: Shared, tid: Tid, primary: bool, sidecar: bool, n: nat)
    requires n >= 3
    ensures Played(c, m, tid, Some(Outside(CheckLimit)), primary, sidecar, n) ==
            if m.tally.collected >= c.limit || m.cancelled then Move(m, None)
            else Played(c, m, tid, Some(Outside(WantGate(false))), primary, sidecar, n - 2)
  {
    hide Permitted;
    if m.tally.collected < c.limit {
      assert Played(c, m, tid, Some(Outside(CheckLimit)), primary, sidecar, n) ==
             Played(c, m, tid, Some(Outside(CheckQuit)), primary, sidecar, n - 1);
      assert Played(c, m, tid, Some(Outside(CheckQuit)), primary, sidecar, n - 1) ==
             Played(c, m, tid, if m.cancelled then None else Some(Outside(WantGate(false))), primary, sidecar, n - 2);
    } else {
      assert Played(c, m, tid, Some(Outside(CheckLimit)), primary, sidecar, n) ==
             Played(c, m, tid, None, primary, sidecar, n - 1);
    }
  }

  /** A `write` made while no other call is in progress does nothing once the limit is reached or quitting was
      requested,
      nor when the dump fails; otherwise the dump is counted, unless its sidecar fails, and the last one requests
      quitting. */
  lemma WriteAlone(c: Settings, s: State, tid: Tid, primary: bool, sidecar: bool)
    requires Quiet(s)
    ensures Alone(c, Next(c, s, Write(tid)), tid, primary, sidecar, 20) ==
            State(if s.shared.tally.collected >= c.limit || s.shared.cancelled then s.shared
                  else Written(c, s.shared, primary, sidecar), map[])
  {
    hide Written, Permitted, Approached, Moved, Played;
    var m := s.shared;
    AlonePlays(c, m, tid, Some(Outside(CheckLimit)), primary, sidecar, 20);
    Checks(c, m, tid, primary, sidecar, 20);
    if m.tally.collected < c.limit && !m.cancelled {
      Acquires(c, m, tid, false, primary, sidecar, 18);
      var taken := m.(active := true, holder := Some(tid));
      Rechecks(c, taken, tid, primary, sidecar, 14);
      Dumps(c, taken, tid, primary, sidecar, 12);
      SameWritten(c, m, tid, primary, sidecar);
    }
  }

  lemma Rechecks(c: Settings, m: Shared, tid: Tid, primary: bool, sidecar: bool, n: nat)
    requires n >= 3 && m.tally.collected < c.limit && !m.cancelled
    ensures Played(c, m, tid, Some(Inside(Recheck(false))), primary, sidecar, n) ==
            Played(c, m, tid, Some(Inside(Primary)), primary, sidecar, n - 2)
  {
    assert Played(c, m, tid, Some(Inside(Recheck(false))), primary, sidecar, n) ==
           Played(c, m, tid, Some(Inside(RecheckQuit)), primary, sidecar, n - 1);
  }

  lemma SameWritten(c: Settings, m: Shared, tid: Tid, primary: bool, sidecar: bool)
    requires !m.active && m.holder.None?
    ensures Written(c, m.(active := true, holder := Some(tid)), primary, sidecar).(active := false, holder := None) ==
            Written(c, m, primary, sidecar)
  {
  }

  lemma RechecksExternal(c: Settings, m: Shared, tid: Tid, primary: bool, sidecar: bool, n: nat)
    requires n >= 8 && m.gate.None?
    ensures Played(c, m, tid, Some(Inside(Recheck(true))), primary, sidecar, n) ==
            Move((if m.tally.collected >= c.limit then m else Counted(c, m, false)).(active := false, holder := None),
                 None)
  {
    if m.tally.collected >= c.limit {
      assert Played(c, m, tid, Some(Inside(Recheck(true))), primary, sidecar, n) ==
             Played(c, m, tid, Some(Inside(WantRelease(Nothing))), primary, sidecar, n - 1);
      Drops(c, m, tid, Nothing, primary, sidecar, n - 1);
    } else {
      assert Played(c, m, tid, Some(Inside(Recheck(true))), primary, sidecar, n) ==
             Played(c, m, tid, Some(Inside(Count(false))), primary, sidecar, n - 1);
      Counts(c, m, tid, false, primary, sidecar, n - 1);
    }
  }

  /** A dump taken elsewhere is counted alike, whatever the sidecar. */
  lemma ExternalAlone(c: Settings, s: State, tid: Tid, primary: bool, sidecar: bool)
    requires Quiet(s)
    ensures Alone(c, Next(c, s, RecordExternal(tid)), tid, primary, sidecar, 20) ==
            State(if s.shared.tally.collected >= c.limit || s.shared.cancelled then s.shared
                  else Counted(c, s.shared, false), map[])
  {
    hide Permitted, Approached, Moved, Played;
    var m := s.shared;
    AlonePlays(c, m, tid, Some(Outside(WantGate(true))), primary, sidecar, 20);
    Acquires(c, m, tid, true, primary, sidecar, 20);
    if !m.cancelled {
      RechecksExternal(c, m.(active := true, holder := Some(tid)), tid, primary, sidecar, 16);
    }
  }

  /** A request to quit cancels what is under way and has everybody quit, whatever else is in progress. */
  lemma RequestQuitAlone(c: Settings, s: State, tid: Tid, ok: bool, later: bool)
    requires tid !in s.pcs
    ensures var asked := Next(c, s, RequestQuit(tid));
      && Enabled(asked, Step(tid, ok)) && Enabled(Next(c, asked, Step(tid, ok)), Step(tid, later))
      && Next(c, Next(c, asked, Step(tid, ok)), Step(tid, later)) ==
         s.(shared := s.shared.(cancelled := true, quit := true))
  {
    var asked := Next(c, s, RequestQuit(tid));
    var done := Next(c, Next(c, asked, Step(tid, ok)), Step(tid, later));
    assert done.pcs == s.pcs;
  }

  /** Once quitting has been requested, a call that waits for the permit returns as soon as it gets hold of the gate's
      mutex, whoever has the permit. */
  lemma WaiterReturns(c: Settings, s: State, tid: Tid, external: bool, primary: bool, sidecar: bool)
    requires PcOf(s, tid) == Some(Outside(WantGate(external))) && s.shared.gate.None? && s.shared.cancelled
    ensures Alone(c, s, tid, primary, sidecar, 3) == State(s.shared, s.pcs - {tid})
  {
    hide Permitted;
    var first := Next(c, s, Step(tid, sidecar));
    var second := Next(c, first, Step(tid, sidecar));
    var third := Next(c, second, Step(tid, sidecar));
    assert Alone(c, s, tid, primary, sidecar, 3) == Alone(c, first, tid, primary, sidecar, 2);
    assert Alone(c, first, tid, primary, sidecar, 2) == Alone(c, second, tid, primary, sidecar, 1);
    assert third.shared == s.shared && third.pcs == s.pcs - {tid};
  }

  /** A `write` that finds the limit reached or quitting requested returns without waiting for the gate. */
  lemma ReturnsBeforeGate(c: Settings, s: State, tid: Tid, primary: bool, sidecar: bool)
    requires tid !in s.pcs && (s.shared.tally.collected >= c.limit || s.shared.cancelled)
    ensures Alone(c, Next(c, s, Write(tid)), tid, primary, sidecar, 2) == s
  {
    hide Permitted;
    var entered := Next(c, s, Write(tid));
    var first := Next(c, entered, Step(tid, sidecar));
    assert s.pcs[tid := Outside(CheckLimit)] - {tid} == s.pcs;
    assert Alone(c, entered, tid, primary, sidecar, 2) == Alone(c, first, tid, primary, sidecar, 1);
    if s.shared.tally.collected < c.limit {
      var second := Next(c, first, Step(tid, sidecar));
      assert second.pcs == s.pcs;
      assert Alone(c, first, tid, primary, sidecar, 1) == Alone(c, second, tid, primary, sidecar, 0);
    }
  }
}
