/** The command line: options in any order, and checks over the whole line. */
module Arguments {
  import opened Bytes

  const MAX_DUMP_COUNT: nat := 100
  const MAX_COUNTERS: nat := 5
  const I32_MAX: nat := 0x7fff_ffff
  const SIGKILL: int := 9
  const SIGSTOP: int := 19

  /** Option names, after a dash or a slash and in any case. */
  datatype Key =
    | Help | C | Cl | M | Ml | Gcm | Gcgen | Restrack | Sr | Sig | Mc | Pc | Pcl | Tc | Fc | Pf | S | N | Log | E | F
    | Fx | O | W | Pgid | UseGcore

  /** What can be given once. The flags can be given again, to no effect. */
  datatype Slot =
    | Cpu | Memory | Threads | Descriptors | Polling | Seconds | Count | Signals | DotNet | Filter | Tracking | Sample
    | Exclude | Mask | Overwrite | Wait | Group | Gcore

  datatype Value =
    | Number(n: nat)
    | Limit(n: nat, below: bool)
    | Limits(list: seq<nat>, below: bool)
    | Numbers(ints: seq<int>)
    | Text(text: string)
    | Yes
    | No
    | Exception
    | GcMemory(heap: nat, thresholds: seq<nat>)
    | GcGeneration(generation: nat)

  datatype Counter = Counter(text: string, threshold: string, below: bool)

  datatype Diagnostics = NoLog | Stdout | Syslog

  datatype TargetSpec = Pid(pid: int) | Name(name: string) | ProcessGroup(group: int)

  datatype Output = Output(directory: string, fileName: Option<string>)

  /** How single words are read: option names, numbers, lists, paths; and which features the build has. */
  datatype Lexicon = Lexicon(
    key: string -> Option<Key>, small: string -> Option<nat>, number: string -> Option<nat>,
    list: string -> Option<seq<nat>>, ints: string -> Option<seq<int>>, hex: string -> Option<nat>,
    gc: string -> Option<Value>, counter: (string, string) -> bool, noDump: string -> bool,
    log: string -> Option<Diagnostics>, filter: string -> bool, output: string -> Option<Output>,
    target: (string, bool) -> Option<TargetSpec>,
    dotnet: bool, tracking: bool, linux: bool)

  /** One complete option with its values, or a word that is none. */
  datatype Item =
    | Set(slot: Slot, value: Value)
    | SetGcMemory(value: Value)
    | SetGeneration(generation: nat)
    | Flag(slot: Slot)
    | AddCounter(counter: Counter)
    | SetLog(diagnostics: Diagnostics)
    | Positional(text: string)

  datatype Read = Read(item: Item, count: nat)

  // ----- reading one option

  function One(args: seq<string>, item: Option<Item>): (r: Option<Read>)
    requires |args| >= 2
    ensures r.Some? ==> r.value.count == 2
  {
    if item.Some? then Some(Read(item.value, 2)) else None
  }

  function NumberItem(slot: Slot, n: Option<nat>): Option<Item> {
    if n.Some? then Some(Set(slot, Number(n.value))) else None
  }

  /** An option that takes one value. */
  function ValueItem(x: Lexicon, key: Key, v: string): Option<Item> {
    match key
    case C => var n :- x.number(v); Some(Set(Cpu, Limit(n, false)))
    case Cl => var n :- x.number(v); Some(Set(Cpu, Limit(n, true)))
    case M => var l :- x.list(v); Some(Set(Memory, Limits(l, false)))
    case Ml => var l :- x.list(v); Some(Set(Memory, Limits(l, true)))
    case Gcm => var g :- x.gc(v); if x.dotnet && g.GcMemory? then Some(SetGcMemory(g)) else None
    case Gcgen => var n :- x.small(v); if x.dotnet && n <= 2 then Some(SetGeneration(n)) else None
    case Sr =>
      var n :- x.number(v);
      if x.tracking && n <= I32_MAX then Some(Set(Sample, Number(if n == 0 then 1 else n))) else None
    case Sig =>
      var l :- x.ints(v);
      if x.linux && forall i :: 0 <= i < |l| ==> l[i] >= 0 then Some(Set(Signals, Numbers(l))) else None
    case Mc => if x.linux then NumberItem(Mask, x.hex(v)) else None
    case Tc => NumberItem(Threads, x.number(v))
    case Fc => NumberItem(Descriptors, x.number(v))
    case Pf => NumberItem(Polling, x.number(v))
    case S => NumberItem(Seconds, x.number(v))
    case N => var n :- x.number(v); if n <= MAX_DUMP_COUNT then Some(Set(Count, Number(n))) else None
    case Log => var d :- x.log(v); Some(SetLog(d))
    case F => if x.dotnet && x.filter(v) then Some(Set(Filter, Text(v))) else None
    case Fx => if x.tracking then Some(Set(Exclude, Text(v))) else None
    case _ => None
  }

  predicate TakesValue(key: Key) {
    key in {C, Cl, M, Ml, Gcm, Gcgen, Sr, Sig, Mc, Tc, Fc, Pf, S, N, Log, F, Fx}
  }

  /** The option at the start of the remaining words. Only `restrack` looks at a word it may not take. */
  function ReadItem(x: Lexicon, args: seq<string>): (r: Option<Read>)
    requires args != []
    ensures r.Some? ==> 0 < r.value.count <= |args|
  {
    match x.key(args[0])
    case None => Some(Read(Positional(args[0]), 1))
    case Some(key) =>
      if TakesValue(key) then
        if |args| < 2 then None else One(args, ValueItem(x, key, args[1]))
      else
        match key
        case Restrack =>
          if !x.tracking then None
          else if |args| > 1 && x.noDump(args[1]) then Some(Read(Set(Tracking, No), 2))
          else Some(Read(Set(Tracking, Yes), 1))
        case Pc => ReadCounter(x, args, false)
        case Pcl => ReadCounter(x, args, true)
        case E => if x.dotnet then Some(Read(Set(DotNet, Exception), 1)) else None
        case O => Some(Read(Flag(Overwrite), 1))
        case W => Some(Read(Flag(Wait), 1))
        case Pgid => if x.linux then Some(Read(Flag(Group), 1)) else None
        case UseGcore => Some(Read(Flag(Gcore), 1))
        case _ => None
  }

  function ReadCounter(x: Lexicon, args: seq<string>, below: bool): (r: Option<Read>)
    requires args != []
    ensures r.Some? ==> r.value.count == 3 <= |args|
  {
    if x.dotnet && |args| >= 3 && x.counter(args[1], args[2]) then
      Some(Read(AddCounter(Counter(args[1], args[2], below)), 3))
    else None
  }

  // ----- what has been given so far

  type Slots = map<Slot, Value>

  datatype Draft = Draft(slots: Slots, counters: seq<Counter>, diagnostics: Diagnostics,
                         target: Option<string>, output: Option<Output>)

  function Start(x: Lexicon): Draft {
    Draft(if x.linux then map[] else map[Gcore := Yes], [], NoLog, None, None)
  }

  predicate Clashes(x: Lexicon, item: Item, d: Draft) {
    match item
    case Set(slot, _) =>
      slot in d.slots || (slot == Memory && DotNet in d.slots && d.slots[DotNet].GcMemory?)
    case SetGcMemory(_) => DotNet in d.slots || Memory in d.slots
    case SetGeneration(_) => DotNet in d.slots || Count in d.slots
    case Flag(_) => false
    case AddCounter(_) => |d.counters| >= MAX_COUNTERS
    case SetLog(_) => false
    case Positional(text) => d.target.Some? && (d.output.Some? || x.output(text).None?)
  }

  /** What an item puts into the slots; a generation trigger also fixes the number of dumps. */
  function Writes(item: Item): Slots {
    match item
    case Set(slot, value) => map[slot := value]
    case SetGcMemory(value) => map[DotNet := value]
    case SetGeneration(n) => map[Count := Number(2), DotNet := GcGeneration(n)]
    case Flag(slot) => map[slot := Yes]
    case _ => map[]
  }

  function Take(x: Lexicon, item: Item, d: Draft): Draft
    requires !Clashes(x, item, d)
  {
    match item
    case AddCounter(c) => d.(counters := d.counters + [c])
    case SetLog(l) => d.(diagnostics := l)
    case Positional(text) =>
      if d.target.None? then d.(target := Some(text)) else d.(output := Some(x.output(text).value))
    case _ => d.(slots := d.slots + Writes(item))
  }

  function Apply(x: Lexicon, item: Item, d: Draft): Option<Draft> {
    if Clashes(x, item, d) then None else Some(Take(x, item, d))
  }

  function ApplyAll(x: Lexicon, items: seq<Item>, d: Draft): Option<Draft>
    decreases |items|
  {
    if items == [] then Some(d)
    else
      var next :- Apply(x, items[0], d);
      ApplyAll(x, items[1..], next)
  }

  function ReadAll(x: Lexicon, args: seq<string>): Option<seq<Item>>
    decreases |args|
  {
    if args == [] then Some([])
    else
      var first :- ReadItem(x, args);
      var rest :- ReadAll(x, args[first.count..]);
      Some([first.item] + rest)
  }

  // ----- checks over the whole line

  datatype Tracker = Tracker(generateDump: bool, sampleRate: nat, exclude: Option<Value>)

  datatype Config = Config(
    target: TargetSpec, output: Output, cpu: Option<Value>, memory: Option<Value>, threads: Option<Value>,
    descriptors: Option<Value>, pollingMs: nat, seconds: nat, dumpCount: nat, wait: bool, overwrite: bool,
    diagnostics: Diagnostics, gcore: bool, timer: bool, signals: seq<int>, dotNet: Option<Value>,
    filter: Option<Value>, counters: seq<Counter>, tracking: Option<Tracker>, mask: Option<Value>)

  function Get(slots: Slots, slot: Slot): Option<Value> {
    if slot in slots then Some(slots[slot]) else None
  }

  function NumberOr(v: Option<Value>, otherwise: nat): nat {
    if v.Some? && v.value.Number? then v.value.n else otherwise
  }

  function SignalList(slots: Slots): seq<int> {
    if Signals in slots && slots[Signals].Numbers? then slots[Signals].ints else []
  }

  predicate Exclusive(slots: Slots) {
    SignalList(slots) != [] || Get(slots, DotNet) == Some(Exception)
  }

  predicate HasThreshold(slots: Slots, counting: bool) {
    Cpu in slots || Memory in slots || Threads in slots || Descriptors in slots || counting
  }

  /** How many dumps a list of memory thresholds asks for. */
  function MemoryDumps(slots: Slots): nat {
    if Memory in slots then if slots[Memory].Limits? then |slots[Memory].list| else 0
    else if DotNet in slots && slots[DotNet].GcMemory? then |slots[DotNet].thresholds|
    else 0
  }

  predicate Combines(slots: Slots, output: Option<Output>, target: TargetSpec, counting: bool) {
    && (Wait in slots ==> target.Name?)
    && (Group in slots || Wait in slots ==> output.None? || output.value.fileName.None?)
    && (MemoryDumps(slots) > 1 ==> Count !in slots)
    && (Filter in slots ==> Get(slots, DotNet) == Some(Exception))
    && (Sample in slots || Exclude in slots ==> Tracking in slots)
    && (Exclusive(slots) ==> !HasThreshold(slots, counting) && Polling !in slots)
  }

  /** Without any other trigger, or with a restrack time, dumps are taken by the clock. */
  predicate Timed(slots: Slots, counting: bool) {
    && !Exclusive(slots)
    && ((Tracking in slots && NumberOr(Get(slots, Seconds), 0) > 0) ||
        (!HasThreshold(slots, counting) && DotNet !in slots && Tracking !in slots))
  }

  function ConfigOf(slots: Slots, output: Option<Output>, diagnostics: Diagnostics, counters: seq<Counter>,
                    target: TargetSpec)
    : Config
  {
    Config(target, if output.Some? then output.value else Output(".", None),
           Get(slots, Cpu), Get(slots, Memory), Get(slots, Threads), Get(slots, Descriptors),
           NumberOr(Get(slots, Polling), 1000), NumberOr(Get(slots, Seconds), 10),
           if MemoryDumps(slots) > 1 then MemoryDumps(slots) else NumberOr(Get(slots, Count), 1),
           Wait in slots, Overwrite in slots, diagnostics, Gcore in slots, Timed(slots, counters != []),
           SignalList(slots), Get(slots, DotNet), Get(slots, Filter), counters,
           if Tracking in slots then
             Some(Tracker(slots[Tracking] == Yes, NumberOr(Get(slots, Sample), 1), Get(slots, Exclude)))
           else None, Get(slots, Mask))
  }

  predicate Valid(c: Config) {
    && (c.target.Pid? ==> c.target.pid > 0)
    && (c.target.ProcessGroup? ==> c.target.group > 0)
    && 1 <= c.dumpCount <= MAX_DUMP_COUNT && c.pollingMs > 0
    && forall i :: 0 <= i < |c.signals| ==>
         1 <= c.signals[i] <= 64 && c.signals[i] != SIGKILL && c.signals[i] != SIGSTOP
  }

  function Build(x: Lexicon, d: Draft): Option<Config> {
    var text :- d.target;
    var target :- x.target(text, Group in d.slots);
    if !Combines(d.slots, d.output, target, d.counters != []) then None
    else
      var config := ConfigOf(d.slots, d.output, d.diagnostics, d.counters, target);
      if Valid(config) then Some(config) else None
  }

  /** A line means its options, taken in order, and then the checks. */
  function Parse(x: Lexicon, args: seq<string>): Option<Config> {
    var items :- ReadAll(x, args);
    var draft :- ApplyAll(x, items, Start(x));
    Build(x, draft)
  }

  // ----- the parser's single pass

  function Run(x: Lexicon, args: seq<string>, d: Draft): Option<Draft>
    decreases |args|
  {
    if args == [] then Some(d)
    else
      var first :- ReadItem(x, args);
      var next :- Apply(x, first.item, d);
      Run(x, args[first.count..], next)
  }

  lemma {:induction false} RunReadsThenApplies(x: Lexicon, args: seq<string>, d: Draft)
    ensures Run(x, args, d) ==
            match ReadAll(x, args)
            case None => None
            case Some(items) => ApplyAll(x, items, d)
    decreases |args|
  {
    hide ReadItem, Apply;
    if args != [] && ReadItem(x, args).Some? {
      var first := ReadItem(x, args).value;
      var rest := ReadAll(x, args[first.count..]);
      if rest.Some? {
        assert ([first.item] + rest.value)[1..] == rest.value;
      }
      if Apply(x, first.item, d).Some? {
        RunReadsThenApplies(x, args[first.count..], Apply(x, first.item, d).value);
      }
    }
  }

  /** One pass over the words, each option applied as it is read. */
  method ParseArguments(x: Lexicon, args: seq<string>) returns (config: Option<Config>)
    ensures config == Parse(x, args)
  {
    hide ReadItem, Apply, Build, ReadAll;
    RunReadsThenApplies(x, args, Start(x));
    var index := 0;
    var draft := Start(x);
    assert args[0..] == args;
    while index < |args|
      invariant 0 <= index <= |args|
      invariant Run(x, args[index..], draft) == Run(x, args, Start(x))
    {
      var read := ReadItem(x, args[index..]);
      if read.None? {
        return None;
      }
      var next := Apply(x, read.value.item, draft);
      if next.None? {
        return None;
      }
      assert args[index..][read.value.count..] == args[index + read.value.count..];
      draft := next.value;
      index := index + read.value.count;
    }
    config := Build(x, draft);
  }

  // ----- what an accepted line guarantees

  /** The values items carry when they are read from words. */
  predicate Typed(item: Item) {
    match item
    case Set(Sample, v) => v.Number? && 1 <= v.n <= I32_MAX
    case Set(Count, v) => v.Number? && v.n <= MAX_DUMP_COUNT
    case Set(Seconds, v) => v.Number?
    case Set(Memory, v) => v.Limits?
    case Set(Signals, v) => v.Numbers?
    case Set(DotNet, v) => v == Exception
    case SetGcMemory(v) => v.GcMemory?
    case Flag(slot) => slot in {Overwrite, Wait, Group, Gcore}
    case _ => true
  }

  lemma ValueTyped(x: Lexicon, key: Key, v: string)
    requires ValueItem(x, key, v).Some?
    ensures Typed(ValueItem(x, key, v).value) && !ValueItem(x, key, v).value.Flag?
  {
  }

  lemma ReadsTyped(x: Lexicon, args: seq<string>)
    requires args != [] && ReadItem(x, args).Some?
    ensures Typed(ReadItem(x, args).value.item)
  {
    hide ValueItem;
    if x.key(args[0]).Some? && TakesValue(x.key(args[0]).value) {
      ValueTyped(x, x.key(args[0]).value, args[1]);
    }
  }

  /** What the options so far keep to, whatever their order. */
  predicate Sound(d: Draft) {
    && |d.counters| <= MAX_COUNTERS
    && (Sample in d.slots ==> d.slots[Sample].Number? && 1 <= d.slots[Sample].n <= I32_MAX)
    && (Count in d.slots ==> d.slots[Count].Number?)
    && (Seconds in d.slots ==> d.slots[Seconds].Number?)
    && (Memory in d.slots ==> d.slots[Memory].Limits?)
    && (Signals in d.slots ==> d.slots[Signals].Numbers?)
    && (DotNet in d.slots && d.slots[DotNet].GcGeneration? ==> Get(d.slots, Count) == Some(Number(2)))
    && (DotNet in d.slots && d.slots[DotNet].GcMemory? ==> Memory !in d.slots)
  }

  lemma SoundApply(x: Lexicon, item: Item, d: Draft)
    requires Sound(d) && Typed(item) && Apply(x, item, d).Some?
    ensures Sound(Apply(x, item, d).value)
  {
  }

  lemma {:induction false} SoundRun(x: Lexicon, args: seq<string>, d: Draft)
    requires Sound(d) && Run(x, args, d).Some?
    ensures Sound(Run(x, args, d).value)
    decreases |args|
  {
    hide ReadItem, Apply, Sound, Typed;
    if args != [] {
      var first := ReadItem(x, args).value;
      ReadsTyped(x, args);
      SoundApply(x, first.item, d);
      SoundRun(x, args[first.count..], Apply(x, first.item, d).value);
    }
  }

  /** How many memory thresholds a configuration has, of either kind. */
  function MemoryThresholds(c: Config): nat {
    if c.memory.Some? && c.memory.value.Limits? then |c.memory.value.list|
    else if c.dotNet.Some? && c.dotNet.value.GcMemory? then |c.dotNet.value.thresholds|
    else 0
  }

  /** Every accepted line, however it is ordered: a signal or exception trigger stands alone; several memory
      thresholds, of one kind only, fix the number of dumps, and so does a generation; filters and sampling come
      with what they apply to; only names are waited for. */
  lemma AcceptedLines(x: Lexicon, args: seq<string>, c: Config)
    requires Parse(x, args) == Some(c)
    ensures Valid(c) && |c.counters| <= MAX_COUNTERS
    ensures c.signals != [] || c.dotNet == Some(Exception) ==>
      c.cpu == c.memory == c.threads == c.descriptors == None && c.counters == [] && c.pollingMs == 1000 && !c.timer
    ensures c.memory.Some? ==> c.dotNet.None? || !c.dotNet.value.GcMemory?
    ensures MemoryThresholds(c) > 1 ==> c.dumpCount == MemoryThresholds(c)
    ensures c.dotNet.Some? && c.dotNet.value.GcGeneration? ==> c.dumpCount == 2 && MemoryThresholds(c) <= 1
    ensures c.filter.Some? ==> c.dotNet == Some(Exception)
    ensures c.tracking.Some? ==> 1 <= c.tracking.value.sampleRate <= I32_MAX
    ensures c.wait ==> c.target.Name? && c.output.fileName.None?
  {
    hide ReadAll, ApplyAll, Run, Valid;
    RunReadsThenApplies(x, args, Start(x));
    SoundRun(x, args, Start(x));
  }

  // ----- options commute

  /** Items as they are read: only flags can be given twice, and only `gcm` sets a memory trigger. */
  predicate Proper(item: Item) {
    Typed(item) && (item.Set? ==> item.slot !in {Overwrite, Wait, Group, Gcore})
  }

  lemma ReadsProper(x: Lexicon, args: seq<string>)
    requires args != [] && ReadItem(x, args).Some?
    ensures Proper(ReadItem(x, args).value.item)
  {
    hide Typed;
    ReadsTyped(x, args);
  }

  /** Two positionals, two log targets: here the order is part of the meaning. */
  predicate Ordered(a: Item, b: Item) {
    (a.Positional? && b.Positional?) || (a.SetLog? && b.SetLog?)
  }

  predicate BothCount(a: Item, b: Item) {
    a.AddCounter? && b.AddCounter?
  }

  function Two(x: Lexicon, a: Item, b: Item, d: Draft): Option<Draft> {
    var next :- Apply(x, a, d);
    Apply(x, b, next)
  }

  predicate Sets(item: Item, slot: Slot) {
    item.Set? && item.slot == slot
  }

  /** The two cannot stand on one line, whichever comes first. */
  predicate Conflict(a: Item, b: Item) {
    || (a.Set? && b.Set? && a.slot == b.slot)
    || (TakesTrigger(a) && TakesTrigger(b))
    || (a.SetGcMemory? && Sets(b, Memory)) || (b.SetGcMemory? && Sets(a, Memory))
    || (a.SetGeneration? && Sets(b, Count)) || (b.SetGeneration? && Sets(a, Count))
  }

  predicate TakesTrigger(item: Item) {
    item.SetGcMemory? || item.SetGeneration? || Sets(item, DotNet)
  }

  lemma ClashAfter(x: Lexicon, a: Item, b: Item, d: Draft)
    requires Proper(a) && Proper(b) && !Ordered(a, b) && !BothCount(a, b) && !Clashes(x, a, d)
    ensures Clashes(x, b, Take(x, a, d)) <==> Clashes(x, b, d) || Conflict(a, b)
  {
  }

  lemma MergesCommute(slots: Slots, a: Slots, b: Slots)
    requires forall s :: s in a && s in b ==> a[s] == b[s]
    ensures slots + a + b == slots + b + a
  {
  }

  lemma WritesAgree(a: Item, b: Item)
    requires Proper(a) && Proper(b) && !Conflict(a, b)
    ensures forall s :: s in Writes(a) && s in Writes(b) ==> Writes(a)[s] == Writes(b)[s]
  {
  }

  lemma TakesCommute(x: Lexicon, a: Item, b: Item, d: Draft)
    requires Proper(a) && Proper(b) && !Ordered(a, b) && !BothCount(a, b) && !Conflict(a, b)
    requires !Clashes(x, a, d) && !Clashes(x, b, d) && !Clashes(x, b, Take(x, a, d)) && !Clashes(x, a, Take(x, b, d))
    ensures Take(x, b, Take(x, a, d)) == Take(x, a, Take(x, b, d))
  {
    hide Writes, Conflict, Proper;
    WritesAgree(a, b);
    MergesCommute(d.slots, Writes(a), Writes(b));
  }

  lemma Commute(x: Lexicon, a: Item, b: Item, d: Draft)
    requires Proper(a) && Proper(b) && !Ordered(a, b) && !BothCount(a, b)
    ensures Two(x, a, b, d) == Two(x, b, a, d)
  {
    hide Clashes, Take, Proper;
    if !Clashes(x, a, d) {
      ClashAfter(x, a, b, d);
    }
    if !Clashes(x, b, d) {
      ClashAfter(x, b, a, d);
    }
    if !Clashes(x, a, d) && !Clashes(x, b, d) && !Conflict(a, b) {
      TakesCommute(x, a, b, d);
    }
  }

  // ----- what the order of counters can change

  /** The same but for the order of the counters. */
  ghost predicate Similar(a: Draft, b: Draft) {
    a.(counters := b.counters) == b && multiset(a.counters) == multiset(b.counters)
  }

  ghost predicate Alike(a: Option<Draft>, b: Option<Draft>) {
    if a.Some? && b.Some? then Similar(a.value, b.value) else a == b
  }

  ghost predicate SameBut(a: Config, b: Config) {
    a.(counters := b.counters) == b && multiset(a.counters) == multiset(b.counters)
  }

  /** Both lines are refused, or both are accepted with the same configuration up to the order of the counters. */
  ghost predicate Equivalent(a: Option<Config>, b: Option<Config>) {
    if a.Some? && b.Some? then SameBut(a.value, b.value) else a == b
  }

  lemma SameCount(a: seq<Counter>, b: seq<Counter>)
    requires multiset(a) == multiset(b)
    ensures |a| == |b|
  {
    assert |multiset(a)| == |a| && |multiset(b)| == |b|;
  }

  lemma SimilarApply(x: Lexicon, item: Item, a: Draft, b: Draft)
    requires Similar(a, b)
    ensures Alike(Apply(x, item, a), Apply(x, item, b))
  {
    hide Writes;
    SameCount(a.counters, b.counters);
  }

  lemma {:induction false} AlikeAll(x: Lexicon, items: seq<Item>, a: Draft, b: Draft)
    requires Similar(a, b)
    ensures Alike(ApplyAll(x, items, a), ApplyAll(x, items, b))
    decreases |items|
  {
    hide Apply;
    if items != [] {
      SimilarApply(x, items[0], a, b);
      if Apply(x, items[0], a).Some? {
        AlikeAll(x, items[1..], Apply(x, items[0], a).value, Apply(x, items[0], b).value);
      }
    }
  }

  lemma SimilarBuild(x: Lexicon, a: Draft, b: Draft)
    requires Similar(a, b)
    ensures Equivalent(Build(x, a), Build(x, b))
  {
    hide Combines, ConfigOf, Valid;
    SameCount(a.counters, b.counters);
    if a.target.Some? {
      var t := x.target(a.target.value, Group in a.slots);
      if t.Some? {
        SimilarConfig(a.slots, a.output, a.diagnostics, a.counters, b.counters, t.value);
      }
    }
  }

  lemma SimilarConfig(slots: Slots, output: Option<Output>, diagnostics: Diagnostics, a: seq<Counter>, b: seq<Counter>,
                      target: TargetSpec)
    requires multiset(a) == multiset(b) && (a != [] <==> b != [])
    ensures var c := ConfigOf(slots, output, diagnostics, a, target);
      var d := ConfigOf(slots, output, diagnostics, b, target);
      SameBut(c, d) && (Valid(c) <==> Valid(d))
  {
    hide MemoryDumps, SignalList, Timed, NumberOr;
  }

  lemma {:induction false} ApplyAppended(x: Lexicon, items: seq<Item>, more: seq<Item>, d: Draft)
    ensures ApplyAll(x, items + more, d) ==
            match ApplyAll(x, items, d)
            case None => None
            case Some(next) => ApplyAll(x, more, next)
    decreases |items|
  {
    hide Apply;
    if items == [] {
      assert items + more == more;
    } else {
      assert (items + more)[1..] == items[1..] + more;
      if Apply(x, items[0], d).Some? {
        ApplyAppended(x, items[1..], more, Apply(x, items[0], d).value);
      }
    }
  }

  lemma ApplyTwo(x: Lexicon, a: Item, b: Item, d: Draft)
    ensures ApplyAll(x, [a, b], d) == Two(x, a, b, d)
  {
    hide Apply;
    assert [a, b][1..] == [b];
    assert [b][1..] == [];
    if Apply(x, a, d).Some? {
      var m := Apply(x, a, d).value;
      assert ApplyAll(x, [b], m) == Apply(x, b, m) by {
        if Apply(x, b, m).Some? {
          assert ApplyAll(x, [], Apply(x, b, m).value) == Apply(x, b, m);
        }
      }
    }
  }

  lemma CountersCommute(x: Lexicon, a: Item, b: Item, d: Draft)
    requires BothCount(a, b)
    ensures Alike(Two(x, a, b, d), Two(x, b, a, d))
  {
  }

  lemma SwapPair(x: Lexicon, a: Item, b: Item, d: Draft)
    requires Proper(a) && Proper(b) && !Ordered(a, b)
    ensures Alike(Two(x, a, b, d), Two(x, b, a, d))
    ensures !BothCount(a, b) ==> Two(x, a, b, d) == Two(x, b, a, d)
  {
    hide Two, Proper, Similar;
    if BothCount(a, b) {
      CountersCommute(x, a, b, d);
    } else {
      Commute(x, a, b, d);
      if Two(x, a, b, d).Some? {
        SimilarSelf(Two(x, a, b, d).value);
      }
    }
  }

  lemma SimilarSelf(d: Draft)
    ensures Similar(d, d)
  {
  }

  /** Exchanging two adjacent items of a list changes nothing but, for two counters, their order. */
  lemma SwapItems(x: Lexicon, before: seq<Item>, a: Item, b: Item, after: seq<Item>, d: Draft)
    requires Proper(a) && Proper(b) && !Ordered(a, b)
    ensures Alike(ApplyAll(x, before + ([a, b] + after), d), ApplyAll(x, before + ([b, a] + after), d))
    ensures !BothCount(a, b) ==>
      ApplyAll(x, before + ([a, b] + after), d) == ApplyAll(x, before + ([b, a] + after), d)
  {
    hide ApplyAll, Two, Proper, Similar;
    ApplyAppended(x, before, [a, b] + after, d);
    ApplyAppended(x, before, [b, a] + after, d);
    if ApplyAll(x, before, d).Some? {
      var m := ApplyAll(x, before, d).value;
      ApplyAppended(x, [a, b], after, m);
      ApplyAppended(x, [b, a], after, m);
      ApplyTwo(x, a, b, m);
      ApplyTwo(x, b, a, m);
      SwapPair(x, a, b, m);
      if Two(x, a, b, m).Some? {
        AlikeAll(x, after, Two(x, a, b, m).value, Two(x, b, a, m).value);
      }
    }
  }

  // ----- lines made of complete options

  /** The words of one complete option. */
  datatype Chunk = Chunk(words: seq<string>, item: Item)

  /** On its own the chunk is read as its item, whole; and it does not begin with the word that `restrack` would
      take. */
  predicate Complete(x: Lexicon, c: Chunk) {
    && c.words != [] && !x.noDump(c.words[0])
    && ReadItem(x, c.words) == Some(Read(c.item, |c.words|))
  }

  function Words(chunks: seq<Chunk>): seq<string> {
    if chunks == [] then [] else chunks[0].words + Words(chunks[1..])
  }

  function Items(chunks: seq<Chunk>): (items: seq<Item>)
    ensures |items| == |chunks|
  {
    if chunks == [] then [] else [chunks[0].item] + Items(chunks[1..])
  }

  lemma ReadsChunk(x: Lexicon, c: Chunk, rest: seq<string>)
    requires Complete(x, c) && (rest != [] ==> !x.noDump(rest[0]))
    ensures ReadItem(x, c.words + rest) == Some(Read(c.item, |c.words|))
  {
    var words := c.words + rest;
    assert words[0] == c.words[0];
    assert |c.words| > 1 ==> words[1] == c.words[1];
    assert |c.words| > 2 ==> words[2] == c.words[2];
    assert |c.words| == 1 && rest != [] ==> words[1] == rest[0];
  }

  lemma {:induction false} ReadsChunks(x: Lexicon, chunks: seq<Chunk>)
    requires forall c :: c in chunks ==> Complete(x, c)
    ensures ReadAll(x, Words(chunks)) == Some(Items(chunks))
    ensures Words(chunks) != [] ==> !x.noDump(Words(chunks)[0])
  {
    hide ReadItem;
    if chunks != [] {
      var c, rest := chunks[0], Words(chunks[1..]);
      ReadsChunks(x, chunks[1..]);
      ReadsChunk(x, c, rest);
      assert (c.words + rest)[|c.words|..] == rest;
    }
  }

  lemma ItemsStep(chunks: seq<Chunk>)
    requires chunks != []
    ensures Items(chunks) == [chunks[0].item] + Items(chunks[1..])
  {
  }

  lemma Associates(a: seq<Item>, b: seq<Item>, c: seq<Item>)
    ensures a + (b + c) == (a + b) + c
  {
  }

  lemma {:induction false} ItemsAppended(a: seq<Chunk>, b: seq<Chunk>)
    ensures Items(a + b) == Items(a) + Items(b)
  {
    if a == [] {
      assert a + b == b;
      assert Items(a) + Items(b) == Items(b);
    } else {
      hide Items;
      ItemsAppended(a[1..], b);
      assert (a + b)[0] == a[0] && (a + b)[1..] == a[1..] + b;
      ItemsStep(a + b);
      ItemsStep(a);
      Associates([a[0].item], Items(a[1..]), Items(b));
    }
  }

  lemma ItemsOfTwo(a: Chunk, b: Chunk, after: seq<Chunk>)
    ensures Items([a, b] + after) == [a.item, b.item] + Items(after)
  {
    assert ([a, b] + after)[1..] == [b] + after;
    assert ([b] + after)[1..] == after;
  }

  /** The order of complete options does not matter: exchanging two neighbours leaves a refused line refused and an
      accepted one accepted with the same configuration, except that two counters are listed the other way round.
      Two positional words or two `-log` options may not be exchanged, nor may a positional `nodump` be moved. */
  lemma OrderDoesNotMatter(x: Lexicon, before: seq<Chunk>, a: Chunk, b: Chunk, after: seq<Chunk>)
    requires forall c :: c in before + [a, b] + after ==> Complete(x, c)
    requires !Ordered(a.item, b.item)
    ensures var one, other := Parse(x, Words(before + ([a, b] + after))), Parse(x, Words(before + ([b, a] + after)));
      Equivalent(one, other) && (!BothCount(a.item, b.item) ==> one == other)
  {
    hide ReadItem, ReadAll, ApplyAll, Build, Words, Items, Similar, SameBut, Proper, Ordered;
    var one, other := before + ([a, b] + after), before + ([b, a] + after);
    assert a in before + [a, b] + after && b in before + [a, b] + after;
    ReadsChunks(x, one);
    ReadsChunks(x, other);
    ItemsAppended(before, [a, b] + after);
    ItemsAppended(before, [b, a] + after);
    ItemsOfTwo(a, b, after);
    ItemsOfTwo(b, a, after);
    ReadsProper(x, a.words);
    ReadsProper(x, b.words);
    SwapItems(x, Items(before), a.item, b.item, Items(after), Start(x));
    var d, e := ApplyAll(x, Items(one), Start(x)), ApplyAll(x, Items(other), Start(x));
    if d.Some? {
      SimilarBuild(x, d.value, e.value);
    }
  }

  /** The exception is real: after `restrack` the word is its value, and the line has no target; before it, the word
      is the target. */
  lemma NoDumpIsTaken(x: Lexicon, restrack: string, word: string)
    requires x.tracking && x.key(restrack) == Some(Restrack) && x.key(word) == None && x.noDump(word)
    ensures Parse(x, [restrack, word]) == None
    ensures ReadAll(x, [word, restrack]) == Some([Positional(word), Set(Tracking, Yes)])
  {
    ReadsLast(x, [restrack, word], Set(Tracking, No));
    ReadsLast(x, [restrack], Set(Tracking, Yes));
    assert [word, restrack][1..] == [restrack];
    assert ReadItem(x, [word, restrack]) == Some(Read(Positional(word), 1));
    assert [Positional(word)] + [Set(Tracking, Yes)] == [Positional(word), Set(Tracking, Yes)];
    ApplyLast(x, Set(Tracking, No));
  }

  lemma ApplyLast(x: Lexicon, item: Item)
    requires item.Set?
    ensures ApplyAll(x, [item], Start(x)).Some? ==> ApplyAll(x, [item], Start(x)).value.target == None
  {
    assert [item][1..] == [];
  }

  lemma ReadsLast(x: Lexicon, args: seq<string>, item: Item)
    requires args != [] && ReadItem(x, args) == Some(Read(item, |args|))
    ensures ReadAll(x, args) == Some([item])
  {
    hide ReadItem;
    assert args[|args|..] == [];
    assert ReadAll(x, []) == Some([]);
    assert [item] + [] == [item];
  }
}
