/** What each option of an accepted line means, and which lines are accepted, stated on the words. */
module ArgumentMeaning {
  import opened Bytes
  import opened Arguments

  // ----- where the options begin

  /** How many words the option at `at` takes. */
  function Width(x: Lexicon, args: seq<string>, at: nat): (n: nat)
    requires at < |args|
    ensures n > 0
  {
    match x.key(args[at])
    case None => 1
    case Some(key) =>
      if key in {C, Cl, M, Ml, Gcm, Gcgen, Sr, Sig, Mc, Tc, Fc, Pf, S, N, Log, F, Fx} then 2
      else if key in {Pc, Pcl} then 3
      else if key == Restrack && at + 1 < |args| && x.noDump(args[at + 1]) then 2
      else 1
  }

  /** The positions, from `at` on, of the words that begin an option or are none. */
  function Begins(x: Lexicon, args: seq<string>, at: nat): (ps: seq<nat>)
    ensures forall k :: 0 <= k < |ps| ==> ps[k] < |args|
    decreases |args| - at
  {
    if at >= |args| then [] else [at] + Begins(x, args, at + Width(x, args, at))
  }

  /** One of these options is on the line. */
  ghost predicate Given(x: Lexicon, args: seq<string>, keys: set<Key>) {
    exists p :: p in Begins(x, args, 0) && IsKey(x, args, p, keys)
  }

  predicate IsKey(x: Lexicon, args: seq<string>, p: nat, keys: set<Key>)
    requires p < |args|
  {
    x.key(args[p]).Some? && x.key(args[p]).value in keys
  }

  /** The option at `at` has its values, they can be read, and the build has what it asks for. */
  predicate Readable(x: Lexicon, args: seq<string>, at: nat)
    requires at < |args|
  {
    match x.key(args[at])
    case None => true
    case Some(key) =>
      if key in {O, W, UseGcore} then true
      else if key == Pgid then x.linux
      else if key == E then x.dotnet
      else if key == Restrack then x.tracking
      else if key in {Pc, Pcl} then at + 2 < |args| && x.dotnet && x.counter(args[at + 1], args[at + 2])
      else at + 1 < |args| && ReadableValue(x, key, args[at + 1])
  }

  predicate ReadableValue(x: Lexicon, key: Key, v: string) {
    if key in {C, Cl, Tc, Fc, Pf, S} then x.number(v).Some?
    else if key in {M, Ml} then x.list(v).Some?
    else if key == Gcm then x.dotnet && x.gc(v).Some? && x.gc(v).value.GcMemory?
    else if key == Gcgen then x.dotnet && x.small(v).Some? && x.small(v).value <= 2
    else if key == Sr then x.tracking && x.number(v).Some? && x.number(v).value <= 2_147_483_647
    else if key == Sig then
      x.linux && x.ints(v).Some? && forall i :: 0 <= i < |x.ints(v).value| ==> x.ints(v).value[i] >= 0
    else if key == Mc then x.linux && x.hex(v).Some?
    else if key == N then x.number(v).Some? && x.number(v).value <= 100
    else if key == Log then x.log(v).Some?
    else if key == F then x.dotnet && x.filter(v)
    else if key == Fx then x.tracking
    else false
  }

  lemma ReadableValues(x: Lexicon, key: Key, v: string)
    ensures ValueItem(x, key, v).Some? <==> ReadableValue(x, key, v)
    ensures !TakesValue(key) ==> !ReadableValue(x, key, v)
  {
  }

  /** The word at `p` begins this item. */
  predicate ReadsAs(x: Lexicon, args: seq<string>, p: nat, item: Item) {
    p < |args| && ReadItem(x, args[p..]) == Some(Read(item, Width(x, args, p)))
  }

  lemma ReadsHere(x: Lexicon, args: seq<string>, at: nat)
    requires at < |args|
    ensures ReadItem(x, args[at..]).Some? <==> Readable(x, args, at)
    ensures Readable(x, args, at) ==>
      && ReadsAs(x, args, at, ReadItem(x, args[at..]).value.item)
      && at + Width(x, args, at) <= |args|
      && Proper(ReadItem(x, args[at..]).value.item)
  {
    hide ValueItem, ReadableValue, Proper;
    var rest := args[at..];
    assert rest[0] == args[at];
    assert |rest| > 1 ==> rest[1] == args[at + 1];
    assert |rest| > 2 ==> rest[2] == args[at + 2];
    if x.key(args[at]).Some? && |rest| > 1 {
      ReadableValues(x, x.key(args[at]).value, rest[1]);
    }
    if ReadItem(x, rest).Some? {
      ReadsProper(x, rest);
    }
  }

  /** The items of a line are those read where options begin. */
  lemma {:induction false} ReadsFrom(x: Lexicon, args: seq<string>, at: nat)
    requires at <= |args|
    ensures var ps, all := Begins(x, args, at), ReadAll(x, args[at..]);
      && (all.Some? <==> forall p :: p in ps ==> Readable(x, args, p))
      && (all.Some? ==>
            |all.value| == |ps| &&
            forall k :: 0 <= k < |ps| ==> Proper(all.value[k]) && ReadsAs(x, args, ps[k], all.value[k]))
    decreases |args| - at
  {
    hide ReadItem, Readable, Width, Proper;
    if at < |args| {
      ReadsHere(x, args, at);
      if Readable(x, args, at) {
        var next := at + Width(x, args, at);
        ReadsFrom(x, args, next);
        assert args[at..][Width(x, args, at)..] == args[next..];
      }
    }
  }

  // ----- what is written stays

  /** Flags may be given twice. */
  predicate IsFlag(slot: Slot) {
    slot in {Overwrite, Wait, Group, Gcore}
  }

  /** The slot holds what was written there; of a flag it only matters that it is there. */
  predicate Holds(slots: Slots, slot: Slot, value: Value) {
    slot in slots && (IsFlag(slot) || slots[slot] == value)
  }

  lemma TakesWhatItWrites(x: Lexicon, item: Item, d: Draft)
    requires Proper(item) && !Clashes(x, item, d)
    ensures forall s :: s in Writes(item) ==> Holds(Take(x, item, d).slots, s, Writes(item)[s])
    ensures forall s, v :: Holds(d.slots, s, v) ==> Holds(Take(x, item, d).slots, s, v)
    ensures forall s :: s in Take(x, item, d).slots ==> s in d.slots || s in Writes(item)
  {
  }

  lemma {:induction false} Kept(x: Lexicon, items: seq<Item>, d: Draft, slot: Slot, value: Value)
    requires (forall i :: 0 <= i < |items| ==> Proper(items[i])) && ApplyAll(x, items, d).Some?
    requires Holds(d.slots, slot, value)
    ensures Holds(ApplyAll(x, items, d).value.slots, slot, value)
    decreases |items|
  {
    hide Take, Clashes, Proper, Writes, Holds;
    if items != [] {
      TakesWhatItWrites(x, items[0], d);
      Kept(x, items[1..], Take(x, items[0], d), slot, value);
    }
  }

  lemma {:induction false} Written(x: Lexicon, items: seq<Item>, d: Draft, k: nat, slot: Slot)
    requires (forall i :: 0 <= i < |items| ==> Proper(items[i])) && ApplyAll(x, items, d).Some?
    requires k < |items| && slot in Writes(items[k])
    ensures Holds(ApplyAll(x, items, d).value.slots, slot, Writes(items[k])[slot])
    decreases |items|
  {
    hide Take, Clashes, Proper, Writes, Holds;
    TakesWhatItWrites(x, items[0], d);
    var next := Take(x, items[0], d);
    if k == 0 {
      Kept(x, items[1..], next, slot, Writes(items[0])[slot]);
    } else {
      Written(x, items[1..], next, k - 1, slot);
    }
  }

  lemma {:induction false} OnlyWritten(x: Lexicon, items: seq<Item>, d: Draft, slot: Slot)
    requires (forall i :: 0 <= i < |items| ==> Proper(items[i])) && ApplyAll(x, items, d).Some?
    requires slot in ApplyAll(x, items, d).value.slots
    ensures slot in d.slots || exists k :: 0 <= k < |items| && slot in Writes(items[k])
    decreases |items|
  {
    hide Take, Clashes, Proper, Writes;
    if items != [] {
      TakesWhatItWrites(x, items[0], d);
      OnlyWritten(x, items[1..], Take(x, items[0], d), slot);
      if k :| 0 <= k < |items[1..]| && slot in Writes(items[1..][k]) {
        assert items[k + 1] == items[1..][k];
      }
    }
  }

  // ----- what an option means

  /** The option at `p` of a line with this configuration. */
  ghost predicate Means(x: Lexicon, args: seq<string>, c: Config, p: nat)
    requires p < |args| && Readable(x, args, p)
  {
    match x.key(args[p])
    case None => true
    case Some(key) =>
      if key == O then c.overwrite
      else if key == W then c.wait
      else if key == UseGcore then c.gcore
      else if key == E then c.dotNet == Some(Exception)
      else if key == Restrack then
        c.tracking.Some? && c.tracking.value.generateDump == !(p + 1 < |args| && x.noDump(args[p + 1]))
      else if key in {Pc, Pcl, Pgid, Log} then true
      else MeansValue(x, key, args[p + 1], c)
  }

  ghost predicate MeansValue(x: Lexicon, key: Key, v: string, c: Config)
    requires ReadableValue(x, key, v)
  {
    if key == C then c.cpu == Some(Limit(x.number(v).value, false))
    else if key == Cl then c.cpu == Some(Limit(x.number(v).value, true))
    else if key == M then c.memory == Some(Limits(x.list(v).value, false))
    else if key == Ml then c.memory == Some(Limits(x.list(v).value, true))
    else if key == Tc then c.threads == Some(Number(x.number(v).value))
    else if key == Fc then c.descriptors == Some(Number(x.number(v).value))
    else if key == Pf then c.pollingMs == x.number(v).value
    else if key == S then c.seconds == x.number(v).value
    else if key == N then c.dumpCount == x.number(v).value
    else if key == Gcm then c.dotNet == x.gc(v)
    else if key == Gcgen then c.dotNet == Some(GcGeneration(x.small(v).value)) && c.dumpCount == 2
    else if key == Sr then
      c.tracking.Some? && c.tracking.value.sampleRate == (if x.number(v).value == 0 then 1 else x.number(v).value)
    else if key == Fx then c.tracking.Some? && c.tracking.value.exclude == Some(Text(v))
    else if key == Sig then c.signals == x.ints(v).value
    else if key == Mc then c.mask == Some(Number(x.hex(v).value))
    else if key == F then c.filter == Some(Text(v))
    else true
  }

  /** The draft that the items of an accepted line lead to. */
  lemma Drafted(x: Lexicon, args: seq<string>) returns (items: seq<Item>, d: Draft)
    requires Parse(x, args).Some?
    ensures ReadAll(x, args) == Some(items) && ApplyAll(x, items, Start(x)) == Some(d) && Parse(x, args) == Build(x, d)
    ensures var ps := Begins(x, args, 0);
      && |items| == |ps| && (forall p :: p in ps ==> Readable(x, args, p))
      && forall k :: 0 <= k < |ps| ==> Proper(items[k]) && ReadsAs(x, args, ps[k], items[k])
  {
    hide ReadAll, ApplyAll, Build, Proper, ReadsAs, Readable, Begins;
    assert args[0..] == args;
    ReadsFrom(x, args, 0);
    items := ReadAll(x, args).value;
    d := ApplyAll(x, items, Start(x)).value;
  }

  /** Each option of an accepted line, wherever it stands, decides its part of the configuration. */
  lemma OptionMeans(x: Lexicon, args: seq<string>, c: Config, k: nat)
    requires Parse(x, args) == Some(c) && k < |Begins(x, args, 0)|
    ensures var p := Begins(x, args, 0)[k]; Readable(x, args, p) && Means(x, args, c, p)
  {
    hide Parse, ReadAll, ApplyAll, Proper, Writes, Build, Readable, Means, ReadsAs, Holds, SlotMeans, FromSlots;
    var items, d := Drafted(x, args);
    var p := Begins(x, args, 0)[k];
    BuiltFromSlots(x, d, c);
    forall s | s in Writes(items[k]) ensures SlotMeans(s, Writes(items[k])[s], c) {
      Written(x, items, Start(x), k, s);
      HoldsMeans(d.slots, s, Writes(items[k])[s], c);
    }
    assert Readable(x, args, p);
    ItemMeans(x, args, p, items[k], c);
  }

  /** The configuration's fields are what the slots hold. */
  ghost predicate FromSlots(slots: Slots, c: Config) {
    && c.cpu == Get(slots, Cpu) && c.memory == Get(slots, Memory) && c.threads == Get(slots, Threads)
    && c.descriptors == Get(slots, Descriptors) && c.dotNet == Get(slots, DotNet) && c.filter == Get(slots, Filter)
    && c.mask == Get(slots, Mask) && c.signals == SignalList(slots)
    && c.pollingMs == NumberOr(Get(slots, Polling), 1000) && c.seconds == NumberOr(Get(slots, Seconds), 10)
    && (Count in slots ==> c.dumpCount == NumberOr(Get(slots, Count), 1))
    && (Overwrite in slots <==> c.overwrite) && (Wait in slots <==> c.wait) && (Gcore in slots <==> c.gcore)
    && (Tracking in slots || Sample in slots || Exclude in slots <==> c.tracking.Some?)
    && (c.tracking.Some? ==>
          && Tracking in slots && c.tracking.value.generateDump == (slots[Tracking] == Yes)
          && c.tracking.value.sampleRate == NumberOr(Get(slots, Sample), 1)
          && c.tracking.value.exclude == Get(slots, Exclude))
  }

  lemma BuiltFromSlots(x: Lexicon, d: Draft, c: Config)
    requires Build(x, d) == Some(c)
    ensures FromSlots(d.slots, c)
  {
    hide Valid, Timed, Exclusive, HasThreshold;
  }

  /** What a slot's value is for. */
  ghost predicate SlotMeans(slot: Slot, value: Value, c: Config) {
    match slot
    case Cpu => c.cpu == Some(value)
    case Memory => c.memory == Some(value)
    case Threads => c.threads == Some(value)
    case Descriptors => c.descriptors == Some(value)
    case Polling => value.Number? ==> c.pollingMs == value.n
    case Seconds => value.Number? ==> c.seconds == value.n
    case Count => value.Number? ==> c.dumpCount == value.n
    case Signals => value.Numbers? ==> c.signals == value.ints
    case DotNet => c.dotNet == Some(value)
    case Filter => c.filter == Some(value)
    case Tracking => c.tracking.Some? && c.tracking.value.generateDump == (value == Yes)
    case Sample => c.tracking.Some? && (value.Number? ==> c.tracking.value.sampleRate == value.n)
    case Exclude => c.tracking.Some? && c.tracking.value.exclude == Some(value)
    case Mask => c.mask == Some(value)
    case Overwrite => c.overwrite
    case Wait => c.wait
    case Gcore => c.gcore
    case Group => true
  }

  lemma HoldsMeans(slots: Slots, slot: Slot, value: Value, c: Config)
    requires FromSlots(slots, c) && Holds(slots, slot, value)
    ensures SlotMeans(slot, value, c)
  {
  }

  lemma BareItem(x: Lexicon, args: seq<string>, p: nat, item: Item, key: Key)
    requires ReadsAs(x, args, p, item) && x.key(args[p]) == Some(key)
    requires key in {O, W, UseGcore, E, Restrack}
    ensures item ==
            if key == O then Flag(Overwrite) else if key == W then Flag(Wait) else if key == UseGcore then Flag(Gcore)
            else if key == E then Set(DotNet, Exception)
            else Set(Tracking, if p + 1 < |args| && x.noDump(args[p + 1]) then No else Yes)
  {
    hide ValueItem, ReadCounter;
    assert args[p..][0] == args[p];
    assert |args[p..]| > 1 ==> args[p..][1] == args[p + 1];
  }

  lemma ItemWithValue(x: Lexicon, args: seq<string>, p: nat, item: Item, key: Key)
    requires ReadsAs(x, args, p, item) && x.key(args[p]) == Some(key) && TakesValue(key)
    ensures p + 1 < |args| && ValueItem(x, key, args[p + 1]) == Some(item)
  {
    hide ValueItem, ReadCounter, TakesValue;
    assert args[p..][0] == args[p];
    assert |args[p..]| > 1 ==> args[p..][1] == args[p + 1];
  }

  lemma ItemMeans(x: Lexicon, args: seq<string>, p: nat, item: Item, c: Config)
    requires p < |args| && Readable(x, args, p) && ReadsAs(x, args, p, item)
    requires forall s :: s in Writes(item) ==> SlotMeans(s, Writes(item)[s], c)
    ensures Means(x, args, c, p)
  {
    hide ValueItem, ReadableValue, MeansValue, ReadsAs;
    if x.key(args[p]).Some? {
      var key := x.key(args[p]).value;
      if key in {O, W, UseGcore, E, Restrack} {
        BareItem(x, args, p, item, key);
        BareMeans(item, c);
      } else if key !in {Pc, Pcl, Pgid} {
        if p + 1 < |args| {
          ReadableValues(x, key, args[p + 1]);
        }
        ItemWithValue(x, args, p, item, key);
        ValueMeans(x, key, args[p + 1], item, c);
      }
    }
  }

  lemma BareMeans(item: Item, c: Config)
    requires forall s :: s in Writes(item) ==> SlotMeans(s, Writes(item)[s], c)
    ensures item.Flag? ==> SlotMeans(item.slot, Yes, c)
    ensures item.Set? ==> SlotMeans(item.slot, item.value, c)
  {
    hide SlotMeans;
    if item.Flag? || item.Set? {
      assert item.slot in Writes(item);
    }
  }

  lemma ValueMeans(x: Lexicon, key: Key, v: string, item: Item, c: Config)
    requires ReadableValue(x, key, v) && ValueItem(x, key, v) == Some(item)
    requires forall s :: s in Writes(item) ==> SlotMeans(s, Writes(item)[s], c)
    ensures MeansValue(x, key, v, c)
  {
    hide FromSlots, ValueItem, ReadableValue, MeansValue, SlotMeans;
    if item.Set? {
      BareMeans(item, c);
      SetMeansValue(x, key, v, item, c);
    } else {
      assert item.SetGcMemory? ==> DotNet in Writes(item);
      assert item.SetGeneration? ==> DotNet in Writes(item) && Count in Writes(item);
      OtherMeansValue(x, key, v, item, c);
    }
  }

  lemma SetMeansValue(x: Lexicon, key: Key, v: string, item: Item, c: Config)
    requires ReadableValue(x, key, v) && ValueItem(x, key, v) == Some(item) && item.Set?
    requires SlotMeans(item.slot, item.value, c)
    ensures MeansValue(x, key, v, c)
  {
  }

  lemma OtherMeansValue(x: Lexicon, key: Key, v: string, item: Item, c: Config)
    requires ReadableValue(x, key, v) && ValueItem(x, key, v) == Some(item) && !item.Set?
    requires item.SetGcMemory? ==> SlotMeans(DotNet, item.value, c)
    requires item.SetGeneration? ==>
      SlotMeans(DotNet, GcGeneration(item.generation), c) && SlotMeans(Count, Number(2), c)
    ensures MeansValue(x, key, v, c)
  {
  }

  // ----- words, counters and logs

  /** The counters given, in order. */
  function CountersAt(x: Lexicon, args: seq<string>, ps: seq<nat>): seq<Counter>
    requires forall k :: 0 <= k < |ps| ==> ps[k] < |args|
  {
    if ps == [] then []
    else
      (if IsKey(x, args, ps[0], {Pc, Pcl}) && ps[0] + 2 < |args|
       then [Counter(args[ps[0] + 1], args[ps[0] + 2], IsKey(x, args, ps[0], {Pcl}))] else [])
      + CountersAt(x, args, ps[1..])
  }

  /** The words that are no options, in order. */
  function WordsAt(x: Lexicon, args: seq<string>, ps: seq<nat>): seq<string>
    requires forall k :: 0 <= k < |ps| ==> ps[k] < |args|
  {
    if ps == [] then []
    else (if x.key(args[ps[0]]).None? then [args[ps[0]]] else []) + WordsAt(x, args, ps[1..])
  }

  /** Where to log: what was said last, or else `otherwise`. */
  function LogAt(x: Lexicon, args: seq<string>, ps: seq<nat>, otherwise: Diagnostics): Diagnostics
    requires forall k :: 0 <= k < |ps| ==> ps[k] < |args|
  {
    if ps == [] then otherwise
    else
      LogAt(x, args, ps[1..],
            if IsKey(x, args, ps[0], {Log}) && ps[0] + 1 < |args| && x.log(args[ps[0] + 1]).Some?
            then x.log(args[ps[0] + 1]).value else otherwise)
  }

  /** The kind of an item tells the option, and the option the kind. */
  ghost predicate KindOf(key: Option<Key>, item: Item) {
    && (key.None? <==> item.Positional?)
    && (item.AddCounter? <==> key.Some? && key.value in {Pc, Pcl})
    && (item.SetLog? <==> key == Some(Log))
    && (item.SetGcMemory? <==> key == Some(Gcm))
    && (item.SetGeneration? <==> key == Some(Gcgen))
    && (item.Flag? ==> key == Some(KeyOfFlag(item.slot)) && IsFlag(item.slot))
    && (item.Set? ==> key.Some? && key.value in KeysOfSet(item.slot))
    && (key.Some? && key.value in {O, W, Pgid, UseGcore} ==> item.Flag?)
  }

  function KeyOfFlag(slot: Slot): Key {
    match slot
    case Overwrite => O
    case Wait => W
    case Group => Pgid
    case _ => UseGcore
  }

  function KeysOfSet(slot: Slot): set<Key> {
    match slot
    case Cpu => {C, Cl}
    case Memory => {M, Ml}
    case Threads => {Tc}
    case Descriptors => {Fc}
    case Polling => {Pf}
    case Seconds => {S}
    case Count => {N}
    case Signals => {Sig}
    case DotNet => {E}
    case Filter => {F}
    case Tracking => {Restrack}
    case Sample => {Sr}
    case Exclude => {Fx}
    case Mask => {Mc}
    case _ => {}
  }

  lemma ValueKind(x: Lexicon, key: Key, v: string)
    requires ValueItem(x, key, v).Some?
    ensures KindOf(Some(key), ValueItem(x, key, v).value)
  {
  }

  lemma ItemKind(x: Lexicon, args: seq<string>, p: nat, item: Item)
    requires ReadsAs(x, args, p, item)
    ensures KindOf(x.key(args[p]), item)
    ensures item.Positional? ==> item.text == args[p]
    ensures item.AddCounter? ==>
      p + 2 < |args| && item.counter == Counter(args[p + 1], args[p + 2], x.key(args[p]) == Some(Pcl))
    ensures item.SetLog? ==> p + 1 < |args| && x.log(args[p + 1]) == Some(item.diagnostics)
  {
    hide ValueItem;
    assert args[p..][0] == args[p];
    assert |args[p..]| > 1 ==> args[p..][1] == args[p + 1];
    assert |args[p..]| > 2 ==> args[p..][2] == args[p + 2];
    if x.key(args[p]).Some? && TakesValue(x.key(args[p]).value) {
      ValueKind(x, x.key(args[p]).value, args[p + 1]);
      LogValue(x, args[p + 1]);
    }
  }

  lemma LogValue(x: Lexicon, v: string)
    ensures ValueItem(x, Log, v) == if x.log(v).Some? then Some(SetLog(x.log(v).value)) else None
  {
  }

  function CountersOf(items: seq<Item>): seq<Counter> {
    if items == [] then []
    else (if items[0].AddCounter? then [items[0].counter] else []) + CountersOf(items[1..])
  }

  function TextsOf(items: seq<Item>): seq<string> {
    if items == [] then []
    else (if items[0].Positional? then [items[0].text] else []) + TextsOf(items[1..])
  }

  function LogOf(items: seq<Item>, otherwise: Diagnostics): Diagnostics {
    if items == [] then otherwise
    else LogOf(items[1..], if items[0].SetLog? then items[0].diagnostics else otherwise)
  }

  lemma {:induction false} WhatIsAt(x: Lexicon, args: seq<string>, ps: seq<nat>, items: seq<Item>, log: Diagnostics)
    requires |ps| == |items| && (forall k :: 0 <= k < |ps| ==> ps[k] < |args|)
    requires forall k :: 0 <= k < |ps| ==> ReadsAs(x, args, ps[k], items[k])
    ensures CountersOf(items) == CountersAt(x, args, ps) && TextsOf(items) == WordsAt(x, args, ps)
    ensures LogOf(items, log) == LogAt(x, args, ps, log)
  {
    hide ReadsAs;
    if ps != [] {
      assert ReadsAs(x, args, ps[0], items[0]);
      ItemKind(x, args, ps[0], items[0]);
      WhatIsAt(x, args, ps[1..], items[1..], if items[0].SetLog? then items[0].diagnostics else log);
    }
  }

  // ----- which items can be applied one after the other

  /** The first word is the target, the second the output. */
  function Placed(x: Lexicon, target: Option<string>, output: Option<Output>, texts: seq<string>)
    : Option<(Option<string>, Option<Output>)>
    decreases |texts|
  {
    if texts == [] then Some((target, output))
    else if target.None? then Placed(x, Some(texts[0]), output, texts[1..])
    else if output.None? && x.output(texts[0]).Some? then Placed(x, target, x.output(texts[0]), texts[1..])
    else None
  }

  lemma PlacedFromStart(x: Lexicon, texts: seq<string>)
    ensures var placed := Placed(x, None, None, texts);
      && (placed.Some? <==> |texts| <= 2 && (|texts| == 2 ==> x.output(texts[1]).Some?))
      && (placed.Some? ==> placed.value == (if texts == [] then None else Some(texts[0]),
                                            if |texts| < 2 then None else x.output(texts[1])))
  {
    if texts != [] {
      var target, rest := Some(texts[0]), texts[1..];
      assert Placed(x, None, None, texts) == Placed(x, target, None, rest);
      if rest != [] {
        assert rest[0] == texts[1];
        var output := x.output(rest[0]);
        if output.Some? {
          assert Placed(x, target, None, rest) == Placed(x, target, output, rest[1..]);
        }
      }
    }
  }

  predicate Plain(item: Item) {
    !item.AddCounter? && !item.Positional?
  }

  ghost predicate Fitting(x: Lexicon, items: seq<Item>, d: Draft) {
    && (forall i :: 0 <= i < |items| && Plain(items[i]) ==> !Clashes(x, items[i], d))
    && (forall i, j :: 0 <= i < j < |items| ==> !Conflict(items[i], items[j]))
    && (CountersOf(items) == [] || |d.counters| + |CountersOf(items)| <= 5)
    && Placed(x, d.target, d.output, TextsOf(items)).Some?
  }

  lemma ClashStep(x: Lexicon, a: Item, b: Item, d: Draft)
    requires Proper(a) && Proper(b) && Plain(b) && !Clashes(x, a, d)
    ensures Clashes(x, b, Take(x, a, d)) <==> Clashes(x, b, d) || Conflict(a, b)
  {
    hide Proper;
    if !b.SetLog? {
      ClashAfter(x, a, b, d);
    }
  }

  lemma PairStep(items: seq<Item>)
    requires items != []
    ensures (forall i, j :: 0 <= i < j < |items| ==> !Conflict(items[i], items[j])) <==>
            (forall j :: 0 < j < |items| ==> !Conflict(items[0], items[j])) &&
            (forall i, j :: 0 <= i < j < |items[1..]| ==> !Conflict(items[1..][i], items[1..][j]))
  {
    hide Conflict;
    if forall i, j :: 0 <= i < j < |items[1..]| ==> !Conflict(items[1..][i], items[1..][j]) {
      forall i, j | 0 < i < j < |items| ensures !Conflict(items[i], items[j]) {
        assert items[1..][i - 1] == items[i] && items[1..][j - 1] == items[j];
      }
    }
  }

  lemma FitStep(x: Lexicon, items: seq<Item>, d: Draft)
    requires items != [] && (forall i :: 0 <= i < |items| ==> Proper(items[i])) && !Clashes(x, items[0], d)
    requires |d.counters| <= 5
    ensures Fitting(x, items, d) <==> Fitting(x, items[1..], Take(x, items[0], d))
  {
    hide Proper, Clashes, Conflict, Writes;
    var a, rest, next := items[0], items[1..], Take(x, items[0], d);
    PairStep(items);
    CounterConflict(items);
    forall i | 0 < i < |items| && Plain(items[i])
      ensures Clashes(x, items[i], next) <==> Clashes(x, items[i], d) || Conflict(a, items[i])
    {
      ClashStep(x, a, items[i], d);
    }
    assert forall i :: 0 <= i < |rest| ==> rest[i] == items[i + 1];
    PlacedStep(x, items, d);
    CountStep(x, items, d);
    if Fitting(x, rest, next) {
      forall i | 0 <= i < |items| && Plain(items[i]) ensures !Clashes(x, items[i], d) {
        if i > 0 {
          assert rest[i - 1] == items[i];
        }
      }
      forall j | 0 < j < |items| ensures !Conflict(a, items[j]) {
        assert rest[j - 1] == items[j];
      }
    }
  }

  /** Only options with values and triggers exclude each other. */
  lemma CounterConflict(items: seq<Item>)
    ensures forall i, j :: 0 <= i < |items| && 0 <= j < |items| && !Plain(items[j]) ==> !Conflict(items[i], items[j])
  {
  }

  lemma PlacedStep(x: Lexicon, items: seq<Item>, d: Draft)
    requires items != [] && !Clashes(x, items[0], d)
    ensures var next := Take(x, items[0], d);
      Placed(x, d.target, d.output, TextsOf(items)) == Placed(x, next.target, next.output, TextsOf(items[1..]))
  {
    hide Writes;
    var more := if items[0].Positional? then [items[0].text] else [];
    assert TextsOf(items) == more + TextsOf(items[1..]);
    assert TextsOf(items)[|more|..] == TextsOf(items[1..]);
  }

  lemma CountStep(x: Lexicon, items: seq<Item>, d: Draft)
    requires items != [] && !Clashes(x, items[0], d) && |d.counters| <= 5
    ensures var next := Take(x, items[0], d);
      && |next.counters| <= 5 && next.counters + CountersOf(items[1..]) == d.counters + CountersOf(items)
      && (CountersOf(items) == [] || |d.counters| + |CountersOf(items)| <= 5 <==>
          CountersOf(items[1..]) == [] || |next.counters| + |CountersOf(items[1..])| <= 5)
  {
    hide Clashes, Take, CountersOf;
    var more := if items[0].AddCounter? then [items[0].counter] else [];
    FirstCounter(x, items, d);
    CountsAlike(d.counters, more, CountersOf(items[1..]));
  }

  lemma FirstCounter(x: Lexicon, items: seq<Item>, d: Draft)
    requires items != [] && !Clashes(x, items[0], d) && |d.counters| <= 5
    ensures var more := if items[0].AddCounter? then [items[0].counter] else [];
      && Take(x, items[0], d).counters == d.counters + more && |d.counters + more| <= 5
      && CountersOf(items) == more + CountersOf(items[1..])
  {
    hide Writes;
  }

  lemma CountsAlike<T>(before: seq<T>, more: seq<T>, rest: seq<T>)
    requires |before + more| <= 5
    ensures before + more + rest == before + (more + rest)
    ensures more + rest == [] || |before| + |more + rest| <= 5 <==> rest == [] || |before + more| + |rest| <= 5
  {
  }

  /** The items of a line can be applied exactly when they fit; and what comes of it, apart from the slots. */
  lemma {:induction false} AppliesIff(x: Lexicon, items: seq<Item>, d: Draft)
    requires (forall i :: 0 <= i < |items| ==> Proper(items[i])) && |d.counters| <= 5
    ensures ApplyAll(x, items, d).Some? <==> Fitting(x, items, d)
    ensures ApplyAll(x, items, d).Some? ==>
      var e := ApplyAll(x, items, d).value;
      && e.counters == d.counters + CountersOf(items)
      && e.diagnostics == LogOf(items, d.diagnostics)
      && Placed(x, d.target, d.output, TextsOf(items)) == Some((e.target, e.output))
    decreases |items|
  {
    hide Proper, Conflict, Fitting, Placed;
    if items == [] {
      NothingFits(x, d);
      assert d.counters + [] == d.counters;
    } else if Clashes(x, items[0], d) {
      FirstClashes(x, items, d);
    } else {
      var next := Take(x, items[0], d);
      FitStep(x, items, d);
      PlacedStep(x, items, d);
      CountStep(x, items, d);
      AppliesIff(x, items[1..], next);
    }
  }

  lemma NothingFits(x: Lexicon, d: Draft)
    ensures Fitting(x, [], d) && Placed(x, d.target, d.output, []) == Some((d.target, d.output))
  {
  }

  lemma FirstClashes(x: Lexicon, items: seq<Item>, d: Draft)
    requires items != [] && Clashes(x, items[0], d) && |d.counters| <= 5
    ensures !Fitting(x, items, d)
  {
  }

  // ----- which options exclude each other

  predicate Excludes(a: Key, b: Key) {
    || (a in {C, Cl} && b in {C, Cl})
    || (a in {M, Ml, Gcm} && b in {M, Ml, Gcm})
    || (a in {Gcm, Gcgen, E} && b in {Gcm, Gcgen, E})
    || (a in {N, Gcgen} && b in {N, Gcgen})
    || (a == b && a in {Tc, Fc, Pf, S, Sig, Mc, Sr, Restrack, F, Fx})
  }

  lemma ConflictIff(a: Item, b: Item, ka: Option<Key>, kb: Option<Key>)
    requires Proper(a) && Proper(b) && KindOf(ka, a) && KindOf(kb, b)
    ensures Conflict(a, b) <==> ka.Some? && kb.Some? && Excludes(ka.value, kb.value)
  {
    hide Typed;
    if a.Set? {
      SetExcludes(a, b, ka.value, kb);
    } else if b.Set? {
      SetExcludes(b, a, kb.value, ka);
    }
  }

  lemma SetExcludes(a: Item, b: Item, ka: Key, kb: Option<Key>)
    requires a.Set? && Proper(a) && Proper(b) && KindOf(Some(ka), a) && KindOf(kb, b)
    ensures Conflict(a, b) <==> kb.Some? && Excludes(ka, kb.value)
    ensures Conflict(a, b) == Conflict(b, a) && (kb.Some? ==> Excludes(ka, kb.value) == Excludes(kb.value, ka))
  {
    hide Typed;
  }

  /** Two options of the line exclude each other. */
  ghost predicate Excluded(x: Lexicon, args: seq<string>, p: nat, q: nat)
    requires p < |args| && q < |args|
  {
    x.key(args[p]).Some? && x.key(args[q]).Some? && Excludes(x.key(args[p]).value, x.key(args[q]).value)
  }

  // ----- which slots are filled

  /** The options that fill a slot. */
  function KeysOf(slot: Slot): set<Key> {
    if IsFlag(slot) then {KeyOfFlag(slot)}
    else if slot == Count then {N, Gcgen}
    else if slot == DotNet then {E, Gcm, Gcgen}
    else KeysOfSet(slot)
  }

  lemma WritesIff(key: Option<Key>, item: Item, slot: Slot)
    requires KindOf(key, item) && Proper(item)
    ensures slot in Writes(item) <==> key.Some? && key.value in KeysOf(slot)
  {
    hide Typed;
  }

  /** The items of a line and the draft they lead to. */
  ghost predicate Leads(x: Lexicon, args: seq<string>, items: seq<Item>, d: Draft) {
    var ps := Begins(x, args, 0);
    && ApplyAll(x, items, Start(x)) == Some(d) && Sound(d)
    && |items| == |ps| && (forall k :: 0 <= k < |ps| ==> Readable(x, args, ps[k]))
    && (forall k :: 0 <= k < |ps| ==> Proper(items[k]) && ReadsAs(x, args, ps[k], items[k]))
  }

  lemma SlotIff(x: Lexicon, args: seq<string>, items: seq<Item>, d: Draft, slot: Slot)
    requires Leads(x, args, items, d)
    ensures slot in d.slots <==> (slot == Gcore && !x.linux) || Given(x, args, KeysOf(slot))
  {
    hide Proper, ReadsAs, Readable, ApplyAll, Writes, KeysOf, Begins, Holds, Sound, KindOf;
    var ps := Begins(x, args, 0);
    forall k | 0 <= k < |ps|
      ensures slot in Writes(items[k]) <==> IsKey(x, args, ps[k], KeysOf(slot))
    {
      KindHere(x, args, ps[k], items[k]);
      WritesIff(x.key(args[ps[k]]), items[k], slot);
    }
    if slot in d.slots {
      OnlyWritten(x, items, Start(x), slot);
      if k :| 0 <= k < |items| && slot in Writes(items[k]) {
        assert ps[k] in ps;
      }
    }
    if Given(x, args, KeysOf(slot)) {
      var p :| p in ps && IsKey(x, args, p, KeysOf(slot));
      var k :| 0 <= k < |ps| && ps[k] == p;
      Written(x, items, Start(x), k, slot);
      HeldIsThere(d.slots, slot, Writes(items[k])[slot]);
    }
    if slot == Gcore && !x.linux {
      HeldAtStart(x);
      Kept(x, items, Start(x), Gcore, Yes);
      HeldIsThere(d.slots, Gcore, Yes);
    }
  }

  lemma KindHere(x: Lexicon, args: seq<string>, p: nat, item: Item)
    requires ReadsAs(x, args, p, item)
    ensures p < |args| && KindOf(x.key(args[p]), item)
  {
    hide KindOf;
    ItemKind(x, args, p, item);
  }

  lemma HeldIsThere(slots: Slots, slot: Slot, value: Value)
    requires Holds(slots, slot, value)
    ensures slot in slots && (!IsFlag(slot) ==> slots[slot] == value)
  {
  }

  lemma HeldAtStart(x: Lexicon)
    requires !x.linux
    ensures Holds(Start(x).slots, Gcore, Yes)
  {
  }

  // ----- what holds of an option that is absent

  /** What the configuration has where nothing was given. */
  ghost predicate Default(slot: Slot, c: Config) {
    match slot
    case Cpu => c.cpu == None
    case Memory => c.memory == None
    case Threads => c.threads == None
    case Descriptors => c.descriptors == None
    case Polling => c.pollingMs == 1000
    case Seconds => c.seconds == 10
    case Count => c.dumpCount == if MemoryThresholds(c) > 1 then MemoryThresholds(c) else 1
    case Signals => c.signals == []
    case DotNet => c.dotNet == None
    case Filter => c.filter == None
    case Tracking => c.tracking == None
    case Sample => c.tracking.Some? ==> c.tracking.value.sampleRate == 1
    case Exclude => c.tracking.Some? ==> c.tracking.value.exclude == None
    case Mask => c.mask == None
    case Overwrite => !c.overwrite
    case Wait => !c.wait
    case Gcore => !c.gcore
    case Group => true
  }

  lemma LeadsHere(x: Lexicon, args: seq<string>) returns (items: seq<Item>, d: Draft)
    requires Parse(x, args).Some?
    ensures Leads(x, args, items, d) && Parse(x, args) == Build(x, d)
  {
    hide ReadAll, ApplyAll, Build, Proper, ReadsAs, Readable, Begins, Sound;
    items, d := Drafted(x, args);
    var ps := Begins(x, args, 0);
    forall k | 0 <= k < |ps| ensures Readable(x, args, ps[k]) {
      assert ps[k] in ps;
    }
    SoundHere(x, args, d);
  }

  lemma SoundHere(x: Lexicon, args: seq<string>, d: Draft)
    requires ReadAll(x, args).Some? && ApplyAll(x, ReadAll(x, args).value, Start(x)) == Some(d)
    ensures Sound(d)
  {
    hide ReadAll, ApplyAll, Run;
    RunReadsThenApplies(x, args, Start(x));
    SoundRun(x, args, Start(x));
  }

  /** What is not given has its default. */
  lemma AbsentMeans(x: Lexicon, args: seq<string>, c: Config, slot: Slot)
    requires Parse(x, args) == Some(c) && !Given(x, args, KeysOf(slot))
    ensures if slot == Gcore && !x.linux then c.gcore else Default(slot, c)
  {
    hide Parse, Leads, Build, Given, FromSlots, MemoryThresholds, Sound, Default;
    var items, d := LeadsHere(x, args);
    SlotIff(x, args, items, d, slot);
    BuiltFromSlots(x, d, c);
    SoundLed(x, args, items, d);
    DefaultCount(x, d, c);
    AbsentSlot(d.slots, c, slot);
  }

  lemma SoundLed(x: Lexicon, args: seq<string>, items: seq<Item>, d: Draft)
    requires Leads(x, args, items, d)
    ensures Sound(d)
  {
  }

  lemma AbsentSlot(slots: Slots, c: Config, slot: Slot)
    requires FromSlots(slots, c)
    requires Count !in slots ==> c.dumpCount == if MemoryThresholds(c) > 1 then MemoryThresholds(c) else 1
    ensures slot !in slots ==> Default(slot, c)
    ensures Gcore in slots ==> c.gcore
  {
    hide MemoryThresholds;
  }

  lemma DefaultCount(x: Lexicon, d: Draft, c: Config)
    requires Build(x, d) == Some(c) && Sound(d)
    ensures Count !in d.slots ==> c.dumpCount == if MemoryThresholds(c) > 1 then MemoryThresholds(c) else 1
  {
    hide Valid, Timed, Combines;
  }

  // ----- words, counters, logging and the clock

  /** The rest of the configuration: the words, the counters, the logging, and whether dumps are taken by the clock. */
  lemma RestMeans(x: Lexicon, args: seq<string>, c: Config)
    requires Parse(x, args) == Some(c)
    ensures var ps := Begins(x, args, 0);
      var words := WordsAt(x, args, ps);
      && 1 <= |words| <= 2
      && x.target(words[0], Given(x, args, {Pgid})) == Some(c.target)
      && (if |words| == 2 then x.output(words[1]) == Some(c.output) else c.output == Output(".", None))
      && c.counters == CountersAt(x, args, ps)
      && c.diagnostics == LogAt(x, args, ps, NoLog)
    ensures c.timer <==>
      && c.signals == [] && c.dotNet != Some(Exception)
      && ((c.tracking.Some? && Given(x, args, {S}) && c.seconds > 0) ||
          (c.cpu == c.memory == c.threads == c.descriptors == None && c.counters == [] && c.dotNet == None
           && c.tracking == None))
  {
    hide Parse, Begins, Readable, ReadsAs, Proper, WordsAt, CountersAt, LogAt, Given, Sound, Build, Placed;
    var items, d := LeadsHere(x, args);
    var ps := Begins(x, args, 0);
    AppliesIff(x, items, Start(x));
    WhatIsAt(x, args, ps, items, NoLog);
    PlacedFromStart(x, TextsOf(items));
    SlotIff(x, args, items, d, Group);
    SlotIff(x, args, items, d, Seconds);
    assert KeysOf(Group) == {Pgid} && KeysOf(Seconds) == {S};
    BuiltRest(x, d, c);
    SoundLed(x, args, items, d);
    BuiltTimer(x, d, c);
  }

  lemma BuiltRest(x: Lexicon, d: Draft, c: Config)
    requires Build(x, d) == Some(c)
    ensures d.target.Some? && x.target(d.target.value, Group in d.slots) == Some(c.target)
    ensures c.output == if d.output.Some? then d.output.value else Output(".", None)
    ensures c.counters == d.counters && c.diagnostics == d.diagnostics
  {
    hide Valid, Combines, Timed;
  }

  lemma BuiltTimer(x: Lexicon, d: Draft, c: Config)
    requires Build(x, d) == Some(c) && Sound(d)
    ensures c.timer <==>
      && c.signals == [] && c.dotNet != Some(Exception)
      && ((c.tracking.Some? && Seconds in d.slots && c.seconds > 0) ||
          (c.cpu == c.memory == c.threads == c.descriptors == None && c.counters == [] && c.dotNet == None
           && c.tracking == None))
  {
    hide Valid, Combines;
  }

  // ----- which lines are accepted

  /** How many memory thresholds the option at `p` gives. */
  function Thresholds(x: Lexicon, args: seq<string>, p: nat): nat
    requires p < |args| && Readable(x, args, p)
  {
    if IsKey(x, args, p, {M, Ml}) then |x.list(args[p + 1]).value|
    else if IsKey(x, args, p, {Gcm}) then |x.gc(args[p + 1]).value.thresholds|
    else 0
  }

  predicate Catchable(signals: seq<int>) {
    forall i :: 0 <= i < |signals| ==> 1 <= signals[i] <= 64 && signals[i] != 9 && signals[i] != 19
  }

  /** The word after `p` is a number above zero. */
  predicate PositiveAt(x: Lexicon, args: seq<string>, p: nat) {
    p + 1 < |args| && x.number(args[p + 1]).Some? && x.number(args[p + 1]).value > 0
  }

  /** The word after `p` lists signals, all of which can be caught. */
  predicate CatchableAt(x: Lexicon, args: seq<string>, p: nat) {
    p + 1 < |args| && x.ints(args[p + 1]).Some? && Catchable(x.ints(args[p + 1]).value)
  }

  /** The word after `p` lists at least one signal. */
  predicate SignalsAt(x: Lexicon, args: seq<string>, p: nat) {
    p + 1 < |args| && x.ints(args[p + 1]).Some? && x.ints(args[p + 1]).value != []
  }

  /** The option's own value is one that is accepted on this line. */
  ghost predicate Sensible(x: Lexicon, args: seq<string>, p: nat)
    requires p < |args| && Readable(x, args, p)
  {
    && (IsKey(x, args, p, {N, Pf}) ==> PositiveAt(x, args, p))
    && (IsKey(x, args, p, {Sig}) ==> CatchableAt(x, args, p))
    && (Thresholds(x, args, p) > 1 ==> Thresholds(x, args, p) <= 100 && !Given(x, args, {N, Gcgen}))
    && (IsKey(x, args, p, {E}) || (IsKey(x, args, p, {Sig}) && SignalsAt(x, args, p)) ==>
          !Given(x, args, {C, Cl, M, Ml, Tc, Fc, Pc, Pcl, Pf}))
  }

  predicate Exists(target: TargetSpec) {
    (target.Pid? ==> target.pid > 0) && (target.ProcessGroup? ==> target.group > 0)
  }

  /** The words name a target, and an output that suits it. */
  ghost predicate Aimed(x: Lexicon, args: seq<string>, words: seq<string>) {
    && 1 <= |words| <= 2
    && var target := x.target(words[0], Given(x, args, {Pgid}));
    && target.Some? && Exists(target.value)
    && (Given(x, args, {W}) ==> target.value.Name?)
    && (|words| == 2 ==>
          && x.output(words[1]).Some?
          && (Given(x, args, {Pgid, W}) ==> x.output(words[1]).value.fileName.None?))
  }

  /** Lines that should be accepted. */
  ghost predicate Acceptable(x: Lexicon, args: seq<string>) {
    var ps := Begins(x, args, 0);
    && (forall k :: 0 <= k < |ps| ==> Readable(x, args, ps[k]) && Sensible(x, args, ps[k]))
    && (forall j, k :: 0 <= j < k < |ps| ==> !Excluded(x, args, ps[j], ps[k]))
    && |CountersAt(x, args, ps)| <= 5
    && Aimed(x, args, WordsAt(x, args, ps))
    && (Given(x, args, {F}) ==> Given(x, args, {E}))
    && (Given(x, args, {Sr, Fx}) ==> Given(x, args, {Restrack}))
  }

  /** The items of a line fit exactly when no two of its options exclude each other, and there are neither too many
      counters nor too many words. */
  lemma FitsIff(x: Lexicon, args: seq<string>, items: seq<Item>)
    requires var ps := Begins(x, args, 0);
      |items| == |ps| && forall k :: 0 <= k < |ps| ==> Proper(items[k]) && ReadsAs(x, args, ps[k], items[k])
    ensures var ps := Begins(x, args, 0);
      var words := WordsAt(x, args, ps);
      ApplyAll(x, items, Start(x)).Some? <==>
        && (forall j, k :: 0 <= j < k < |ps| ==> !Excluded(x, args, ps[j], ps[k]))
        && |CountersAt(x, args, ps)| <= 5
        && |words| <= 2 && (|words| == 2 ==> x.output(words[1]).Some?)
  {
    hide Proper, ReadsAs, Begins, ApplyAll, Conflict, WordsAt, CountersAt, CountersOf, TextsOf, Placed, KindOf, Clashes;
    var ps := Begins(x, args, 0);
    AppliesIff(x, items, Start(x));
    WhatIsAt(x, args, ps, items, NoLog);
    PlacedFromStart(x, TextsOf(items));
    forall j, k | 0 <= j < k < |ps| ensures Conflict(items[j], items[k]) <==> Excluded(x, args, ps[j], ps[k]) {
      KindHere(x, args, ps[j], items[j]);
      KindHere(x, args, ps[k], items[k]);
      ConflictIff(items[j], items[k], x.key(args[ps[j]]), x.key(args[ps[k]]));
    }
    forall i | 0 <= i < |items| && Plain(items[i]) ensures !Clashes(x, items[i], Start(x)) {
      NothingClashes(x, items[i]);
    }
    if ApplyAll(x, items, Start(x)).Some? {
      FittingMeans(x, items);
    }
  }

  lemma NothingClashes(x: Lexicon, item: Item)
    requires Plain(item) && Proper(item)
    ensures !Clashes(x, item, Start(x))
  {
  }

  lemma FittingMeans(x: Lexicon, items: seq<Item>)
    requires Fitting(x, items, Start(x))
    ensures |CountersOf(items)| <= 5 && Placed(x, None, None, TextsOf(items)).Some?
    ensures forall i, j :: 0 <= i < j < |items| ==> !Conflict(items[i], items[j])
  {
    hide Conflict, Placed, TextsOf;
  }

  // ----- the checks over the whole line, on the words

  lemma CountersGiven(x: Lexicon, args: seq<string>)
    requires forall k :: 0 <= k < |Begins(x, args, 0)| ==> Readable(x, args, Begins(x, args, 0)[k])
    ensures CountersAt(x, args, Begins(x, args, 0)) != [] <==> Given(x, args, {Pc, Pcl})
  {
    hide Begins, Readable;
    var ps := Begins(x, args, 0);
    CountersThere(x, args, ps);
    if k :| 0 <= k < |ps| && IsKey(x, args, ps[k], {Pc, Pcl}) {
      assert ps[k] in ps;
    }
  }

  lemma {:induction false} CountersThere(x: Lexicon, args: seq<string>, ps: seq<nat>)
    requires forall k :: 0 <= k < |ps| ==> ps[k] < |args|
    requires forall k :: 0 <= k < |ps| ==> Readable(x, args, ps[k])
    ensures CountersAt(x, args, ps) != [] <==> exists k :: 0 <= k < |ps| && IsKey(x, args, ps[k], {Pc, Pcl})
  {
    if ps != [] {
      assert Readable(x, args, ps[0]);
      CountersThere(x, args, ps[1..]);
      hide Readable, IsKey;
      if k :| 0 <= k < |ps[1..]| && IsKey(x, args, ps[1..][k], {Pc, Pcl}) {
        assert ps[k + 1] == ps[1..][k];
      }
      if k :| 0 < k < |ps| && IsKey(x, args, ps[k], {Pc, Pcl}) {
        assert ps[1..][k - 1] == ps[k];
      }
    }
  }

  /** What the option at `p` put into its slot is still there. */
  lemma SlotAt(x: Lexicon, args: seq<string>, items: seq<Item>, d: Draft, k: nat, key: Key)
    requires Leads(x, args, items, d) && k < |items|
    requires var p := Begins(x, args, 0)[k]; x.key(args[p]) == Some(key) && TakesValue(key)
    ensures var p := Begins(x, args, 0)[k];
      && p + 1 < |args| && ValueItem(x, key, args[p + 1]) == Some(items[k])
      && forall s :: s in Writes(items[k]) ==> Holds(d.slots, s, Writes(items[k])[s])
  {
    hide Proper, ReadsAs, Readable, ApplyAll, Writes, Begins, Holds, Sound, TakesValue, ValueItem;
    var p := Begins(x, args, 0)[k];
    ItemWithValue(x, args, p, items[k], key);
    forall s | s in Writes(items[k]) ensures Holds(d.slots, s, Writes(items[k])[s]) {
      Written(x, items, Start(x), k, s);
    }
  }

  lemma MemoryAt(x: Lexicon, args: seq<string>, items: seq<Item>, d: Draft, k: nat)
    requires Leads(x, args, items, d) && k < |items|
    ensures var p := Begins(x, args, 0)[k];
      Thresholds(x, args, p) > 0 ==> MemoryDumps(d.slots) == Thresholds(x, args, p)
  {
    hide ReadsAs, Readable, ApplyAll, Begins, Proper;
    var p := Begins(x, args, 0)[k];
    if Thresholds(x, args, p) > 0 {
      var key := x.key(args[p]).value;
      SlotAt(x, args, items, d, k, key);
      if key == Gcm {
        assert DotNet in Writes(items[k]);
      } else {
        assert Memory in Writes(items[k]);
      }
    }
  }

  lemma SomewhereGiven(x: Lexicon, args: seq<string>, keys: set<Key>) returns (k: nat)
    requires Given(x, args, keys)
    ensures k < |Begins(x, args, 0)| && IsKey(x, args, Begins(x, args, 0)[k], keys)
  {
    var p :| p in Begins(x, args, 0) && IsKey(x, args, p, keys);
    k :| 0 <= k < |Begins(x, args, 0)| && Begins(x, args, 0)[k] == p;
  }

  /** Several thresholds come from one option. */
  lemma DumpsSomewhere(x: Lexicon, args: seq<string>, items: seq<Item>, d: Draft) returns (k: nat)
    requires Leads(x, args, items, d) && MemoryDumps(d.slots) > 1
    ensures k < |Begins(x, args, 0)| && Thresholds(x, args, Begins(x, args, 0)[k]) == MemoryDumps(d.slots)
  {
    hide ReadsAs, Readable, ApplyAll, Begins, Proper, Given;
    SlotIff(x, args, items, d, Memory);
    SlotIff(x, args, items, d, DotNet);
    assert KeysOf(Memory) == {M, Ml} && KeysOf(DotNet) == {E, Gcm, Gcgen};
    if Memory in d.slots {
      k := SomewhereGiven(x, args, {M, Ml});
      SlotAt(x, args, items, d, k, x.key(args[Begins(x, args, 0)[k]]).value);
      assert Memory in Writes(items[k]);
    } else {
      k := GcmSomewhere(x, args, items, d);
      SlotAt(x, args, items, d, k, Gcm);
      assert DotNet in Writes(items[k]);
    }
  }

  lemma ExceptionAt(x: Lexicon, args: seq<string>, items: seq<Item>, d: Draft, k: nat)
    requires Leads(x, args, items, d) && k < |items| && x.key(args[Begins(x, args, 0)[k]]) == Some(E)
    ensures Get(d.slots, DotNet) == Some(Exception)
  {
    hide Readable, ApplyAll, Begins, Proper, ReadsAs;
    BareItem(x, args, Begins(x, args, 0)[k], items[k], E);
    Written(x, items, Start(x), k, DotNet);
  }

  lemma GenerationAt(x: Lexicon, args: seq<string>, items: seq<Item>, d: Draft, k: nat)
    requires Leads(x, args, items, d) && k < |items| && x.key(args[Begins(x, args, 0)[k]]) == Some(Gcgen)
    ensures Get(d.slots, Count) == Some(Number(2)) && DotNet in d.slots && d.slots[DotNet].GcGeneration?
  {
    hide Readable, ApplyAll, Begins, Proper, ReadsAs;
    SlotAt(x, args, items, d, k, Gcgen);
    assert DotNet in Writes(items[k]) && Count in Writes(items[k]);
  }

  lemma GcmSomewhere(x: Lexicon, args: seq<string>, items: seq<Item>, d: Draft) returns (k: nat)
    requires Leads(x, args, items, d) && DotNet in d.slots && d.slots[DotNet].GcMemory?
    ensures k < |Begins(x, args, 0)| && x.key(args[Begins(x, args, 0)[k]]) == Some(Gcm)
  {
    hide Readable, ApplyAll, Begins, Proper, Given, ReadsAs;
    SlotIff(x, args, items, d, DotNet);
    k := SomewhereGiven(x, args, {E, Gcm, Gcgen});
    var p := Begins(x, args, 0)[k];
    var key := x.key(args[p]).value;
    if key == E {
      ExceptionAt(x, args, items, d, k);
    } else if key == Gcgen {
      GenerationAt(x, args, items, d, k);
    }
  }

  /** What an option with a number or signals gave is in its slot. */
  lemma NumberAt(x: Lexicon, args: seq<string>, items: seq<Item>, d: Draft, k: nat, key: Key)
    requires Leads(x, args, items, d) && k < |items| && key in {N, Pf, Sig}
    requires x.key(args[Begins(x, args, 0)[k]]) == Some(key)
    ensures var p := Begins(x, args, 0)[k];
      && p + 1 < |args| && ReadableValue(x, key, args[p + 1])
      && var v := args[p + 1];
      Get(d.slots, if key == N then Count else if key == Pf then Polling else Signals) ==
      Some(if key == Sig then Numbers(x.ints(v).value) else Number(x.number(v).value))
  {
    hide Readable, ApplyAll, Begins, Proper, ReadsAs;
    HasValue(x, args, items, d, k, key);
    SlotAt(x, args, items, d, k, key);
    assert items[k].slot in Writes(items[k]);
  }

  lemma HasValue(x: Lexicon, args: seq<string>, items: seq<Item>, d: Draft, k: nat, key: Key)
    requires Leads(x, args, items, d) && k < |items| && key in {N, Pf, Sig}
    requires x.key(args[Begins(x, args, 0)[k]]) == Some(key)
    ensures var p := Begins(x, args, 0)[k]; p + 1 < |args| && ReadableValue(x, key, args[p + 1])
  {
    hide ReadableValue, ApplyAll, Begins, Proper, ReadsAs;
    assert Readable(x, args, Begins(x, args, 0)[k]);
  }

  lemma PollingAt(x: Lexicon, args: seq<string>, items: seq<Item>, d: Draft, k: nat)
    requires Leads(x, args, items, d) && k < |items| && IsKey(x, args, Begins(x, args, 0)[k], {Pf})
    ensures NumberOr(Get(d.slots, Polling), 1000) > 0 <==> PositiveAt(x, args, Begins(x, args, 0)[k])
  {
    hide Leads, Begins, Readable;
    NumberAt(x, args, items, d, k, Pf);
  }

  lemma PollingIff(x: Lexicon, args: seq<string>, items: seq<Item>, d: Draft)
    requires Leads(x, args, items, d)
    ensures var ps := Begins(x, args, 0);
      NumberOr(Get(d.slots, Polling), 1000) > 0 <==>
      forall k :: 0 <= k < |ps| && IsKey(x, args, ps[k], {Pf}) ==> PositiveAt(x, args, ps[k])
  {
    hide Leads, Begins, Given, PositiveAt;
    LedReadable(x, args, items, d);
    var ps := Begins(x, args, 0);
    forall k | 0 <= k < |ps| && IsKey(x, args, ps[k], {Pf}) {
      PollingAt(x, args, items, d, k);
    }
    SlotIff(x, args, items, d, Polling);
    assert KeysOf(Polling) == {Pf};
    if Polling in d.slots {
      var k := SomewhereGiven(x, args, {Pf});
    }
  }

  lemma CountAt(x: Lexicon, args: seq<string>, items: seq<Item>, d: Draft, k: nat)
    requires Leads(x, args, items, d) && k < |items| && IsKey(x, args, Begins(x, args, 0)[k], {N})
    ensures 1 <= NumberOr(Get(d.slots, Count), 1) <= 100 <==> PositiveAt(x, args, Begins(x, args, 0)[k])
  {
    hide Leads, Begins, Readable;
    NumberAt(x, args, items, d, k, N);
  }

  lemma CountIff(x: Lexicon, args: seq<string>, items: seq<Item>, d: Draft)
    requires Leads(x, args, items, d)
    ensures var ps := Begins(x, args, 0);
      1 <= NumberOr(Get(d.slots, Count), 1) <= 100 <==>
      forall k :: 0 <= k < |ps| && IsKey(x, args, ps[k], {N}) ==> PositiveAt(x, args, ps[k])
  {
    hide Leads, Begins, Given, PositiveAt;
    LedReadable(x, args, items, d);
    var ps := Begins(x, args, 0);
    forall k | 0 <= k < |ps| && IsKey(x, args, ps[k], {N}) {
      CountAt(x, args, items, d, k);
    }
    SlotIff(x, args, items, d, Count);
    assert KeysOf(Count) == {N, Gcgen};
    if Count in d.slots {
      var k := SomewhereGiven(x, args, {N, Gcgen});
      if x.key(args[ps[k]]) == Some(Gcgen) {
        GenerationAt(x, args, items, d, k);
      }
    }
  }

  lemma SignalListAt(x: Lexicon, args: seq<string>, items: seq<Item>, d: Draft, k: nat)
    requires Leads(x, args, items, d) && k < |items| && IsKey(x, args, Begins(x, args, 0)[k], {Sig})
    ensures Catchable(SignalList(d.slots)) <==> CatchableAt(x, args, Begins(x, args, 0)[k])
    ensures SignalList(d.slots) != [] <==> SignalsAt(x, args, Begins(x, args, 0)[k])
  {
    hide Leads, Begins, Readable, Catchable;
    NumberAt(x, args, items, d, k, Sig);
  }

  lemma SignalsIff(x: Lexicon, args: seq<string>, items: seq<Item>, d: Draft)
    requires Leads(x, args, items, d)
    ensures var ps := Begins(x, args, 0);
      && (Catchable(SignalList(d.slots)) <==>
          forall k :: 0 <= k < |ps| && IsKey(x, args, ps[k], {Sig}) ==> CatchableAt(x, args, ps[k]))
      && (SignalList(d.slots) != [] <==>
          exists k :: 0 <= k < |ps| && IsKey(x, args, ps[k], {Sig}) && SignalsAt(x, args, ps[k]))
  {
    hide Leads, Begins, Given, CatchableAt, SignalsAt;
    LedReadable(x, args, items, d);
    var ps := Begins(x, args, 0);
    forall k | 0 <= k < |ps| && IsKey(x, args, ps[k], {Sig}) {
      SignalListAt(x, args, items, d, k);
    }
    SlotIff(x, args, items, d, Signals);
    assert KeysOf(Signals) == {Sig};
    if Signals in d.slots {
      var k := SomewhereGiven(x, args, {Sig});
    }
  }

  lemma ThresholdsIff(x: Lexicon, args: seq<string>, items: seq<Item>, d: Draft)
    requires Leads(x, args, items, d)
    ensures var ps := Begins(x, args, 0);
      (MemoryDumps(d.slots) > 1 ==> Count !in d.slots && MemoryDumps(d.slots) <= 100) <==>
      forall k :: 0 <= k < |ps| && Thresholds(x, args, ps[k]) > 1 ==>
        Thresholds(x, args, ps[k]) <= 100 && !Given(x, args, {N, Gcgen})
  {
    hide ReadsAs, ApplyAll, Begins, Proper, Given, Readable, MemoryDumps, Thresholds;
    var ps := Begins(x, args, 0);
    forall k | 0 <= k < |ps| && Thresholds(x, args, ps[k]) > 1
      ensures MemoryDumps(d.slots) == Thresholds(x, args, ps[k])
    {
      MemoryAt(x, args, items, d, k);
    }
    SlotIff(x, args, items, d, Count);
    assert KeysOf(Count) == {N, Gcgen};
    if MemoryDumps(d.slots) > 1 {
      var k := DumpsSomewhere(x, args, items, d);
    }
  }

  /** Another trigger, or a polling interval. */
  lemma OthersGiven(x: Lexicon, args: seq<string>, items: seq<Item>, d: Draft)
    requires Leads(x, args, items, d)
    ensures HasThreshold(d.slots, CountersAt(x, args, Begins(x, args, 0)) != []) || Polling in d.slots <==>
            Given(x, args, {C, Cl, M, Ml, Tc, Fc, Pc, Pcl, Pf})
  {
    hide Leads, Begins, Readable;
    LedReadable(x, args, items, d);
    SlotIff(x, args, items, d, Cpu);
    SlotIff(x, args, items, d, Memory);
    SlotIff(x, args, items, d, Threads);
    SlotIff(x, args, items, d, Descriptors);
    SlotIff(x, args, items, d, Polling);
    CountersGiven(x, args);
    assert KeysOf(Cpu) == {C, Cl} && KeysOf(Memory) == {M, Ml} && KeysOf(Threads) == {Tc};
    assert KeysOf(Descriptors) == {Fc} && KeysOf(Polling) == {Pf};
    if Given(x, args, {C, Cl, M, Ml, Tc, Fc, Pc, Pcl, Pf}) {
      var p :| p in Begins(x, args, 0) && IsKey(x, args, p, {C, Cl, M, Ml, Tc, Fc, Pc, Pcl, Pf});
      assert IsKey(x, args, p, {C, Cl}) || IsKey(x, args, p, {M, Ml}) || IsKey(x, args, p, {Tc})
          || IsKey(x, args, p, {Fc}) || IsKey(x, args, p, {Pc, Pcl}) || IsKey(x, args, p, {Pf});
    }
  }

  lemma LedReadable(x: Lexicon, args: seq<string>, items: seq<Item>, d: Draft)
    requires Leads(x, args, items, d)
    ensures |items| == |Begins(x, args, 0)|
    ensures forall k :: 0 <= k < |Begins(x, args, 0)| ==> Readable(x, args, Begins(x, args, 0)[k])
  {
  }

  lemma ExceptionIff(x: Lexicon, args: seq<string>, items: seq<Item>, d: Draft)
    requires Leads(x, args, items, d)
    ensures Get(d.slots, DotNet) == Some(Exception) <==> Given(x, args, {E})
  {
    hide ReadsAs, ApplyAll, Begins, Proper, Given, Readable;
    if Given(x, args, {E}) {
      var k := SomewhereGiven(x, args, {E});
      ExceptionAt(x, args, items, d, k);
    }
    if Get(d.slots, DotNet) == Some(Exception) {
      SlotIff(x, args, items, d, DotNet);
      assert KeysOf(DotNet) == {E, Gcm, Gcgen};
      var k := SomewhereGiven(x, args, {E, Gcm, Gcgen});
      OnlyException(x, args, items, d, k);
      assert Begins(x, args, 0)[k] in Begins(x, args, 0);
      GivenHere(x, args, Begins(x, args, 0)[k], {E});
    }
  }

  lemma GivenHere(x: Lexicon, args: seq<string>, p: nat, keys: set<Key>)
    requires p in Begins(x, args, 0) && p < |args| && IsKey(x, args, p, keys)
    ensures Given(x, args, keys)
  {
  }

  lemma OnlyException(x: Lexicon, args: seq<string>, items: seq<Item>, d: Draft, k: nat)
    requires Leads(x, args, items, d) && k < |items| && IsKey(x, args, Begins(x, args, 0)[k], {E, Gcm, Gcgen})
    requires Get(d.slots, DotNet) == Some(Exception)
    ensures IsKey(x, args, Begins(x, args, 0)[k], {E})
  {
    hide ReadsAs, ApplyAll, Begins, Proper, Readable;
    var key := x.key(args[Begins(x, args, 0)[k]]).value;
    if key == Gcgen {
      GenerationAt(x, args, items, d, k);
    } else if key == Gcm {
      HeapAt(x, args, items, d, k);
    }
  }

  lemma HeapAt(x: Lexicon, args: seq<string>, items: seq<Item>, d: Draft, k: nat)
    requires Leads(x, args, items, d) && k < |items| && x.key(args[Begins(x, args, 0)[k]]) == Some(Gcm)
    ensures DotNet in d.slots && d.slots[DotNet].GcMemory?
  {
    hide Readable, ApplyAll, Begins, Proper, ReadsAs;
    SlotAt(x, args, items, d, k, Gcm);
    assert DotNet in Writes(items[k]);
  }

  /** The checks, one by one. */
  lemma BuildSome(x: Lexicon, d: Draft)
    ensures Build(x, d).Some? <==>
      && d.target.Some?
      && var target := x.target(d.target.value, Group in d.slots);
      && target.Some? && Exists(target.value)
      && (Wait in d.slots ==> target.value.Name?)
      && (Group in d.slots || Wait in d.slots ==> d.output.None? || d.output.value.fileName.None?)
      && (MemoryDumps(d.slots) > 1 ==> Count !in d.slots && MemoryDumps(d.slots) <= 100)
      && (MemoryDumps(d.slots) <= 1 ==> 1 <= NumberOr(Get(d.slots, Count), 1) <= 100)
      && (Filter in d.slots ==> Get(d.slots, DotNet) == Some(Exception))
      && (Sample in d.slots || Exclude in d.slots ==> Tracking in d.slots)
      && (SignalList(d.slots) != [] || Get(d.slots, DotNet) == Some(Exception) ==>
            !HasThreshold(d.slots, d.counters != []) && Polling !in d.slots)
      && NumberOr(Get(d.slots, Polling), 1000) > 0 && Catchable(SignalList(d.slots))
  {
    hide MemoryDumps, SignalList, NumberOr, HasThreshold, Timed;
  }

  /** The checks say what they should of the words. */
  lemma BuildsIff(x: Lexicon, args: seq<string>, items: seq<Item>, d: Draft)
    requires Leads(x, args, items, d)
    requires var words := WordsAt(x, args, Begins(x, args, 0));
      && |words| <= 2 && (|words| == 2 ==> x.output(words[1]).Some?)
      && d.target == (if words == [] then None else Some(words[0]))
      && d.output == (if |words| < 2 then None else x.output(words[1]))
    requires d.counters == CountersAt(x, args, Begins(x, args, 0))
    ensures var ps := Begins(x, args, 0);
      Build(x, d).Some? <==>
        && (forall k :: 0 <= k < |ps| ==> Sensible(x, args, ps[k]))
        && Aimed(x, args, WordsAt(x, args, ps))
        && (Given(x, args, {F}) ==> Given(x, args, {E}))
        && (Given(x, args, {Sr, Fx}) ==> Given(x, args, {Restrack}))
  {
    hide Leads, Begins, Readable, Given, Build, MemoryDumps, SignalList, NumberOr, HasThreshold, WordsAt, CountersAt,
      Sensible, Thresholds, Catchable, PositiveAt, CatchableAt, SignalsAt;
    BuildSome(x, d);
    PollingIff(x, args, items, d);
    CountIff(x, args, items, d);
    SignalsIff(x, args, items, d);
    ThresholdsIff(x, args, items, d);
    OthersGiven(x, args, items, d);
    ExceptionIff(x, args, items, d);
    SensibleIff(x, args, items, d);
    FlagsGiven(x, args, items, d);
    CountsMatter(x, args, items, d);
  }

  /** With several thresholds there is no number to check. */
  lemma CountsMatter(x: Lexicon, args: seq<string>, items: seq<Item>, d: Draft)
    requires Leads(x, args, items, d)
    ensures Count !in d.slots ==> NumberOr(Get(d.slots, Count), 1) == 1
  {
  }

  lemma FlagsGiven(x: Lexicon, args: seq<string>, items: seq<Item>, d: Draft)
    requires Leads(x, args, items, d)
    ensures (Wait in d.slots <==> Given(x, args, {W})) && (Group in d.slots <==> Given(x, args, {Pgid}))
    ensures Given(x, args, {Pgid, W}) <==> Given(x, args, {Pgid}) || Given(x, args, {W})
    ensures Filter in d.slots <==> Given(x, args, {F})
    ensures Tracking in d.slots <==> Given(x, args, {Restrack})
    ensures Sample in d.slots || Exclude in d.slots <==> Given(x, args, {Sr, Fx})
  {
    hide Leads, Begins, Readable;
    SlotIff(x, args, items, d, Wait);
    SlotIff(x, args, items, d, Group);
    SlotIff(x, args, items, d, Filter);
    SlotIff(x, args, items, d, Tracking);
    SlotIff(x, args, items, d, Sample);
    SlotIff(x, args, items, d, Exclude);
    assert KeysOf(Wait) == {W} && KeysOf(Group) == {Pgid} && KeysOf(Filter) == {F};
    assert KeysOf(Tracking) == {Restrack} && KeysOf(Sample) == {Sr} && KeysOf(Exclude) == {Fx};
    EitherGiven(x, args, {Pgid}, {W}, {Pgid, W});
    EitherGiven(x, args, {Sr}, {Fx}, {Sr, Fx});
  }

  lemma EitherGiven(x: Lexicon, args: seq<string>, a: set<Key>, b: set<Key>, c: set<Key>)
    requires forall key :: key in c <==> key in a || key in b
    ensures Given(x, args, c) <==> Given(x, args, a) || Given(x, args, b)
  {
    hide Begins;
    if Given(x, args, c) {
      var p :| p in Begins(x, args, 0) && IsKey(x, args, p, c);
      assert IsKey(x, args, p, a) || IsKey(x, args, p, b);
    }
    if Given(x, args, a) {
      var p :| p in Begins(x, args, 0) && IsKey(x, args, p, a);
      assert IsKey(x, args, p, c);
    }
    if Given(x, args, b) {
      var p :| p in Begins(x, args, 0) && IsKey(x, args, p, b);
      assert IsKey(x, args, p, c);
    }
  }

  /** The options' own values, all together. */
  lemma SensibleIff(x: Lexicon, args: seq<string>, items: seq<Item>, d: Draft)
    requires Leads(x, args, items, d)
    ensures var ps := Begins(x, args, 0);
      (forall k :: 0 <= k < |ps| ==> Sensible(x, args, ps[k])) <==>
        && NumberOr(Get(d.slots, Polling), 1000) > 0 && 1 <= NumberOr(Get(d.slots, Count), 1) <= 100
        && Catchable(SignalList(d.slots))
        && (MemoryDumps(d.slots) > 1 ==> Count !in d.slots && MemoryDumps(d.slots) <= 100)
        && (SignalList(d.slots) != [] || Given(x, args, {E}) ==>
              !Given(x, args, {C, Cl, M, Ml, Tc, Fc, Pc, Pcl, Pf}))
  {
    hide Begins, Given, MemoryDumps, SignalList, NumberOr, Thresholds, Catchable, Leads, Readable,
      PositiveAt, CatchableAt, SignalsAt;
    LedReadable(x, args, items, d);
    PollingIff(x, args, items, d);
    CountIff(x, args, items, d);
    SignalsIff(x, args, items, d);
    ThresholdsIff(x, args, items, d);
    var ps := Begins(x, args, 0);
    if Given(x, args, {E}) {
      var k := SomewhereGiven(x, args, {E});
    }
    forall k | 0 <= k < |ps| && IsKey(x, args, ps[k], {E}) ensures Given(x, args, {E}) {
      assert ps[k] in ps;
      GivenHere(x, args, ps[k], {E});
    }
  }

  /** A line is accepted exactly when every option can be read and makes sense, no two exclude each other, there are at
      most five counters, the words name a target and an output that suits it, and filters and sampling come with what
      they apply to. */
  lemma AcceptedIff(x: Lexicon, args: seq<string>)
    ensures Parse(x, args).Some? <==> Acceptable(x, args)
  {
    hide ReadAll, ApplyAll, Build, Proper, ReadsAs, Readable, Begins, Sensible, Aimed, Given, WordsAt, CountersAt,
      Excluded, Placed, Sound;
    assert args[0..] == args;
    ReadsFrom(x, args, 0);
    var ps := Begins(x, args, 0);
    assert (forall p :: p in ps ==> Readable(x, args, p)) <==> (forall k :: 0 <= k < |ps| ==> Readable(x, args, ps[k]));
    if ReadAll(x, args).Some? {
      var items := ReadAll(x, args).value;
      FitsIff(x, args, items);
      AimedWords(x, args);
      if ApplyAll(x, items, Start(x)).Some? {
        var d := ApplyAll(x, items, Start(x)).value;
        SoundHere(x, args, d);
        AppliesIff(x, items, Start(x));
        WhatIsAt(x, args, ps, items, NoLog);
        PlacedFromStart(x, TextsOf(items));
        BuildsIff(x, args, items, d);
      }
    }
  }

  lemma AimedWords(x: Lexicon, args: seq<string>)
    ensures var words := WordsAt(x, args, Begins(x, args, 0));
      Aimed(x, args, words) ==> |words| <= 2 && (|words| == 2 ==> x.output(words[1]).Some?)
  {
    hide Begins, WordsAt;
  }
}
