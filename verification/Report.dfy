/** The leak report: allocations grouped by size and stack, ordered, filtered and totalled. */
module Report {
  import opened Bytes
  import opened Allocations

  const MAX: u64 := U64_LIMIT - 1

  function Saturated(n: nat): u64 {
    if n <= MAX then n else MAX
  }

  function SaturatingMul(a: u64, b: nat): u64 {
    Saturated(a * b)
  }

  function SaturatingAdd(a: u64, b: u64): u64 {
    Saturated(a + b)
  }

  datatype Group = Group(allocation: Allocation, count: nat)

  /** The addresses among `keys` that hold exactly this size and stack. */
  function HoldersIn(snapshot: Tracked, keys: set<u64>, a: Allocation): set<u64>
    requires keys <= snapshot.Keys
  {
    set k | k in keys && snapshot[k] == a
  }

  /** The groups list each distinct allocation found at `keys` once, with the number of addresses that hold it. */
  ghost predicate Partitions(groups: seq<Group>, snapshot: Tracked, keys: set<u64>)
    requires keys <= snapshot.Keys
  {
    && (forall i, j :: 0 <= i < j < |groups| ==> groups[i].allocation != groups[j].allocation)
    && (forall i :: 0 <= i < |groups| ==> groups[i].count == |HoldersIn(snapshot, keys, groups[i].allocation)| > 0)
    && (forall k :: k in keys ==> exists i :: 0 <= i < |groups| && groups[i].allocation == snapshot[k])
  }

  function Weight(g: Group): u64 {
    SaturatingMul(g.allocation.size, g.count)
  }

  predicate Descending(groups: seq<Group>) {
    forall i, j :: 0 <= i < j < |groups| ==> Weight(groups[i]) >= Weight(groups[j])
  }

  /** The exact sum, over single allocations, of the sizes whose stack is not excluded. */
  ghost function SizeSum(snapshot: Tracked, keys: set<u64>, excluded: seq<u64> -> bool): nat
    requires keys <= snapshot.Keys
  {
    if keys == {} then 0
    else
      var k :| k in keys;
      SizeAt(snapshot, excluded, k) + SizeSum(snapshot, keys - {k}, excluded)
  }

  ghost function SizeAt(snapshot: Tracked, excluded: seq<u64> -> bool, k: u64): nat
    requires k in snapshot
  {
    Size(snapshot[k], excluded)
  }

  ghost function Size(a: Allocation, excluded: seq<u64> -> bool): nat {
    if excluded(a.stack) then 0 else a.size
  }

  /** The sum does not depend on the order in which the map is visited. */
  lemma {:induction false} SumAnyOrder(snapshot: Tracked, keys: set<u64>, excluded: seq<u64> -> bool, k: u64)
    requires keys <= snapshot.Keys && k in keys
    ensures SizeSum(snapshot, keys, excluded) == SizeAt(snapshot, excluded, k) + SizeSum(snapshot, keys - {k}, excluded)
  {
    var j :| j in keys && SizeSum(snapshot, keys, excluded) ==
                          SizeAt(snapshot, excluded, j) + SizeSum(snapshot, keys - {j}, excluded);
    if j != k {
      SumAnyOrder(snapshot, keys - {j}, excluded, k);
      SumAnyOrder(snapshot, keys - {k}, excluded, j);
      assert keys - {j} - {k} == keys - {k} - {j};
    }
  }

  /** Group by group: the count times the size. */
  ghost function GroupSum(groups: seq<Group>, excluded: seq<u64> -> bool): nat {
    if groups == [] then 0
    else GroupSum(groups[..|groups| - 1], excluded) + GroupSize(groups[|groups| - 1], excluded)
  }

  ghost function GroupSize(g: Group, excluded: seq<u64> -> bool): nat {
    if excluded(g.allocation.stack) then 0 else g.allocation.size * g.count
  }

  lemma CountOneMore(a: Allocation, n: nat, excluded: seq<u64> -> bool)
    ensures GroupSize(Group(a, n + 1), excluded) == Size(a, excluded) + GroupSize(Group(a, n), excluded)
    ensures GroupSize(Group(a, 0), excluded) == 0
  {
    assert a.size * (n + 1) == a.size + a.size * n;
  }

  /** Taking out the addresses of one group takes out its count times its size. */
  lemma {:induction false} SumWithout(snapshot: Tracked, keys: set<u64>, excluded: seq<u64> -> bool, a: Allocation,
                                      holders: set<u64>)
    requires keys <= snapshot.Keys && holders <= keys
    requires forall k :: k in holders ==> snapshot[k] == a
    ensures SizeSum(snapshot, keys, excluded) ==
            SizeSum(snapshot, keys - holders, excluded) + GroupSize(Group(a, |holders|), excluded)
    decreases |holders|
  {
    if holders == {} {
      assert keys - holders == keys;
      CountOneMore(a, 0, excluded);
    } else {
      var k :| k in holders;
      SumAnyOrder(snapshot, keys, excluded, k);
      SumWithout(snapshot, keys - {k}, excluded, a, holders - {k});
      assert keys - {k} - (holders - {k}) == keys - holders;
      CountOneMore(a, |holders| - 1, excluded);
    }
  }

  lemma RestPartitions(groups: seq<Group>, snapshot: Tracked, keys: set<u64>)
    requires keys <= snapshot.Keys && groups != [] && Partitions(groups, snapshot, keys)
    ensures var a := groups[|groups| - 1].allocation;
      Partitions(groups[..|groups| - 1], snapshot, keys - HoldersIn(snapshot, keys, a))
  {
    var a := groups[|groups| - 1].allocation;
    var rest := groups[..|groups| - 1];
    var less := keys - HoldersIn(snapshot, keys, a);
    forall i | 0 <= i < |rest| ensures rest[i].count == |HoldersIn(snapshot, less, rest[i].allocation)| > 0 {
      assert groups[i] == rest[i];
      assert HoldersIn(snapshot, less, rest[i].allocation) == HoldersIn(snapshot, keys, rest[i].allocation);
    }
    forall k | k in less ensures exists i :: 0 <= i < |rest| && rest[i].allocation == snapshot[k] {
      var i :| 0 <= i < |groups| && groups[i].allocation == snapshot[k];
      assert rest[i].allocation == snapshot[k];
    }
  }

  lemma {:induction false} GroupsSumExactly(groups: seq<Group>, snapshot: Tracked, keys: set<u64>,
                                            excluded: seq<u64> -> bool)
    requires keys <= snapshot.Keys && Partitions(groups, snapshot, keys)
    ensures GroupSum(groups, excluded) == SizeSum(snapshot, keys, excluded)
  {
    if groups == [] {
      assert keys == {};
    } else {
      var last := groups[|groups| - 1];
      var holders := HoldersIn(snapshot, keys, last.allocation);
      RestPartitions(groups, snapshot, keys);
      GroupsSumExactly(groups[..|groups| - 1], snapshot, keys - holders, excluded);
      SumWithout(snapshot, keys, excluded, last.allocation, holders);
      assert Group(last.allocation, |holders|) == last;
    }
  }

  // ----- the report

  /** One entry of the printed report. */
  datatype Entry = Entry(size: u64, count: nat, total: u64, stack: seq<u64>)

  function EntriesOf(groups: seq<Group>, excluded: seq<u64> -> bool): seq<Entry> {
    if groups == [] then []
    else
      var g := groups[|groups| - 1];
      EntriesOf(groups[..|groups| - 1], excluded) +
      if excluded(g.allocation.stack) then [] else [Entry(g.allocation.size, g.count, Weight(g), g.allocation.stack)]
  }

  /** The total printed for so many allocations of one size: their product, or the largest 64-bit number. */
  function Capped(size: u64, count: nat): u64 {
    if size * count < 0x1_0000_0000_0000_0000 then size * count else 0xffff_ffff_ffff_ffff
  }

  /** What the entries of a report must be: one for each size and stack held somewhere, unless the stack is excluded,
      with the number of addresses that hold it, the largest totals first. */
  ghost predicate Reports(entries: seq<Entry>, snapshot: Tracked, excluded: seq<u64> -> bool) {
    && (forall i :: 0 <= i < |entries| ==> Counted(entries[i], snapshot, excluded))
    && (forall i, j :: 0 <= i < j < |entries| ==>
          && (entries[i].size, entries[i].stack) != (entries[j].size, entries[j].stack)
          && entries[i].total >= entries[j].total)
    && (forall k :: k in snapshot && !excluded(snapshot[k].stack) ==> Listed(entries, snapshot[k]))
  }

  ghost predicate Counted(e: Entry, snapshot: Tracked, excluded: seq<u64> -> bool) {
    && !excluded(e.stack) && e.total == Capped(e.size, e.count) && e.count > 0
    && e.count == |set k | k in snapshot && snapshot[k] == Allocation(e.size, e.stack)|
  }

  ghost predicate Listed(entries: seq<Entry>, a: Allocation) {
    exists i :: 0 <= i < |entries| && entries[i].size == a.size && entries[i].stack == a.stack
  }

  /** Each entry is that of one group, in the groups' order, and each group not excluded has one. */
  ghost predicate Mirrors(entries: seq<Entry>, groups: seq<Group>, excluded: seq<u64> -> bool, at: seq<nat>) {
    && |at| == |entries|
    && (forall i :: 0 <= i < |at| ==>
          && at[i] < |groups| && !excluded(groups[at[i]].allocation.stack)
          && entries[i] == EntryOf(groups[at[i]]))
    && (forall i, j :: 0 <= i < j < |at| ==> at[i] < at[j])
    && (forall n: nat :: n < |groups| && !excluded(groups[n].allocation.stack) ==> n in at)
  }

  function EntryOf(g: Group): Entry {
    Entry(g.allocation.size, g.count, Capped(g.allocation.size, g.count), g.allocation.stack)
  }

  lemma {:induction false} EntriesMirror(groups: seq<Group>, excluded: seq<u64> -> bool) returns (at: seq<nat>)
    ensures Mirrors(EntriesOf(groups, excluded), groups, excluded, at)
  {
    at := [];
    if groups != [] {
      var n := |groups| - 1;
      at := EntriesMirror(groups[..n], excluded);
      MirrorsOneMore(EntriesOf(groups[..n], excluded), groups, excluded, at);
      at := if excluded(groups[n].allocation.stack) then at else at + [n];
    }
  }

  lemma MirrorsOneMore(entries: seq<Entry>, groups: seq<Group>, excluded: seq<u64> -> bool, at: seq<nat>)
    requires groups != [] && Mirrors(entries, groups[..|groups| - 1], excluded, at)
    ensures var n := |groups| - 1;
      if excluded(groups[n].allocation.stack) then Mirrors(entries, groups, excluded, at)
      else Mirrors(entries + [EntryOf(groups[n])], groups, excluded, at + [n])
  {
    var n := |groups| - 1;
    forall m: nat | m < n && !excluded(groups[m].allocation.stack) ensures m in at {
      assert groups[..n][m] == groups[m];
    }
  }

  lemma ReportsAll(groups: seq<Group>, snapshot: Tracked, excluded: seq<u64> -> bool)
    requires Partitions(groups, snapshot, snapshot.Keys) && Descending(groups)
    ensures Reports(EntriesOf(groups, excluded), snapshot, excluded)
  {
    hide EntriesOf;
    var entries := EntriesOf(groups, excluded);
    var at := EntriesMirror(groups, excluded);
    forall i | 0 <= i < |entries| ensures Counted(entries[i], snapshot, excluded) {
      var a := groups[at[i]].allocation;
      assert HoldersIn(snapshot, snapshot.Keys, a) ==
             set k | k in snapshot && snapshot[k] == Allocation(entries[i].size, entries[i].stack);
    }
    forall i, j | 0 <= i < j < |entries|
      ensures (entries[i].size, entries[i].stack) != (entries[j].size, entries[j].stack)
      ensures entries[i].total >= entries[j].total
    {
      assert groups[at[i]].allocation != groups[at[j]].allocation;
      assert Weight(groups[at[i]]) >= Weight(groups[at[j]]);
    }
    forall k | k in snapshot && !excluded(snapshot[k].stack) ensures Listed(entries, snapshot[k]) {
      var n: nat :| n < |groups| && groups[n].allocation == snapshot[k];
      var i :| 0 <= i < |at| && at[i] == n;
      assert entries[i] == EntryOf(groups[n]);
    }
  }

  lemma HoldersGrow(snapshot: Tracked, keys: set<u64>, k: u64, a: Allocation)
    requires keys <= snapshot.Keys && k in snapshot && k !in keys
    ensures HoldersIn(snapshot, keys + {k}, a) == HoldersIn(snapshot, keys, a) + if a == snapshot[k] then {k} else {}
    ensures |HoldersIn(snapshot, keys + {k}, a)| == |HoldersIn(snapshot, keys, a)| + if a == snapshot[k] then 1 else 0
  {
    assert HoldersIn(snapshot, keys + {k}, a) == HoldersIn(snapshot, keys, a) + if a == snapshot[k] then {k} else {};
  }

  ghost predicate Counts(grouped: map<Allocation, nat>, snapshot: Tracked, keys: set<u64>)
    requires keys <= snapshot.Keys
  {
    forall a :: |HoldersIn(snapshot, keys, a)| == if a in grouped then grouped[a] else 0
  }

  method GroupAllocations(snapshot: Tracked) returns (grouped: map<Allocation, nat>)
    ensures forall a :: |HoldersIn(snapshot, snapshot.Keys, a)| == if a in grouped then grouped[a] else 0
    ensures forall a :: a in grouped ==> grouped[a] > 0
  {
    grouped := map[];
    var pending := snapshot.Keys;
    ghost var done: set<u64> := {};
    while pending != {}
      invariant done + pending == snapshot.Keys && done !! pending
      invariant Counts(grouped, snapshot, done)
      invariant forall a :: a in grouped ==> grouped[a] > 0
      decreases pending
    {
      var k :| k in pending;
      pending := pending - {k};
      var a := snapshot[k];
      forall b
        ensures |HoldersIn(snapshot, done + {k}, b)| == |HoldersIn(snapshot, done, b)| + if b == a then 1 else 0
      {
        HoldersGrow(snapshot, done, k, b);
      }
      grouped := grouped[a := (if a in grouped then grouped[a] else 0) + 1];
      done := done + {k};
    }
  }

  /** Where a group belongs in a descending list: after every group that weighs at least as much. */
  method Insert(sorted: seq<Group>, g: Group) returns (r: seq<Group>)
    requires Descending(sorted)
    ensures Descending(r)
    ensures exists i :: 0 <= i <= |sorted| && r == sorted[..i] + [g] + sorted[i..]
  {
    var i := |sorted|;
    while i > 0 && Weight(sorted[i - 1]) < Weight(g)
      invariant 0 <= i <= |sorted|
      invariant forall j :: i <= j < |sorted| ==> Weight(sorted[j]) < Weight(g)
    {
      i := i - 1;
    }
    r := sorted[..i] + [g] + sorted[i..];
  }

  /** The groups of the allocations in `keys`, each once, with their counts. */
  ghost predicate Lists(groups: seq<Group>, grouped: map<Allocation, nat>, keys: set<Allocation>)
    requires keys <= grouped.Keys
  {
    && (forall i, j :: 0 <= i < j < |groups| ==> groups[i].allocation != groups[j].allocation)
    && (forall i :: 0 <= i < |groups| ==>
          groups[i].allocation in keys && groups[i].count == grouped[groups[i].allocation])
    && (forall a :: a in keys ==> exists i :: 0 <= i < |groups| && groups[i].allocation == a)
  }

  lemma InsertLists(before: seq<Group>, i: nat, grouped: map<Allocation, nat>, keys: set<Allocation>, a: Allocation)
    requires keys <= grouped.Keys && a in grouped && a !in keys && i <= |before|
    requires Lists(before, grouped, keys)
    ensures Lists(before[..i] + [Group(a, grouped[a])] + before[i..], grouped, keys + {a})
  {
    var g := Group(a, grouped[a]);
    var after := before[..i] + [g] + before[i..];
    forall b | b in keys + {a} ensures exists j :: 0 <= j < |after| && after[j].allocation == b {
      InsertCovers(before, i, g, b);
    }
    forall j | 0 <= j < |after|
      ensures after[j] == if j == i then g else before[if j < i then j else j - 1] {}
    forall j, k | 0 <= j < k < |after| ensures after[j].allocation != after[k].allocation {
      InsertDistinct(before, i, g, j, k);
    }
  }

  lemma InsertCovers(before: seq<Group>, i: nat, g: Group, b: Allocation)
    requires i <= |before| && (b == g.allocation || exists j :: 0 <= j < |before| && before[j].allocation == b)
    ensures var after := before[..i] + [g] + before[i..];
      exists j :: 0 <= j < |after| && after[j].allocation == b
  {
    var after := before[..i] + [g] + before[i..];
    if b == g.allocation {
      assert after[i].allocation == b;
    } else {
      var j :| 0 <= j < |before| && before[j].allocation == b;
      assert after[if j < i then j else j + 1].allocation == b;
    }
  }

  lemma InsertDistinct(before: seq<Group>, i: nat, g: Group, j: nat, k: nat)
    requires forall m, n :: 0 <= m < n < |before| ==> before[m].allocation != before[n].allocation
    requires forall m :: 0 <= m < |before| ==> before[m].allocation != g.allocation
    requires i <= |before| && j < k <= |before|
    ensures var after := before[..i] + [g] + before[i..]; after[j].allocation != after[k].allocation
  {
    var j' := if j < i then j else j - 1;
    var k' := if k < i then k else k - 1;
    if j != i && k != i {
      assert before[j'].allocation != before[k'].allocation;
    }
  }

  method SortGroups(grouped: map<Allocation, nat>) returns (groups: seq<Group>)
    ensures Descending(groups) && Lists(groups, grouped, grouped.Keys)
  {
    groups := [];
    var pending := grouped.Keys;
    ghost var done: set<Allocation> := {};
    while pending != {}
      invariant done + pending == grouped.Keys && done !! pending
      invariant Descending(groups) && Lists(groups, grouped, done)
      decreases pending
    {
      var a :| a in pending;
      pending := pending - {a};
      var before := groups;
      groups := Insert(groups, Group(a, grouped[a]));
      ghost var i :| 0 <= i <= |before| && groups == before[..i] + [Group(a, grouped[a])] + before[i..];
      InsertLists(before, i, grouped, done, a);
      done := done + {a};
    }
  }

  lemma ListsPartition(groups: seq<Group>, grouped: map<Allocation, nat>, snapshot: Tracked)
    requires forall a :: |HoldersIn(snapshot, snapshot.Keys, a)| == if a in grouped then grouped[a] else 0
    requires forall a :: a in grouped ==> grouped[a] > 0
    requires Lists(groups, grouped, grouped.Keys)
    ensures Partitions(groups, snapshot, snapshot.Keys)
  {
    forall k | k in snapshot ensures exists i :: 0 <= i < |groups| && groups[i].allocation == snapshot[k] {
      assert k in HoldersIn(snapshot, snapshot.Keys, snapshot[k]);
      assert snapshot[k] in grouped;
    }
  }

  lemma SaturatedSteps(a: nat, b: nat)
    ensures SaturatingAdd(Saturated(a), Saturated(b)) == Saturated(a + b)
  {
  }

  /** What a report holds: its entries, and its printed total. An empty snapshot prints no total. */
  method RenderReport(snapshot: Tracked, excluded: seq<u64> -> bool)
    returns (entries: seq<Entry>, total: u64, ghost groups: seq<Group>)
    ensures Partitions(groups, snapshot, snapshot.Keys) && Descending(groups)
    ensures entries == EntriesOf(groups, excluded) && Reports(entries, snapshot, excluded)
    ensures total == Saturated(SizeSum(snapshot, snapshot.Keys, excluded))
  {
    var grouped := GroupAllocations(snapshot);
    var sorted := SortGroups(grouped);
    ListsPartition(sorted, grouped, snapshot);
    groups := sorted;
    entries, total := Print(sorted, excluded);
    GroupsSumExactly(sorted, snapshot, snapshot.Keys, excluded);
    ReportsAll(sorted, snapshot, excluded);
  }

  /** The printing loop of the report. */
  method Print(sorted: seq<Group>, excluded: seq<u64> -> bool) returns (entries: seq<Entry>, total: u64)
    ensures entries == EntriesOf(sorted, excluded)
    ensures total == Saturated(GroupSum(sorted, excluded))
  {
    entries, total := [], 0;
    var n := 0;
    while n < |sorted|
      invariant n <= |sorted|
      invariant entries == EntriesOf(sorted[..n], excluded)
      invariant total == Saturated(GroupSum(sorted[..n], excluded))
    {
      var g := sorted[n];
      assert sorted[..n + 1][..n] == sorted[..n] && sorted[..n + 1][n] == g;
      SaturatedSteps(GroupSum(sorted[..n], excluded), GroupSize(g, excluded));
      n := n + 1;
      if excluded(g.allocation.stack) {
        continue;
      }
      var groupTotal := SaturatingMul(g.allocation.size, g.count);
      total := SaturatingAdd(total, groupTotal);
      entries := entries + [Entry(g.allocation.size, g.count, groupTotal, g.allocation.stack)];
    }
    assert sorted[..n] == sorted;
  }
}
