/** Lists without repetition, and the elements of a list that are wanted. */
module Sequences {
  predicate Distinct<T(==)>(s: seq<T>) {
    forall i, j :: 0 <= i < j < |s| ==> s[i] != s[j]
  }

  lemma {:induction false} CountOnce<T>(s: seq<T>, x: T)
    requires Distinct(s)
    ensures multiset(s)[x] == if x in s then 1 else 0
  {
    if s != [] {
      var n := |s| - 1;
      CountOnce(s[..n], x);
      assert s == s[..n] + [s[n]];
      assert forall i :: 0 <= i < n ==> s[..n][i] == s[i] != s[n];
    }
  }

  function Selected<T>(s: seq<T>, wanted: T -> bool): seq<T> {
    if s == [] then [] else (if wanted(s[0]) then [s[0]] else []) + Selected(s[1..], wanted)
  }

  /** The positions, in order, of the wanted elements from a position on. */
  ghost predicate PicksFrom<T>(s: seq<T>, wanted: T -> bool, at: nat, picked: seq<nat>) {
    && (forall k :: 0 <= k < |picked| ==> at <= picked[k] < |s|)
    && (forall j, k :: 0 <= j < k < |picked| ==> picked[j] < picked[k])
    && (forall i: nat :: at <= i < |s| ==> (wanted(s[i]) <==> i in picked))
  }

  /** The positions, in order, of all the wanted elements. */
  ghost predicate Picks<T>(s: seq<T>, wanted: T -> bool, picked: seq<nat>) {
    PicksFrom(s, wanted, 0, picked)
  }

  /** These elements stand at these positions. */
  ghost predicate StandAt<T>(d: seq<T>, s: seq<T>, picked: seq<nat>) {
    && |d| == |picked|
    && forall k :: 0 <= k < |d| ==> picked[k] < |s| && d[k] == s[picked[k]]
  }

  lemma PicksOneMore<T>(s: seq<T>, wanted: T -> bool, at: nat, rest: seq<nat>)
    requires at < |s| && PicksFrom(s, wanted, at + 1, rest)
    ensures PicksFrom(s, wanted, at, if wanted(s[at]) then [at] + rest else rest)
  {
    var picked := if wanted(s[at]) then [at] + rest else rest;
    forall i: nat | at <= i < |s| ensures wanted(s[i]) <==> i in picked {
      assert i in picked <==> (i == at && wanted(s[at])) || i in rest;
    }
  }

  lemma StandOneMore<T>(d: seq<T>, s: seq<T>, picked: seq<nat>, at: nat)
    requires StandAt(d, s, picked) && at < |s|
    ensures StandAt([s[at]] + d, s, [at] + picked) && [] + d == d
  {
  }

  lemma SelectedStep<T>(s: seq<T>, wanted: T -> bool, at: nat)
    requires at < |s|
    ensures Selected(s[at..], wanted) == (if wanted(s[at]) then [s[at]] else []) + Selected(s[at + 1..], wanted)
  {
    assert s[at..][1..] == s[at + 1..];
  }

  lemma SelectedNone<T>(s: seq<T>, wanted: T -> bool)
    ensures Selected(s[|s|..], wanted) == []
    ensures PicksFrom(s, wanted, |s|, []) && StandAt([], s, [])
  {
  }

  lemma {:induction false} SelectedFrom<T>(s: seq<T>, wanted: T -> bool, at: nat) returns (picked: seq<nat>)
    requires at <= |s|
    ensures PicksFrom(s, wanted, at, picked) && StandAt(Selected(s[at..], wanted), s, picked)
    decreases |s| - at
  {
    hide PicksFrom, StandAt, Selected;
    if at == |s| {
      SelectedNone(s, wanted);
      picked := [];
    } else {
      var rest := SelectedFrom(s, wanted, at + 1);
      PicksOneMore(s, wanted, at, rest);
      SelectedStep(s, wanted, at);
      StandOneMore(Selected(s[at + 1..], wanted), s, rest, at);
      picked := if wanted(s[at]) then [at] + rest else rest;
    }
  }

  /** Exactly the wanted elements are selected, in order. */
  lemma SelectedPicks<T>(s: seq<T>, wanted: T -> bool) returns (picked: seq<nat>)
    ensures Picks(s, wanted, picked) && StandAt(Selected(s, wanted), s, picked)
  {
    hide PicksFrom, StandAt, Selected;
    picked := SelectedFrom(s, wanted, 0);
    assert s[0..] == s;
  }
}
