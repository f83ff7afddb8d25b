/** The exclusion filter of the leak report: a greedy matcher with one backtracking point. */
module Wildcard {
  import opened Bytes

  const STAR: byte := 42

  /** What a pattern means: `*` stands for any string, any other byte for itself. */
  ghost predicate Matches(value: seq<byte>, pattern: seq<byte>)
    decreases |pattern|
  {
    if pattern == [] then value == []
    else if pattern[0] == STAR then exists k :: 0 <= k <= |value| && Matches(value[k..], pattern[1..])
    else value != [] && value[0] == pattern[0] && Matches(value[1..], pattern[1..])
  }

  predicate AllStars(pattern: seq<byte>) {
    forall i :: 0 <= i < |pattern| ==> pattern[i] == STAR
  }

  predicate StarFree(value: seq<byte>) {
    forall i :: 0 <= i < |value| ==> value[i] != STAR
  }

  /** No `*` in the value, except possibly as its last byte. */
  predicate StarOnlyLast(value: seq<byte>) {
    forall i :: 0 <= i < |value| - 1 ==> value[i] != STAR
  }

  function LowerByte(b: byte): byte {
    if 65 <= b <= 90 then b + 32 else b
  }

  /** Two bytes are taken for the same exactly when they are, or are one letter in both cases. */
  lemma FoldsLetters(a: byte, b: byte)
    ensures LowerByte(a) == LowerByte(b) <==>
            || a == b
            || ('A' <= a as char <= 'Z' && b == a + 32)
            || ('A' <= b as char <= 'Z' && a == b + 32)
    ensures STAR as char == '*' && (LowerByte(a) == STAR <==> a == STAR)
  {
  }

  function Lower(s: seq<byte>): (r: seq<byte>)
    ensures |r| == |s| && forall i :: 0 <= i < |s| ==> r[i] == LowerByte(s[i])
  {
    seq(|s|, i requires 0 <= i < |s| => LowerByte(s[i]))
  }

  /** The matcher's four indices. */
  datatype Scan = Scan(value: nat, pattern: nat, wildcard: Option<nat>, restart: nat)

  predicate Valid(v: seq<byte>, p: seq<byte>, s: Scan) {
    && s.restart <= s.value <= |v|
    && s.pattern <= |p|
    && (s.wildcard.Some? ==> s.wildcard.value < s.pattern && p[s.wildcard.value] == STAR)
  }

  /** Stars of the pattern not yet passed: the first component of the matcher's progress. */
  function Unvisited(p: seq<byte>, s: Scan): int {
    match s.wildcard
    case None => |p|
    case Some(w) => |p| - w - 1
  }

  /** The answer the matcher reaches from a state of its loop. */
  function Outcome(v: seq<byte>, p: seq<byte>, s: Scan): bool
    requires Valid(v, p, s)
    decreases Unvisited(p, s), |v| - s.restart, |v| - s.value
  {
    if s.value == |v| then AllStars(p[s.pattern..])
    else if s.pattern < |p| && p[s.pattern] == v[s.value] then
      Outcome(v, p, s.(value := s.value + 1, pattern := s.pattern + 1))
    else if s.pattern < |p| && p[s.pattern] == STAR then
      Outcome(v, p, Scan(s.value, s.pattern + 1, Some(s.pattern), s.value))
    else if s.wildcard.Some? then
      Outcome(v, p, Scan(s.restart + 1, s.wildcard.value + 1, s.wildcard, s.restart + 1))
    else false
  }

  const START := Scan(0, 0, None, 0)

  method WildcardMatches(value: seq<byte>, pattern: seq<byte>) returns (matched: bool)
    ensures matched == Outcome(Lower(value), Lower(pattern), START)
    ensures matched ==> Matches(Lower(value), Lower(pattern))
    ensures StarOnlyLast(value) ==> matched == Matches(Lower(value), Lower(pattern))
  {
    hide Matches, StarOnlyLast, Lower, AllStars;
    var v, p := Lower(value), Lower(pattern);
    LoweredStars(value);
    Exact(v, p);
    var valueIndex: nat, patternIndex: nat := 0, 0;
    var wildcard: Option<nat>, restart: nat := None, 0;
    while valueIndex < |v|
      invariant Valid(v, p, Scan(valueIndex, patternIndex, wildcard, restart))
      invariant Outcome(v, p, Scan(valueIndex, patternIndex, wildcard, restart)) == Outcome(v, p, START)
      decreases Unvisited(p, Scan(valueIndex, patternIndex, wildcard, restart)), |v| - restart, |v| - valueIndex
    {
      if patternIndex < |p| && p[patternIndex] == v[valueIndex] {
        valueIndex := valueIndex + 1;
        patternIndex := patternIndex + 1;
      } else if patternIndex < |p| && p[patternIndex] == STAR {
        wildcard := Some(patternIndex);
        patternIndex := patternIndex + 1;
        restart := valueIndex;
      } else if wildcard.Some? {
        patternIndex := wildcard.value + 1;
        restart := restart + 1;
        valueIndex := restart;
      } else {
        return false;
      }
    }
    matched := AllStars(p[patternIndex..]);
  }

  lemma LoweredStars(value: seq<byte>)
    ensures StarOnlyLast(value) == StarOnlyLast(Lower(value))
  {
    assert forall i :: 0 <= i < |value| ==> (value[i] == STAR) == (Lower(value)[i] == STAR);
  }

  // ----- the meaning of patterns

  lemma {:induction false} StarsMatchNothing(p: seq<byte>)
    ensures Matches([], p) == AllStars(p)
  {
    if p != [] {
      StarsMatchNothing(p[1..]);
      var empty: seq<byte> := [];
      assert empty[0..] == empty;
      assert AllStars(p) == (p[0] == STAR && AllStars(p[1..]));
    }
  }

  lemma {:induction false} OnlyStarsMatchAStar(p: seq<byte>)
    requires Matches([STAR], p)
    ensures AllStars(p)
  {
    assert p != [];
    assert p[0] == STAR;
    var k :| 0 <= k <= 1 && Matches([STAR][k..], p[1..]);
    if k == 0 {
      assert [STAR][0..] == [STAR];
      OnlyStarsMatchAStar(p[1..]);
    } else {
      assert [STAR][1..] == [];
      StarsMatchNothing(p[1..]);
    }
  }

  lemma StarSplits(v: seq<byte>, p: seq<byte>) returns (k: nat)
    requires p != [] && p[0] == STAR && Matches(v, p)
    ensures k <= |v| && Matches(v[k..], p[1..])
  {
    k :| 0 <= k <= |v| && Matches(v[k..], p[1..]);
  }

  /** Neither the next byte nor `*` stands next in the pattern. */
  lemma Stuck(v: seq<byte>, p: seq<byte>)
    requires v != [] && (p == [] || (p[0] != v[0] && p[0] != STAR))
    ensures !Matches(v, p)
  {
  }

  /** A star-free stretch of the pattern must match byte for byte. */
  lemma {:induction false} LiteralPrefix(v: seq<byte>, p: seq<byte>, n: nat)
    requires n <= |p| && StarFree(p[..n]) && Matches(v, p)
    ensures n <= |v| && v[..n] == p[..n] && Matches(v[n..], p[n..])
  {
    if n == 0 {
      assert v[0..] == v && p[0..] == p;
    } else {
      assert p[0] == p[..n][0] != STAR;
      assert p[1..][..n - 1] == p[..n][1..];
      LiteralPrefix(v[1..], p[1..], n - 1);
      assert v[1..][n - 1..] == v[n..] && p[1..][n - 1..] == p[n..];
      assert v[..n] == [v[0]] + v[1..][..n - 1];
      assert p[..n] == [p[0]] + p[1..][..n - 1];
    }
  }

  // ----- the matcher is sound for every value

  /** Some continuation of the state `s` fits the declarative meaning. */
  ghost predicate Reachable(v: seq<byte>, p: seq<byte>, s: Scan)
    requires Valid(v, p, s)
  {
    || Matches(v[s.value..], p[s.pattern..])
    || (s.wildcard.Some? && exists k :: s.restart <= k <= |v| && Matches(v[k..], p[s.wildcard.value + 1..]))
  }

  lemma {:induction false} Sound(v: seq<byte>, p: seq<byte>, s: Scan)
    requires Valid(v, p, s) && Outcome(v, p, s)
    ensures Reachable(v, p, s)
    decreases Unvisited(p, s), |v| - s.restart, |v| - s.value
  {
    hide Matches;
    if s.value == |v| {
      StarsMatchNothing(p[s.pattern..]);
      assert v[s.value..] == [];
    } else if s.pattern < |p| && p[s.pattern] == v[s.value] {
      var t := s.(value := s.value + 1, pattern := s.pattern + 1);
      Sound(v, p, t);
      if Matches(v[t.value..], p[t.pattern..]) {
        MatchesByte(v, p, s.value, s.pattern);
      }
    } else if s.pattern < |p| && p[s.pattern] == STAR {
      var t := Scan(s.value, s.pattern + 1, Some(s.pattern), s.value);
      Sound(v, p, t);
      var k :| s.value <= k <= |v| && Matches(v[k..], p[s.pattern + 1..]);
      MatchesStar(v, p, s.value, s.pattern, k);
    } else {
      Sound(v, p, Scan(s.restart + 1, s.wildcard.value + 1, s.wildcard, s.restart + 1));
    }
  }

  lemma MatchesByte(v: seq<byte>, p: seq<byte>, i: nat, j: nat)
    requires i < |v| && j < |p| && p[j] == v[i] && Matches(v[i + 1..], p[j + 1..])
    ensures Matches(v[i..], p[j..])
  {
    assert v[i..][1..] == v[i + 1..] && p[j..][1..] == p[j + 1..];
  }

  lemma MatchesStar(v: seq<byte>, p: seq<byte>, i: nat, j: nat, k: nat)
    requires i <= k <= |v| && j < |p| && p[j] == STAR && Matches(v[k..], p[j + 1..])
    ensures Matches(v[i..], p[j..])
  {
    assert v[i..][k - i..] == v[k..] && p[j..][1..] == p[j + 1..];
  }

  // ----- it is complete when the value has no star before its last byte

  /** What the loop keeps while it looks for a match that exists. */
  ghost predicate Promising(v: seq<byte>, p: seq<byte>, s: Scan)
    requires Valid(v, p, s)
  {
    match s.wildcard
    case None => Matches(v[s.value..], p[s.pattern..])
    case Some(w) =>
      && s.pattern - w - 1 == s.value - s.restart
      && p[w + 1..s.pattern] == v[s.restart..s.value]
      && StarFree(p[w + 1..s.pattern])
      && exists k :: s.restart <= k <= |v| && Matches(v[k..], p[w + 1..])
  }

  lemma ResumeAt(v: seq<byte>, p: seq<byte>, s: Scan, j: nat)
    requires Valid(v, p, s) && Promising(v, p, s) && s.wildcard.Some?
    requires s.restart <= j <= |v| && Matches(v[j..], p[s.wildcard.value + 1..])
    ensures s.value - s.restart + j <= |v| && Matches(v[s.value - s.restart + j..], p[s.pattern..])
  {
    hide Matches;
    var w, n := s.wildcard.value, s.value - s.restart;
    assert p[w + 1..][..n] == p[w + 1..s.pattern];
    LiteralPrefix(v[j..], p[w + 1..], n);
    assert v[j..][n..] == v[n + j..] && p[w + 1..][n..] == p[s.pattern..];
  }

  /** Past the literal stretch after the last wildcard, a match continues at or after the current byte. */
  lemma Resume(v: seq<byte>, p: seq<byte>, s: Scan) returns (k: nat)
    requires Valid(v, p, s) && Promising(v, p, s)
    ensures s.value <= k <= |v| && Matches(v[k..], p[s.pattern..])
    ensures s.wildcard.None? ==> k == s.value
    ensures s.wildcard.Some? ==> Matches(v[k - (s.value - s.restart)..], p[s.wildcard.value + 1..])
  {
    hide Matches;
    match s.wildcard
    case None => k := s.value;
    case Some(w) =>
      var j :| s.restart <= j <= |v| && Matches(v[j..], p[w + 1..]);
      ResumeAt(v, p, s, j);
      k := s.value - s.restart + j;
  }

  lemma {:induction false} Complete(v: seq<byte>, p: seq<byte>, s: Scan)
    requires Valid(v, p, s) && StarOnlyLast(v) && Promising(v, p, s)
    ensures Outcome(v, p, s)
    decreases Unvisited(p, s), |v| - s.restart, |v| - s.value, 1
  {
    hide Matches, StarOnlyLast;
    var k := Resume(v, p, s);
    if s.value == |v| {
      assert v[k..] == [];
      StarsMatchNothing(p[s.pattern..]);
    } else if s.pattern < |p| && p[s.pattern] == v[s.value] {
      CompleteLiteral(v, p, s, k);
    } else if s.pattern < |p| && p[s.pattern] == STAR {
      CompleteStar(v, p, s, k);
      Complete(v, p, Scan(s.value, s.pattern + 1, Some(s.pattern), s.value));
    } else {
      CompleteRestart(v, p, s, k);
      Complete(v, p, Scan(s.restart + 1, s.wildcard.value + 1, s.wildcard, s.restart + 1));
    }
  }

  lemma CompleteStar(v: seq<byte>, p: seq<byte>, s: Scan, k: nat)
    requires Valid(v, p, s) && s.pattern < |p| && p[s.pattern] == STAR
    requires s.value <= k <= |v| && Matches(v[k..], p[s.pattern..])
    ensures Promising(v, p, Scan(s.value, s.pattern + 1, Some(s.pattern), s.value))
  {
    hide Matches;
    var i := StarSplits(v[k..], p[s.pattern..]);
    assert v[k..][i..] == v[k + i..] && p[s.pattern..][1..] == p[s.pattern + 1..];
  }

  lemma CompleteRestart(v: seq<byte>, p: seq<byte>, s: Scan, k: nat)
    requires Valid(v, p, s) && Promising(v, p, s) && s.value < |v|
    requires s.pattern < |p| ==> p[s.pattern] != v[s.value] && p[s.pattern] != STAR
    requires s.value <= k <= |v| && Matches(v[k..], p[s.pattern..]) && (s.wildcard.None? ==> k == s.value)
    requires s.wildcard.Some? ==> Matches(v[k - (s.value - s.restart)..], p[s.wildcard.value + 1..])
    ensures s.wildcard.Some? && s.restart < |v|
    ensures Promising(v, p, Scan(s.restart + 1, s.wildcard.value + 1, s.wildcard, s.restart + 1))
  {
    hide Matches;
    if k == s.value {
      Stuck(v[k..], p[s.pattern..]);
    }
    assert s.restart + 1 <= k - (s.value - s.restart) <= |v|;
  }

  lemma {:induction false} CompleteLiteral(v: seq<byte>, p: seq<byte>, s: Scan, k: nat)
    requires Valid(v, p, s) && StarOnlyLast(v) && Promising(v, p, s)
    requires s.value < |v| && s.pattern < |p| && p[s.pattern] == v[s.value]
    requires s.value <= k <= |v| && Matches(v[k..], p[s.pattern..])
    ensures Outcome(v, p, s)
    decreases Unvisited(p, s), |v| - s.restart, |v| - s.value, 0
  {
    hide Matches;
    var t := s.(value := s.value + 1, pattern := s.pattern + 1);
    if v[s.value] == STAR {
      LastStar(v, p, s, k);
    } else {
      StillPromising(v, p, s);
      Complete(v, p, t);
    }
  }

  /** The value's last byte is a star, taken literally: only stars are left. */
  lemma LastStar(v: seq<byte>, p: seq<byte>, s: Scan, k: nat)
    requires s.value == |v| - 1 && v[s.value] == STAR && s.pattern < |p|
    requires s.value <= k <= |v| && Matches(v[k..], p[s.pattern..])
    ensures AllStars(p[s.pattern + 1..])
  {
    hide Matches;
    var rest := p[s.pattern..];
    if k == |v| {
      assert v[k..] == [];
      StarsMatchNothing(rest);
    } else {
      assert v[k..] == [STAR];
      OnlyStarsMatchAStar(rest);
    }
    assert rest[1..] == p[s.pattern + 1..];
    assert AllStars(rest) ==> AllStars(rest[1..]);
  }

  lemma StillPromising(v: seq<byte>, p: seq<byte>, s: Scan)
    requires Valid(v, p, s) && Promising(v, p, s)
    requires s.value < |v| && s.pattern < |p| && p[s.pattern] == v[s.value] != STAR
    ensures Promising(v, p, s.(value := s.value + 1, pattern := s.pattern + 1))
  {
    match s.wildcard
    case None =>
      assert v[s.value..][1..] == v[s.value + 1..] && p[s.pattern..][1..] == p[s.pattern + 1..];
    case Some(w) =>
      assert p[w + 1..s.pattern + 1] == p[w + 1..s.pattern] + [p[s.pattern]];
      assert v[s.restart..s.value + 1] == v[s.restart..s.value] + [v[s.value]];
  }

  // ----- the exact boundary

  lemma Exact(v: seq<byte>, p: seq<byte>)
    ensures Outcome(v, p, START) ==> Matches(v, p)
    ensures StarOnlyLast(v) ==> Outcome(v, p, START) == Matches(v, p)
  {
    assert v[0..] == v && p[0..] == p;
    if Outcome(v, p, START) {
      Sound(v, p, START);
    }
    if StarOnlyLast(v) && Matches(v, p) {
      Complete(v, p, START);
    }
  }

  /** Matching a value against a prefix of itself only advances, so the matcher ends up refusing. */
  lemma {:induction false} PrefixPatternRefused(v: seq<byte>, n: nat, i: nat)
    requires i <= n < |v|
    ensures !Outcome(v, v[..n], Scan(i, i, None, 0))
    decreases n - i
  {
    if i < n {
      PrefixPatternRefused(v, n, i + 1);
    }
  }

  lemma {:induction false} MatchesItself(v: seq<byte>, n: nat)
    requires n < |v| && StarFree(v[..n]) && v[n] == STAR
    ensures Matches(v, v[..n + 1])
  {
    var p := v[..n + 1];
    if n == 0 {
      assert p[1..] == [];
      assert v[|v|..] == [];
      assert Matches(v[|v|..], p[1..]);
    } else {
      assert v[0] == v[..n][0] != STAR;
      assert v[1..][..n - 1] == v[..n][1..];
      MatchesItself(v[1..], n - 1);
      assert v[1..][..n] == p[1..];
    }
  }

  lemma {:induction false} FirstStar(v: seq<byte>, i: nat) returns (n: nat)
    requires i < |v| && v[i] == STAR
    ensures n <= i && v[n] == STAR && StarFree(v[..n])
  {
    if j :| 0 <= j < i && v[j] == STAR {
      n := FirstStar(v, j);
    } else {
      n := i;
    }
  }

  /** The matcher agrees with the meaning of every pattern exactly for the values
      that hold no `*` before their last byte. */
  lemma ExactIffNoEarlyStar(v: seq<byte>)
    ensures (forall p: seq<byte> :: Outcome(v, p, START) == Matches(v, p)) <==> StarOnlyLast(v)
  {
    if StarOnlyLast(v) {
      forall p: seq<byte> ensures Outcome(v, p, START) == Matches(v, p) {
        Exact(v, p);
      }
    } else {
      var i :| 0 <= i < |v| - 1 && v[i] == STAR;
      var n := FirstStar(v, i);
      PrefixPatternRefused(v, n + 1, 0);
      MatchesItself(v, n);
      assert Outcome(v, v[..n + 1], START) != Matches(v, v[..n + 1]);
    }
  }
}
