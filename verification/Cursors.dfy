/** A position in a byte slice, and the variable-length integers read there. */
module Cursors {
  import opened Bytes

  /** The shortest unsigned LEB128 form of a number. */
  function Leb(n: nat): (s: seq<byte>)
    ensures |s| > 0
  {
    if n < 128 then [n] else [128 + n % 128] + Leb(n / 128)
  }

  /** A decoded number and how many bytes it took. */
  datatype Decoded = Decoded(value: nat, length: nat)

  /** The number in shortest form at the start of `s`, of any magnitude. */
  function Decode(s: seq<byte>): (r: Option<Decoded>)
    ensures r.Some? ==> 0 < r.value.length <= |s|
  {
    if s == [] then None
    else if s[0] < 128 then Some(Decoded(s[0], 1))
    else
      var rest :- Decode(s[1..]);
      if rest.value == 0 then None else Some(Decoded(s[0] - 128 + 128 * rest.value, rest.length + 1))
  }

  /** The same, for numbers below `limit` only. */
  function DecodeBelow(s: seq<byte>, limit: nat): (r: Option<Decoded>)
    ensures r.Some? ==> 0 < r.value.length <= |s| && r.value.value < limit
  {
    var d :- Decode(s);
    if d.value < limit then Some(d) else None
  }

  lemma {:induction false} DecodesItsEncoding(n: nat, rest: seq<byte>)
    ensures Decode(Leb(n) + rest) == Some(Decoded(n, |Leb(n)|))
  {
    if n >= 128 {
      DecodesItsEncoding(n / 128, rest);
      assert (Leb(n) + rest)[1..] == Leb(n / 128) + rest;
    }
  }

  lemma {:induction false} DecodesOnlyEncodings(s: seq<byte>)
    requires Decode(s).Some?
    ensures var d := Decode(s).value; s[..d.length] == Leb(d.value)
  {
    if s[0] >= 128 {
      DecodesOnlyEncodings(s[1..]);
      var d, rest := Decode(s).value, Decode(s[1..]).value;
      assert d.value / 128 == rest.value && d.value % 128 == s[0] - 128;
      assert s[..d.length] == [s[0]] + s[1..][..rest.length];
    }
  }

  /** The decoder accepts exactly the shortest encodings of the numbers below the limit, takes exactly
      the bytes of the encoding, and gives the number encoded. */
  lemma AcceptsExactlyShortest(s: seq<byte>, limit: nat, n: nat, length: nat)
    ensures DecodeBelow(s, limit) == Some(Decoded(n, length)) <==>
            n < limit && length == |Leb(n)| && Leb(n) <= s
  {
    if DecodeBelow(s, limit) == Some(Decoded(n, length)) {
      DecodesOnlyEncodings(s);
    }
    if Leb(n) <= s {
      DecodesItsEncoding(n, s[|Leb(n)|..]);
      assert Leb(n) + s[|Leb(n)|..] == s;
    }
  }

  /** Different numbers have different encodings, and none begins another. */
  lemma EncodingsDistinct(m: nat, n: nat)
    requires Leb(m) <= Leb(n)
    ensures m == n
  {
    AcceptsExactlyShortest(Leb(n), m + n + 1, m, |Leb(m)|);
    AcceptsExactlyShortest(Leb(n), m + n + 1, n, |Leb(n)|);
  }

  // ----- the reading loops

  function Power128(i: nat): (n: nat)
    ensures n > 0
  {
    if i == 0 then 1 else 128 * Power128(i - 1)
  }

  /** `done` continuation bytes with low bits `low` read; the rest of the number is still ahead. */
  function Prefixed(low: nat, done: nat, rest: Option<Decoded>): Option<Decoded> {
    match rest
    case None => None
    case Some(d) =>
      if done > 0 && d.value == 0 then None else Some(Decoded(low + Power128(done) * d.value, done + d.length))
  }

  lemma PrefixedStep(low: nat, done: nat, s: seq<byte>)
    requires s != [] && s[0] >= 128
    ensures Prefixed(low, done, Decode(s)) == Prefixed(low + Power128(done) * (s[0] - 128), done + 1, Decode(s[1..]))
  {
    var rest := Decode(s[1..]);
    if rest.Some? && rest.value.value > 0 {
      Distribute(low, Power128(done), s[0] - 128, rest.value.value);
    }
  }

  lemma Distribute(low: nat, p: nat, group: nat, v: nat)
    ensures low + p * (group + 128 * v) == low + p * group + 128 * p * v
  {
    calc {
      p * (group + 128 * v);
      p * group + p * (128 * v);
      { assert p * (128 * v) == 128 * p * v; }
      p * group + 128 * p * v;
    }
  }

  lemma AtMost(a: nat, b: nat, p: nat)
    requires a <= b
    ensures a * p <= b * p
  {
  }

  /** A byte of at least `top` after `done` others makes the number too large. */
  lemma TooLarge(low: nat, done: nat, s: seq<byte>, top: nat, limit: nat)
    requires s != [] && top <= 128 && s[0] >= top && limit == Power128(done) * top
    ensures var r := Prefixed(low, done, Decode(s)); r.Some? ==> r.value.value >= limit
  {
    var d := Decode(s);
    if d.Some? {
      var p, v := Power128(done), d.value.value;
      assert v >= top;
      AtMost(top, v, p);
      Commutes(p, v);
      Commutes(p, top);
    }
  }

  lemma Powers()
    ensures Power128(4) == 0x1000_0000 && Power128(4) * 16 == U32_LIMIT
    ensures Power128(9) == 0x8000_0000_0000_0000 && Power128(9) * 2 == U64_LIMIT
  {
    assert Power128(2) == 0x4000;
    assert Power128(4) == 0x1000_0000;
    assert Power128(6) == 0x400_0000_0000;
    assert Power128(8) == 0x100_0000_0000_0000;
  }

  lemma {:induction false} PowersGrow(i: nat, j: nat)
    requires i <= j
    ensures Power128(i) <= Power128(j)
  {
    if i < j {
      PowersGrow(i, j - 1);
    }
  }

  class Cursor {
    const data: seq<byte>
    var position: nat

    ghost predicate Valid()
      reads this
    {
      position <= |data|
    }

    function Rest(): seq<byte>
      requires Valid()
      reads this
    {
      data[position..]
    }

    constructor (data: seq<byte>)
      ensures this.data == data && position == 0 && Valid()
    {
      this.data := data;
      position := 0;
    }

    method ReadSlice(length: nat) returns (value: Option<seq<byte>>)
      requires Valid()
      modifies this
      ensures Valid()
      ensures if length <= |old(Rest())|
              then value == Some(old(Rest())[..length]) && position == old(position) + length
              else value == None && position == old(position)
    {
      var end := position + length;
      if end > |data| {
        return None;
      }
      value := Some(data[position..end]);
      assert data[position..end] == data[position..][..length];
      position := end;
    }

    method ReadU8() returns (value: Option<byte>)
      requires Valid()
      modifies this
      ensures Valid()
      ensures if old(Rest()) != [] then value == Some(old(Rest())[0]) && position == old(position) + 1
              else value == None && position == old(position)
    {
      var slice := ReadSlice(1);
      value := if slice.Some? then Some(slice.value[0]) else None;
    }

    method ReadU16() returns (value: Option<u16>)
      requires Valid()
      modifies this
      ensures Valid()
      ensures if |old(Rest())| >= 2 then value == Some(U16At(old(Rest()), 0)) && position == old(position) + 2
              else value == None && position == old(position)
    {
      var slice := ReadSlice(2);
      if slice.None? {
        return None;
      }
      assert slice.value[0..2] == slice.value;
      value := Some(U16At(slice.value, 0));
    }

    method ReadU32() returns (value: Option<u32>)
      requires Valid()
      modifies this
      ensures Valid()
      ensures if |old(Rest())| >= 4 then value == Some(U32At(old(Rest()), 0)) && position == old(position) + 4
              else value == None && position == old(position)
    {
      var slice := ReadSlice(4);
      if slice.None? {
        return None;
      }
      assert slice.value[0..4] == slice.value;
      value := Some(U32At(slice.value, 0));
    }

    /** Both readers add each group of seven bits at its shift; the groups do not overlap, so the
        program's bitwise or is a sum. */
    method ReadVarU32() returns (value: Option<u32>)
      requires Valid()
      modifies this
      ensures Valid()
      ensures match DecodeBelow(old(Rest()), U32_LIMIT)
              case None => value == None
              case Some(d) => value == Some(d.value) && position == old(position) + d.length
    {
      ghost var s := Rest();
      var result: nat := 0;
      var scale: nat := 1;
      var shift := 0;
      Powers();
      ghost var i: nat := 0;
      while shift < 35
        invariant Valid() && shift == 7 * i && i <= 5 && position == old(position) + i
        invariant i < 5 ==> Underway(s, i, result, scale)
        invariant i == 5 ==> DecodeBelow(s, U32_LIMIT) == None
        decreases 35 - shift
      {
        var read := ReadU8();
        if read.None? {
          return None;
        }
        var b := read.value;
        Progress(s, i, result, scale, 4, 16, U32_LIMIT);
        if shift == 28 && b >= 16 {
          return None;
        }
        result := result + Group(b, scale);
        if b < 128 {
          if shift > 0 && b == 0 {
            return None;
          }
          return Some(result);
        }
        scale := scale * 128;
        shift := shift + 7;
        i := i + 1;
      }
      value := None;
    }

    method ReadVarU64() returns (value: Option<u64>)
      requires Valid()
      modifies this
      ensures Valid()
      ensures match DecodeBelow(old(Rest()), U64_LIMIT)
              case None => value == None
              case Some(d) => value == Some(d.value) && position == old(position) + d.length
    {
      ghost var s := Rest();
      var result: nat := 0;
      var scale: nat := 1;
      var shift := 0;
      Powers();
      ghost var i: nat := 0;
      while shift < 70
        invariant Valid() && shift == 7 * i && i <= 10 && position == old(position) + i
        invariant i < 10 ==> Underway(s, i, result, scale)
        invariant i == 10 ==> DecodeBelow(s, U64_LIMIT) == None
        decreases 70 - shift
      {
        var read := ReadU8();
        if read.None? {
          return None;
        }
        var b := read.value;
        Progress(s, i, result, scale, 9, 2, U64_LIMIT);
        if shift == 63 && b >= 2 {
          return None;
        }
        result := result + Group(b, scale);
        if b < 128 {
          if shift > 0 && b == 0 {
            return None;
          }
          return Some(result);
        }
        scale := scale * 128;
        shift := shift + 7;
        i := i + 1;
      }
      value := None;
    }
  }

  /** The seven low bits of a byte, at the place of the current group. */
  function Group(b: byte, scale: nat): nat {
    b % 128 * scale
  }

  /** The state of a reading loop after `i` continuation bytes. */
  ghost predicate Underway(s: seq<byte>, i: nat, result: nat, scale: nat) {
    && i <= |s| && scale == Power128(i) && result < scale
    && Decode(s) == Prefixed(result, i, Decode(s[i..]))
  }

  /** What one more byte tells, when group `last` may only hold values below `top`. */
  lemma Progress(s: seq<byte>, i: nat, low: nat, scale: nat, last: nat, top: nat, limit: nat)
    requires Underway(s, i, low, scale) && i < |s| && i <= last
    requires 1 <= top <= 128 && limit == Power128(last) * top
    ensures var b := s[i];
      && (i == last && b >= top ==> DecodeBelow(s, limit) == None)
      && (b < 128 && (i == last ==> b < top) ==>
            DecodeBelow(s, limit) == if i > 0 && b == 0 then None else Some(Decoded(low + Group(b, scale), i + 1)))
      && (b >= 128 ==> Underway(s, i + 1, low + Group(b, scale), scale * 128))
  {
    var b := s[i];
    if i == last && b >= top {
      TooLarge(low, i, s[i..], top, limit);
    }
    if b < 128 {
      if i == last ==> b < top {
        LastByte(s, i, low, scale, last, top, limit);
      }
    } else {
      Continues(s, i, low, scale);
    }
  }

  lemma LastByte(s: seq<byte>, i: nat, low: nat, scale: nat, last: nat, top: nat, limit: nat)
    requires Underway(s, i, low, scale) && i < |s| && i <= last && s[i] < 128 && (i == last ==> s[i] < top)
    requires 1 <= top <= 128 && limit == Power128(last) * top
    ensures DecodeBelow(s, limit) == if i > 0 && s[i] == 0 then None else Some(Decoded(low + Group(s[i], scale), i + 1))
  {
    assert Decode(s[i..]) == Some(Decoded(s[i], 1));
    SmallResult(low, i, s[i], last, top);
    Commutes(s[i], scale);
  }

  lemma Continues(s: seq<byte>, i: nat, low: nat, scale: nat)
    requires Underway(s, i, low, scale) && i < |s| && s[i] >= 128
    ensures Underway(s, i + 1, low + Group(s[i], scale), scale * 128)
  {
    PrefixedStep(low, i, s[i..]);
    assert s[i..][1..] == s[i + 1..];
    SmallStep(low, scale, s[i] - 128);
  }

  lemma Commutes(a: nat, b: nat)
    ensures a * b == b * a
  {
  }

  lemma SmallStep(low: nat, p: nat, group: nat)
    requires low < p && group < 128
    ensures low + group * p < 128 * p
    ensures low + p * group == low + group * p
  {
    AtMost(group, 127, p);
  }

  lemma SmallResult(low: nat, i: nat, b: nat, last: nat, top: nat)
    requires i <= last && low < Power128(i) && b < 128 && (i == last ==> b < top) && 1 <= top
    ensures low + b * Power128(i) < Power128(last) * top
  {
    var p := Power128(i);
    if i == last {
      AtMost(b, top - 1, p);
      assert (top - 1) * p + p == p * top;
    } else {
      AtMost(b, 127, p);
      PowersGrow(i + 1, last);
      AtMost(1, top, Power128(last));
      assert Power128(last) * top == top * Power128(last);
    }
  }
}
