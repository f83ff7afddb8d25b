/** Fixed-size records filled in place: zero except where fields are written. */
module Records {
  import opened Bytes
  import opened Pieces

  /** Fields in the order they are written. */
  datatype Fields = End | Field(offset: nat, bytes: seq<byte>, rest: Fields)

  /** The fields lie in order between `from` and `size` without overlapping. */
  predicate Fit(fields: Fields, from: nat, size: nat) {
    match fields
    case End => from <= size
    case Field(offset, bytes, rest) => from <= offset && Fit(rest, offset + |bytes|, size)
  }

  lemma {:induction false} FitsInSize(fields: Fields, from: nat, size: nat)
    requires Fit(fields, from, size)
    ensures from <= size
    ensures fields.Field? ==> fields.offset + |fields.bytes| <= size
  {
    match fields
    case End =>
    case Field(offset, bytes, rest) => FitsInSize(rest, offset + |bytes|, size);
  }

  /** The record: the fields at their offsets, zeroes between and after them. */
  function Laid(fields: Fields, from: nat, size: nat): (s: seq<byte>)
    requires Fit(fields, from, size)
    ensures |s| == size - from
  {
    FitsInSize(fields, from, size);
    match fields
    case End => Zeroes(size - from)
    case Field(offset, bytes, rest) =>
      Then(Zeroes(offset - from), Then(bytes, Laid(rest, offset + |bytes|, size)))
  }

  /** From `base + from` on: zeroes up to each field, then the field. */
  predicate Holds(s: seq<byte>, base: nat, from: nat, fields: Fields)
    decreases fields
  {
    match fields
    case End => true
    case Field(offset, bytes, rest) =>
      && (from <= offset ==> At(s, base + from, Zeroes(offset - from)))
      && At(s, base + offset, bytes) && Holds(s, base, offset + |bytes|, rest)
  }

  lemma {:induction false} LaidHolds(s: seq<byte>, base: nat, fields: Fields, from: nat, size: nat)
    requires Fit(fields, from, size) && At(s, base + from, Laid(fields, from, size))
    ensures Holds(s, base, from, fields)
  {
    hide Then, At, Zeroes;
    FitsInSize(fields, from, size);
    match fields
    case End =>
    case Field(offset, bytes, rest) =>
      var tail := Laid(rest, offset + |bytes|, size);
      Joined(s, base + from, Zeroes(offset - from), Then(bytes, tail));
      Joined(s, base + offset, bytes, tail);
      LaidHolds(s, base, rest, offset + |bytes|, size);
  }

  /** What a record holds at its first field, and after it. */
  lemma HoldsFirst(s: seq<byte>, base: nat, from: nat, fields: Fields)
    requires Holds(s, base, from, fields) && fields.Field?
    ensures At(s, base + fields.offset, fields.bytes)
    ensures from <= fields.offset ==> At(s, base + from, Zeroes(fields.offset - from))
    ensures Holds(s, base, fields.offset + |fields.bytes|, fields.rest)
  {
  }

  // ----- writing in place

  function Written(s: seq<byte>, offset: nat, bytes: seq<byte>): (r: seq<byte>)
    ensures |r| == |s|
  {
    if offset + |bytes| <= |s| then s[..offset] + bytes + s[offset + |bytes|..] else s
  }

  function WriteAll(s: seq<byte>, fields: Fields): seq<byte>
    decreases fields
  {
    match fields
    case End => s
    case Field(offset, bytes, rest) => WriteAll(Written(s, offset, bytes), rest)
  }

  /** Writes one field; `rest` are the fields still to be written. */
  method Put(record: array<byte>, offset: nat, bytes: seq<byte>, ghost rest: Fields)
    requires offset + |bytes| <= record.Length
    modifies record
    ensures WriteAll(record[..], rest) == WriteAll(old(record[..]), Field(offset, bytes, rest))
  {
    forall i | 0 <= i < |bytes| {
      record[offset + i] := bytes[i];
    }
    assert record[..] == Written(old(record[..]), offset, bytes);
  }

  /** Writing the fields one after the other into zeroes makes the record. */
  lemma {:induction false} WritesLaid(done: seq<byte>, fields: Fields, size: nat)
    requires Fit(fields, |done|, size)
    ensures |done| <= size && WriteAll(done + Zeroes(size - |done|), fields) == done + Laid(fields, |done|, size)
    decreases fields
  {
    hide Fit, Zeroes;
    FitsInSize(fields, |done|, size);
    match fields
    case End =>
    case Field(offset, bytes, rest) =>
      FitRest(fields, |done|, size);
      WritesOne(done, offset, bytes, size);
      var next := done + Zeroes(offset - |done|) + bytes;
      WritesLaid(next, rest, size);
      assert next + Laid(rest, |next|, size) == done + Laid(fields, |done|, size);
  }

  lemma FitRest(fields: Fields, from: nat, size: nat)
    requires Fit(fields, from, size) && fields.Field?
    ensures from <= fields.offset && Fit(fields.rest, fields.offset + |fields.bytes|, size)
  {
  }

  lemma WritesOne(done: seq<byte>, offset: nat, bytes: seq<byte>, size: nat)
    requires |done| <= offset && offset + |bytes| <= size
    ensures Written(done + Zeroes(size - |done|), offset, bytes) ==
            done + Zeroes(offset - |done|) + bytes + Zeroes(size - offset - |bytes|)
  {
    var s := done + Zeroes(size - |done|);
    assert s[..offset] == done + Zeroes(offset - |done|);
    assert s[offset + |bytes|..] == Zeroes(size - offset - |bytes|);
  }

  lemma FilledRecord(fields: Fields, size: nat)
    requires Fit(fields, 0, size)
    ensures WriteAll(Zeroes(size), fields) == Laid(fields, 0, size)
  {
    hide Fit, Laid, WriteAll, Zeroes;
    WritesLaid([], fields, size);
    assert [] + Zeroes(size) == Zeroes(size);
    assert [] + Laid(fields, 0, size) == Laid(fields, 0, size);
  }

  lemma Blank(s: seq<byte>)
    requires forall i :: 0 <= i < |s| ==> s[i] == 0
    ensures s == Zeroes(|s|)
  {
  }

  lemma Finished(s: seq<byte>)
    ensures WriteAll(s, End) == s
  {
  }
}
