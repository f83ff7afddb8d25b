/** Byte strings standing at positions of a larger one. */
module Pieces {
  import opened Bytes

  /** `piece` stands in `block` at position `at`. */
  predicate At(block: seq<byte>, at: nat, piece: seq<byte>) {
    at + |piece| <= |block| && block[at..at + |piece|] == piece
  }

  function Then(a: seq<byte>, b: seq<byte>): (s: seq<byte>)
    ensures |s| == |a| + |b|
  {
    a + b
  }

  lemma Joined(block: seq<byte>, at: nat, a: seq<byte>, b: seq<byte>)
    ensures At(block, at, Then(a, b)) <==> At(block, at, a) && At(block, at + |a|, b)
  {
    if At(block, at, Then(a, b)) {
      assert block[at..at + |a|] == block[at..at + |a + b|][..|a|];
      assert block[at + |a|..at + |a| + |b|] == block[at..at + |a + b|][|a|..];
    }
    if At(block, at, a) && At(block, at + |a|, b) {
      assert block[at..at + |a + b|] == block[at..at + |a|] + block[at + |a|..at + |a| + |b|];
    }
  }

  lemma ByteAt(block: seq<byte>, at: nat, b: byte)
    ensures At(block, at, [b]) <==> at < |block| && block[at] == b
  {
    if at < |block| {
      assert block[at..at + 1] == [block[at]];
    }
  }

  lemma SliceAt(block: seq<byte>, at: nat, length: nat)
    requires at + length <= |block|
    ensures At(block, at, block[at..at + length])
  {
  }

  lemma Fits(block: seq<byte>, at: nat, piece: seq<byte>)
    requires At(block, at, piece)
    ensures at + |piece| <= |block|
  {
  }

  lemma AtEnd(block: seq<byte>, at: nat, piece: seq<byte>)
    requires at <= |block|
    ensures block[at..] == piece <==> At(block, at, piece) && at + |piece| == |block|
  {
  }

  lemma ReadsWord(block: seq<byte>, at: nat, word: u32)
    requires At(block, at, Le32(word))
    ensures at + 4 <= |block| && U32At(block, at) == word
  {
  }

  lemma ReadsHalf(block: seq<byte>, at: nat, half: u16)
    requires At(block, at, Le16(half))
    ensures at + 2 <= |block| && U16At(block, at) == half
  {
  }

  lemma ReadsLong(block: seq<byte>, at: nat, long: u64)
    requires At(block, at, Le64(long))
    ensures at + 8 <= |block| && U64At(block, at) == long
  {
  }

  lemma WroteWord(block: seq<byte>, at: nat)
    requires at + 4 <= |block|
    ensures At(block, at, Le32(U32At(block, at)))
  {
    Capacities();
    LittleOfValue(block[at..at + 4]);
  }

  lemma Slice(block: seq<byte>, at: nat, piece: seq<byte>)
    requires At(block, at, piece)
    ensures at + |piece| <= |block| && block[at..at + |piece|] == piece
  {
  }

  lemma PieceAt(block: seq<byte>, at: nat, length: nat)
    requires at + length <= |block|
    ensures At(block, at, block[at..][..length])
  {
    assert block[at..][..length] == block[at..at + length];
  }

  lemma Whole(s: seq<byte>)
    ensures At(s, 0, s)
  {
  }
}
