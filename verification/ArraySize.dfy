/** The overflow check the probes apply to element count times element size. */
module ArraySize {
  import opened Bytes

  const HALF: nat := U32_LIMIT

  /** C's unsigned 64-bit multiplication and addition. */
  function Wrap(n: nat): u64 {
    n % U64_LIMIT
  }

  /** The two partial products joined, or nothing when the sum leaves 64 bits. */
  function Join(low: u64, high: u64): (r: Option<u64>)
    ensures r == if low + high * HALF < U64_LIMIT then Some(low + high * HALF) else None
  {
    if high >= HALF then None
    else
      var total := Wrap(low + Wrap(high * HALF));
      if total >= low then Some(total) else None
  }

  /** What the check answers: the total it accepts, or nothing. */
  function Checked(size: u64, count: u64): Option<u64> {
    Join(Wrap(size % HALF * count), Wrap(size / HALF * count))
  }

  /** What it should answer. */
  function Product(size: u64, count: u64): Option<u64> {
    if size * count < U64_LIMIT then Some(size * count) else None
  }

  method CheckedArraySize(size: u64, count: u64) returns (ok: bool, total: u64)
    ensures (if ok then Some(total) else None) == Checked(size, count)
  {
    var low := Wrap(size % HALF * count);
    var high := Wrap(size / HALF * count);
    ok, total := JoinParts(low, high);
  }

  method JoinParts(low: u64, high: u64) returns (ok: bool, total: u64)
    ensures (if ok then Some(total) else None) == Join(low, high)
  {
    total := 0;
    if high > 0xffffffff {
      return false, total;
    }
    var shifted := Wrap(high * HALF);
    total := Wrap(low + shifted);
    ok := total >= low;
  }

  lemma Monotone(a: nat, b: nat, c: nat)
    requires a <= b
    ensures a * c <= b * c
  {
  }

  lemma PartialProductFits(half: nat, count: nat)
    requires half < HALF && count <= HALF + 1
    ensures half * count < U64_LIMIT
  {
    Monotone(half, HALF - 1, count);
    assert (HALF - 1) * count <= (HALF - 1) * (HALF + 1);
  }

  lemma SplitProduct(lo: nat, hi: nat, count: nat)
    ensures (lo + hi * HALF) * count == lo * count + hi * count * HALF
  {
    calc {
      (lo + hi * HALF) * count;
      lo * count + hi * HALF * count;
      { assert hi * HALF * count == hi * count * HALF; }
      lo * count + hi * count * HALF;
    }
  }

  lemma Exact(size: u64, count: u64)
    requires count <= HALF + 1
    ensures Checked(size, count) == Product(size, count)
  {
    var lo, hi := size % HALF, size / HALF;
    PartialProductFits(lo, count);
    PartialProductFits(hi, count);
    SplitProduct(lo, hi, count);
    var low: u64, high: u64 := lo * count, hi * count;
    assert Wrap(low) == low && Wrap(high) == high;
  }

  /** What the check accepts with a total of zero: both partial products wrap to zero. */
  lemma AcceptedAsZero(size: u64, count: u64)
    ensures Checked(size, count) == Some(0) <==>
            size % 0x1_0000_0000 * count % 0x1_0000_0000_0000_0000 == 0 &&
            size / 0x1_0000_0000 * count % 0x1_0000_0000_0000_0000 == 0
  {
    hide Join;
  }

  /** One element size that fools the check for every larger count. */
  lemma Fooled(count: u64)
    requires count > HALF + 1
    ensures Checked(HALF - 1, count) != Product(HALF - 1, count)
  {
    var size: u64 := HALF - 1;
    assert size % HALF == size && size / HALF == 0;
    assert size * count >= (HALF - 1) * (HALF + 2) >= U64_LIMIT;
    assert Wrap(0 * count) == 0;
    assert Checked(size, count) == Some(Wrap(size * count));
  }

  /** The check is right for every element size exactly when the count is at most 2^32 + 1. */
  lemma ExactIffCountBounded(count: u64)
    ensures (forall size: u64 :: Checked(size, count) == Product(size, count)) <==> count <= HALF + 1
  {
    if count <= HALF + 1 {
      forall size: u64 ensures Checked(size, count) == Product(size, count) {
        Exact(size, count);
      }
    } else {
      Fooled(count);
      var size: u64 := HALF - 1;
      assert Checked(size, count) != Product(size, count);
    }
  }
}
