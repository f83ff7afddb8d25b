/** Fixed-width little-endian integers and the small wrappers the other modules share. */
module Bytes {

  datatype Option<+T> = None | Some(value: T) {
    predicate IsFailure() {
      None?
    }

    function PropagateFailure<U>(): Option<U>
      requires None?
    {
      None
    }

    function Extract(): T
      requires Some?
    {
      value
    }
  }

  datatype Result<+T, +E> = Ok(value: T) | Err(error: E) {
    predicate IsFailure() {
      Err?
    }

    function PropagateFailure<U>(): Result<U, E>
      requires Err?
    {
      Err(error)
    }

    function Extract(): T
      requires Ok?
    {
      value
    }
  }

  type byte = b: int | 0 <= b < 256

  const U16_LIMIT: nat := 0x1_0000
  const U32_LIMIT: nat := 0x1_0000_0000
  const U64_LIMIT: nat := 0x1_0000_0000_0000_0000

  type u16 = n: int | 0 <= n < 0x1_0000
  type u32 = n: int | 0 <= n < 0x1_0000_0000
  type u64 = n: int | 0 <= n < 0x1_0000_0000_0000_0000

  type i32 = n: int | -0x8000_0000 <= n < 0x8000_0000

  /** The 32 bits of a signed number. */
  function Word(n: i32): u32 {
    if n < 0 then n + U32_LIMIT else n
  }

  /** 256 to the power `width`: how many values `width` bytes can hold. */
  function Capacity(width: nat): (n: nat)
    ensures n > 0
  {
    if width == 0 then 1 else 256 * Capacity(width - 1)
  }

  /** The `width` low bytes of `value`, least significant first. */
  function Little(value: nat, width: nat): (s: seq<byte>)
    ensures |s| == width
  {
    if width == 0 then [] else [value % 256] + Little(value / 256, width - 1)
  }

  /** The number whose little-endian bytes are `s`. */
  function Value(s: seq<byte>): (n: nat)
    ensures n < Capacity(|s|)
  {
    if s == [] then 0 else s[0] + 256 * Value(s[1..])
  }

  lemma {:induction false} ValueOfLittle(value: nat, width: nat)
    requires value < Capacity(width)
    ensures Value(Little(value, width)) == value
  {
    if width > 0 {
      ValueOfLittle(value / 256, width - 1);
      assert Little(value, width)[1..] == Little(value / 256, width - 1);
    }
  }

  lemma {:induction false} LittleOfValue(s: seq<byte>)
    ensures Little(Value(s), |s|) == s
  {
    if s != [] {
      LittleOfValue(s[1..]);
      Digits(s[0], Value(s[1..]));
      assert [s[0]] + s[1..] == s;
    }
  }

  lemma Digits(low: byte, rest: nat)
    ensures (low + 256 * rest) % 256 == low && (low + 256 * rest) / 256 == rest
  {
  }

  lemma Capacities()
    ensures Capacity(1) == 256
    ensures Capacity(2) == U16_LIMIT
    ensures Capacity(4) == U32_LIMIT
    ensures Capacity(8) == U64_LIMIT
  {
    assert Capacity(3) == 0x100_0000;
    assert Capacity(5) == 0x100_0000_0000;
    assert Capacity(6) == 0x1_0000_0000_0000;
    assert Capacity(7) == 0x100_0000_0000_0000;
  }

  function Le16(value: u16): (s: seq<byte>)
    ensures |s| == 2 && Value(s) == value
  {
    Capacities(); ValueOfLittle(value, 2);
    Little(value, 2)
  }

  function Le32(value: u32): (s: seq<byte>)
    ensures |s| == 4 && Value(s) == value
  {
    Capacities(); ValueOfLittle(value, 4);
    Little(value, 4)
  }

  function Le64(value: u64): (s: seq<byte>)
    ensures |s| == 8 && Value(s) == value
  {
    Capacities(); ValueOfLittle(value, 8);
    Little(value, 8)
  }

  /** The low byte comes first. */
  lemma LowByteFirst(value: u32)
    ensures Le32(value) == [value % 256, value / 0x100 % 256, value / 0x1_0000 % 256, value / 0x100_0000]
  {
    var a, b, c := value / 0x100, value / 0x1_0000, value / 0x100_0000;
    Quotients(value);
    assert Little(value, 4) == [value % 256] + Little(a, 3);
    assert Little(a, 3) == [a % 256] + Little(b, 2);
    assert Little(b, 2) == [b % 256] + Little(c, 1);
    assert Little(c, 1) == [c % 256];
  }

  lemma Quotients(value: nat)
    ensures value / 0x100 / 256 == value / 0x1_0000 && value / 0x1_0000 / 256 == value / 0x100_0000
  {
  }

  /** The bytes of plain text. */
  function Text(s: string): (r: seq<byte>)
    ensures |r| == |s|
  {
    seq(|s|, i requires 0 <= i < |s| => s[i] as int % 256)
  }

  /** The unsigned 16-, 32- and 64-bit fields of `s` at `offset`. */
  function U16At(s: seq<byte>, offset: nat): u16
    requires offset + 2 <= |s|
  {
    Capacities();
    Value(s[offset..offset + 2])
  }

  function U32At(s: seq<byte>, offset: nat): u32
    requires offset + 4 <= |s|
  {
    Capacities();
    Value(s[offset..offset + 4])
  }

  function U64At(s: seq<byte>, offset: nat): u64
    requires offset + 8 <= |s|
  {
    Capacities();
    Value(s[offset..offset + 8])
  }

  function Zeroes(n: nat): (s: seq<byte>)
    ensures |s| == n && forall i :: 0 <= i < n ==> s[i] == 0
  {
    seq(n, i => 0)
  }

  function Min(a: int, b: int): int {
    if a <= b then a else b
  }

  /** How many bytes reach the next multiple of four. */
  function Padding(n: nat): (p: nat)
    ensures (n + p) % 4 == 0 && p < 4
  {
    (4 - n % 4) % 4
  }
}
