/** Bytes, byte strings and the machine integers of the C sources. */
module Bytes {

  type byte = x: int | 0 <= x < 256

  datatype Option<+T> = None | Some(value: T)

  // Characters the protocol and its printers use.
  const NUL: byte := 0
  const LF: byte := 10
  const CR: byte := 13
  const SPACE: byte := 32
  const PERCENT: byte := 37
  const DOLLAR: byte := 36
  const STAR: byte := 42
  const MINUS: byte := 45
  const ZERO: byte := 48
  const NINE: byte := 57
  const CRLF: seq<byte> := [CR, LF]

  const INT_MIN: int := -0x8000_0000
  const INT_MAX: int := 0x7fff_ffff
  // The C types int, and long to int conversion: the low 32 bits, in two's complement.
  type CInt = x: int | INT_MIN <= x <= INT_MAX

  function ToCInt(n: int): (r: CInt)
    ensures (r - n) % 0x1_0000_0000 == 0 && -0x8000_0000 <= r < 0x8000_0000
    ensures r == n <==> -0x8000_0000 <= n < 0x8000_0000
  {
    var low := n % 0x1_0000_0000;
    if low > INT_MAX then low - 0x1_0000_0000 else low
  }

  // Narrowing after every addition is narrowing the sum.
  lemma ToCIntAdds(a: int, b: int)
    ensures ToCInt(ToCInt(a) + b) == ToCInt(a + b)
  {
    var k := (a - ToCInt(a)) / 0x1_0000_0000;
    assert a == ToCInt(a) + k * 0x1_0000_0000;
    SameLowBits(ToCInt(a) + b, k);
  }

  lemma SameLowBits(n: int, k: int)
    ensures ToCInt(n + k * 0x1_0000_0000) == ToCInt(n)
  {
    assert (n + k * 0x1_0000_0000) % 0x1_0000_0000 == n % 0x1_0000_0000;
  }

  const INT64_MIN: int := -0x8000_0000_0000_0000
  const INT64_MAX: int := 0x7fff_ffff_ffff_ffff
  const UINT64_MAX: int := 0xffff_ffff_ffff_ffff

  predicate Int64(n: int) {
    INT64_MIN <= n <= INT64_MAX
  }

  predicate UInt64(n: int) {
    0 <= n <= UINT64_MAX
  }

  // Unsigned 64-bit negation, and the conversion of an unsigned word to a signed one.
  function Neg64(v: int): (r: int)
    requires UInt64(v)
    ensures UInt64(r)
  {
    if v == 0 then 0 else UINT64_MAX + 1 - v
  }

  function ToInt64(v: int): (r: int)
    requires UInt64(v)
    ensures Int64(r)
  {
    if v <= INT64_MAX then v else v - (UINT64_MAX + 1)
  }

  function ToUInt64(n: int): (r: int)
    requires Int64(n)
    ensures UInt64(r)
  {
    if n < 0 then n + (UINT64_MAX + 1) else n
  }

  // The concatenation of a list of byte strings.
  function Concat(parts: seq<seq<byte>>): (s: seq<byte>) {
    if parts == [] then [] else parts[0] + Concat(parts[1..])
  }

  lemma {:induction false} ConcatAppend(parts: seq<seq<byte>>, last: seq<byte>)
    ensures Concat(parts + [last]) == Concat(parts) + last
  {
    if parts == [] {
      assert parts + [last] == [last];
      assert Concat([last]) == last + Concat([]);
    } else {
      ConcatAppend(parts[1..], last);
      assert (parts + [last])[1..] == parts[1..] + [last];
    }
  }
}
