/** Octets, big-endian 16-bit fields, saturating time and small facts that many modules share. */
module Bytes {
  type byte = x: int | 0 <= x < 256

  const U16_MAX := 65535
  /** The longest DNS message. */
  const MAX_WIRE := 65535
  const U64_MAX := 0xffff_ffff_ffff_ffff

  /** The two octets `u16::to_be_bytes` writes for the low 16 bits of `n`. */
  function Be16(n: nat): (s: seq<byte>)
    ensures |s| == 2
  {
    [n / 256 % 256, n % 256]
  }

  /** `u16::from_be_bytes`. */
  function FromBe16(hi: byte, lo: byte): (n: nat)
    ensures n <= U16_MAX
  {
    hi * 256 + lo
  }

  /** Writing a 16-bit value and reading it back is the identity, in both directions. */
  lemma Be16RoundTrip(n: nat, hi: byte, lo: byte)
    ensures n <= U16_MAX ==> FromBe16(Be16(n)[0], Be16(n)[1]) == n
    ensures Be16(FromBe16(hi, lo)) == [hi, lo]
  {
    assert FromBe16(hi, lo) / 256 == hi;
  }

  function Min(a: int, b: int): int { if a <= b then a else b }

  /** `u64::saturating_add`. */
  function SatAdd(a: nat, b: nat): nat { Min(a + b, U64_MAX) }

  lemma Assoc<T>(a: seq<T>, b: seq<T>, c: seq<T>)
    ensures a + (b + c) == (a + b) + c
  {
  }

  lemma SubsetSize<T>(a: set<T>, b: set<T>)
    requires a <= b
    ensures |a| <= |b|
  {
    assert b == a + (b - a);
  }
}
