/** Vocabulary shared by both ends of the serial link: octets, C integer widths,
    little-endian integers, and the usual wrappers. */
module Bytes {

  type Octet = x: int | 0 <= x < 256

  datatype Option<+T> = None | Some(value: T)

  datatype Result<+T, +E> = Ok(value: T) | Err(error: E)

  const UINT8_MAX := 0xFF
  const UINT16_MAX := 0xFFFF
  const UINT32_MAX := 0xFFFF_FFFF

  /** C subtraction of two `uint16_t` values, cast back to `uint16_t`. */
  function Sub16(a: int, b: int): nat {
    (a - b) % 0x1_0000
  }

  /** C subtraction of two `uint32_t` values. */
  function Sub32(a: int, b: int): nat {
    (a - b) % 0x1_0000_0000
  }

  /** Wrapped subtraction recovers the true distance of two unbounded times. */
  lemma Sub32OfWrapped(later: nat, earlier: nat)
    requires earlier <= later < earlier + 0x1_0000_0000
    ensures Sub32(later % 0x1_0000_0000, earlier % 0x1_0000_0000) == later - earlier
  {
    var w := 0x1_0000_0000;
    assert later - earlier == (later % w - earlier % w) + w * (later / w - earlier / w);
  }

  lemma Sub16OfWrapped(later: nat, earlier: nat)
    requires earlier <= later < earlier + 0x1_0000
    ensures Sub16(later % 0x1_0000, earlier % 0x1_0000) == later - earlier
  {
    var w := 0x1_0000;
    assert later - earlier == (later % w - earlier % w) + w * (later / w - earlier / w);
  }

  function Min(a: int, b: int): int {
    if a <= b then a else b
  }

  /** The first `n` bytes of `value`, least significant first. */
  function LittleEndian(value: nat, n: nat): (bytes: seq<Octet>)
    ensures |bytes| == n
  {
    if n == 0 then [] else [value % 256] + LittleEndian(value / 256, n - 1)
  }

  /** `int.from_bytes(bytes, "little")`. */
  function FromLittleEndian(bytes: seq<Octet>): nat {
    if bytes == [] then 0 else bytes[0] + 256 * FromLittleEndian(bytes[1..])
  }

  function Pow256(n: nat): nat {
    if n == 0 then 1 else 256 * Pow256(n - 1)
  }

  lemma {:induction false} FromLittleEndianRoundTrip(bytes: seq<Octet>)
    ensures FromLittleEndian(bytes) < Pow256(|bytes|)
    ensures LittleEndian(FromLittleEndian(bytes), |bytes|) == bytes
  {
    if |bytes| > 0 {
      var first, rest := bytes[0], FromLittleEndian(bytes[1..]);
      FromLittleEndianRoundTrip(bytes[1..]);
      LowByte(first, rest);
      assert LittleEndian(first + 256 * rest, |bytes|) == [first] + LittleEndian(rest, |bytes| - 1);
    }
  }

  lemma LowByte(low: Octet, high: nat)
    ensures (low + 256 * high) % 256 == low && (low + 256 * high) / 256 == high
  {
  }

  lemma {:induction false} LittleEndianRoundTrip(value: nat, n: nat)
    requires value < Pow256(n)
    ensures FromLittleEndian(LittleEndian(value, n)) == value
  {
    if n > 0 {
      assert value / 256 < Pow256(n - 1);
      LittleEndianRoundTrip(value / 256, n - 1);
      assert LittleEndian(value, n)[1..] == LittleEndian(value / 256, n - 1);
    }
  }
}
