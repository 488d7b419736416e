/** The CRC-8/ATM register of firmware/protocol/crc8.c and supervisor/protocol.py. */
module Crc8 {
  import opened Bytes

  /** The eight flip-flops of the register, `b7` the most significant. */
  datatype Word = Word(b7: bool, b6: bool, b5: bool, b4: bool,
                       b3: bool, b2: bool, b1: bool, b0: bool)

  const ZERO := Word(false, false, false, false, false, false, false, false)

  function OfBv(v: bv8): Word {
    Word(v & 0x80 != 0, v & 0x40 != 0, v & 0x20 != 0, v & 0x10 != 0,
         v & 0x08 != 0, v & 0x04 != 0, v & 0x02 != 0, v & 0x01 != 0)
  }

  function ToBv(w: Word): bv8 {
    (((if w.b7 then 0x80 else 0) | (if w.b6 then 0x40 else 0))
    | ((if w.b5 then 0x20 else 0) | (if w.b4 then 0x10 else 0)))
    | (((if w.b3 then 0x08 else 0) | (if w.b2 then 0x04 else 0))
    | ((if w.b1 then 0x02 else 0) | (if w.b0 then 0x01 else 0)))
  }

  /** A number without, and with, its top binary digit. */
  function Cut(b: nat, weight: nat): (low: nat)
    ensures b < 2 * weight ==> low < weight
  {
    if b >= weight then b - weight else b
  }

  function Put(bit: bool, weight: nat, low: nat): (b: nat)
    ensures low < weight ==> b < 2 * weight
  {
    if bit then weight + low else low
  }

  lemma PutAndCut(bit: bool, weight: nat, low: nat)
    requires low < weight
    ensures (Put(bit, weight, low) >= weight) == bit && Cut(Put(bit, weight, low), weight) == low
  {
  }

  lemma CutAndPut(b: nat, weight: nat)
    ensures Put(b >= weight, weight, Cut(b, weight)) == b
  {
  }

  /** Binary expansion. */
  function OfOctet(b: Octet): Word {
    var r6 := Cut(b, 0x80);
    var r5 := Cut(r6, 0x40);
    var r4 := Cut(r5, 0x20);
    var r3 := Cut(r4, 0x10);
    var r2 := Cut(r3, 0x08);
    var r1 := Cut(r2, 0x04);
    var r0 := Cut(r1, 0x02);
    Word(b >= 0x80, r6 >= 0x40, r5 >= 0x20, r4 >= 0x10, r3 >= 0x08, r2 >= 0x04, r1 >= 0x02, r0 >= 0x01)
  }

  function ToOctet(w: Word): Octet {
    var v0 := Put(w.b0, 0x01, 0);
    var v1 := Put(w.b1, 0x02, v0);
    var v2 := Put(w.b2, 0x04, v1);
    var v3 := Put(w.b3, 0x08, v2);
    var v4 := Put(w.b4, 0x10, v3);
    var v5 := Put(w.b5, 0x20, v4);
    var v6 := Put(w.b6, 0x40, v5);
    Put(w.b7, 0x80, v6)
  }

  lemma OfToOctet(w: Word)
    ensures OfOctet(ToOctet(w)) == w
  {
    hide Put, Cut;
    var v0 := Put(w.b0, 0x01, 0);
    var v1 := Put(w.b1, 0x02, v0);
    var v2 := Put(w.b2, 0x04, v1);
    var v3 := Put(w.b3, 0x08, v2);
    var v4 := Put(w.b4, 0x10, v3);
    var v5 := Put(w.b5, 0x20, v4);
    var v6 := Put(w.b6, 0x40, v5);
    PutAndCut(w.b7, 0x80, v6);
    PutAndCut(w.b6, 0x40, v5);
    PutAndCut(w.b5, 0x20, v4);
    PutAndCut(w.b4, 0x10, v3);
    PutAndCut(w.b3, 0x08, v2);
    PutAndCut(w.b2, 0x04, v1);
    PutAndCut(w.b1, 0x02, v0);
    PutAndCut(w.b0, 0x01, 0);
  }

  lemma ToOfOctet(b: Octet)
    ensures ToOctet(OfOctet(b)) == b
  {
    hide Put, Cut;
    var r6 := Cut(b, 0x80);
    var r5 := Cut(r6, 0x40);
    var r4 := Cut(r5, 0x20);
    var r3 := Cut(r4, 0x10);
    var r2 := Cut(r3, 0x08);
    var r1 := Cut(r2, 0x04);
    var r0 := Cut(r1, 0x02);
    CutAndPut(b, 0x80);
    CutAndPut(r6, 0x40);
    CutAndPut(r5, 0x20);
    CutAndPut(r4, 0x10);
    CutAndPut(r3, 0x08);
    CutAndPut(r2, 0x04);
    CutAndPut(r1, 0x02);
    CutAndPut(r0, 0x01);
    LastDigit(r0);
  }

  lemma LastDigit(r0: nat)
    requires r0 < 2
    ensures Cut(r0, 0x01) == 0
  {
  }

  function Xor(a: Word, b: Word): Word {
    Word(a.b7 != b.b7, a.b6 != b.b6, a.b5 != b.b5, a.b4 != b.b4,
         a.b3 != b.b3, a.b2 != b.b2, a.b1 != b.b1, a.b0 != b.b0)
  }

  /** One bit time: multiply by x and, on overflow, subtract x^8 + x^2 + x + 1. */
  function Shift(w: Word): Word {
    Word(w.b6, w.b5, w.b4, w.b3, w.b2, w.b1 != w.b7, w.b0 != w.b7, w.b7)
  }

  function ShiftN(w: Word, n: nat): Word {
    if n == 0 then w else Shift(ShiftN(w, n - 1))
  }

  function Feed(w: Word, b: Word): Word {
    ShiftN(Xor(w, b), 8)
  }

  /** The register after the bytes `data`, starting from zero. */
  function Register(data: seq<Word>): Word {
    if |data| == 0 then ZERO else Feed(Register(data[..|data| - 1]), data[|data| - 1])
  }

  /** The octets of `data` as bit vectors. */
  function Words(data: seq<Octet>): (words: seq<Word>)
    ensures |words| == |data|
    ensures forall i :: 0 <= i < |data| ==> words[i] == OfOctet(data[i])
  {
    seq(|data|, i requires 0 <= i < |data| => OfOctet(data[i]))
  }

  function Crc(data: seq<Octet>): Octet {
    ToOctet(Register(Words(data)))
  }

  lemma RegisterNext(data: seq<Octet>, k: nat)
    requires k < |data|
    ensures Register(Words(data[..k + 1])) == Feed(Register(Words(data[..k])), OfOctet(data[k]))
  {
    assert Words(data[..k + 1])[..k] == Words(data[..k]);
  }

  lemma OfToBv(w: Word)
    ensures OfBv(ToBv(w)) == w
  {
  }

  lemma BvXor(a: bv8, b: bv8)
    ensures OfBv(a ^ b) == Xor(OfBv(a), OfBv(b))
  {
    XorMask(a, b, 0x80);
    XorMask(a, b, 0x40);
    XorMask(a, b, 0x20);
    XorMask(a, b, 0x10);
    XorMask(a, b, 0x08);
    XorMask(a, b, 0x04);
    XorMask(a, b, 0x02);
    XorMask(a, b, 0x01);
  }

  lemma XorMask(a: bv8, b: bv8, mask: bv8)
    requires mask & (mask - 1) == 0 && mask != 0
    ensures ((a ^ b) & mask != 0) == ((a & mask != 0) != (b & mask != 0))
  {
  }

  lemma BvShift(v: bv8)
    ensures OfBv(if v & 0x80 != 0 then (v << 1) ^ 0x07 else v << 1) == Shift(OfBv(v))
  {
  }

  /** `crc ^= byte`. */
  method XorInto(register: bv8, b: bv8) returns (crc: bv8)
    ensures OfBv(crc) == Xor(OfBv(register), OfBv(b))
  {
    BvXor(register, b);
    crc := register ^ b;
  }

  /** The body of the bit loop in C, where the register is a `uint8_t`. */
  method ShiftOnce(register: bv8) returns (crc: bv8)
    ensures OfBv(crc) == Shift(OfBv(register))
  {
    BvShift(register);
    if register & 0x80 != 0 {
      crc := (register << 1) ^ 0x07;
    } else {
      crc := register << 1;
    }
  }

  /** The body of the bit loop in Python, where the register is wider and masked. */
  method ShiftOnceMasked(register: bv16) returns (crc: bv16)
    requires register <= 0xFF
    ensures crc <= 0xFF && OfBv(crc as bv8) == Shift(OfBv(register as bv8))
  {
    BvShift(register as bv8);
    if register & 0x80 != 0 {
      crc := ((register << 1) ^ 0x07) & 0xFF;
      assert crc as bv8 == ((register as bv8) << 1) ^ 0x07;
    } else {
      crc := (register << 1) & 0xFF;
      assert crc as bv8 == (register as bv8) << 1;
    }
  }

  lemma NarrowXor(a: bv16, b: bv8)
    requires a <= 0xFF
    ensures a ^ (b as bv16) <= 0xFF
    ensures (a ^ (b as bv16)) as bv8 == (a as bv8) ^ b
  {
  }

  method XorIntoMasked(register: bv16, b: bv8) returns (crc: bv16)
    requires register <= 0xFF
    ensures crc <= 0xFF && OfBv(crc as bv8) == Xor(OfBv(register as bv8), OfBv(b))
  {
    NarrowXor(register, b);
    BvXor(register as bv8, b);
    crc := register ^ (b as bv16);
  }

  /** `crc8_compute`, including its null guard. */
  method Crc8Compute(data: array?<Octet>, length: Octet) returns (result: Octet)
    requires data != null ==> length <= data.Length
    ensures data == null ==> result == 0
    ensures data != null ==> result == Crc(data[..length])
  {
    var crc: bv8 := 0;
    if data == null {
      return 0;
    }
    var byteIndex := 0;
    while byteIndex < length
      invariant 0 <= byteIndex <= length
      invariant OfBv(crc) == Register(Words(data[..byteIndex]))
    {
      ghost var mixed := Xor(OfBv(crc), OfOctet(data[byteIndex]));
      OfToBv(OfOctet(data[byteIndex]));
      crc := XorInto(crc, ToBv(OfOctet(data[byteIndex])));
      for bitIndex := 0 to 8
        invariant OfBv(crc) == ShiftN(mixed, bitIndex)
      {
        crc := ShiftOnce(crc);
      }
      RegisterNext(data[..], byteIndex);
      assert data[..][..byteIndex] == data[..byteIndex];
      assert data[..][..byteIndex + 1] == data[..byteIndex + 1];
      byteIndex := byteIndex + 1;
    }
    result := ToOctet(OfBv(crc));
  }

  /** `crc8_atm`. */
  method Crc8Atm(data: seq<Octet>) returns (result: int)
    ensures result == Crc(data)
  {
    var crc: bv16 := 0;
    for k := 0 to |data|
      invariant crc <= 0xFF && OfBv(crc as bv8) == Register(Words(data[..k]))
    {
      ghost var mixed := Xor(OfBv(crc as bv8), OfOctet(data[k]));
      OfToBv(OfOctet(data[k]));
      crc := XorIntoMasked(crc, ToBv(OfOctet(data[k])));
      for bitIndex := 0 to 8
        invariant crc <= 0xFF && OfBv(crc as bv8) == ShiftN(mixed, bitIndex)
      {
        crc := ShiftOnceMasked(crc);
      }
      RegisterNext(data, k);
    }
    assert data[..|data|] == data;
    result := ToOctet(OfBv(crc as bv8));
  }
}
