/** What the CRC loop computes, read as arithmetic on polynomials over GF(2).

    A sequence of bits is a polynomial, most significant coefficient first. The
    generator is x^8 + x^2 + x + 1, the ATM header error control polynomial of
    section 4.3.2 of ITU-T I.432.1. */
module CrcDivision {
  import opened Bytes
  import opened Crc8

  type Bits = seq<bool>

  /** `bits` followed by the eight bits of `w`, most significant first. */
  function AppendWord(bits: Bits, w: Word): (longer: Bits)
    ensures |longer| == |bits| + 8
  {
    (bits + [w.b7, w.b6, w.b5, w.b4]) + [w.b3, w.b2, w.b1, w.b0]
  }

  function ToBits(data: seq<Word>): (bits: Bits)
    ensures |bits| == 8 * |data|
  {
    if |data| == 0 then []
    else AppendWord(ToBits(data[..|data| - 1]), data[|data| - 1])
  }

  /** Bit `i` of `w`, counting from the most significant. */
  function WordAt(w: Word, i: int): bool {
    if i == 0 then w.b7 else if i == 1 then w.b6 else if i == 2 then w.b5
    else if i == 3 then w.b4 else if i == 4 then w.b3 else if i == 5 then w.b2
    else if i == 6 then w.b1 else i == 7 && w.b0
  }

  function At(bits: Bits, i: int): bool {
    0 <= i < |bits| && bits[i]
  }

  /** Coefficient `i` of `q * (x^8 + x^2 + x + 1)`, a polynomial of |q| + 8 bits. */
  function Product(q: Bits, i: int): bool {
    ((At(q, i) != At(q, i - 6)) != At(q, i - 7)) != At(q, i - 8)
  }

  /** `m * x^8 == q * (x^8 + x^2 + x + 1) + r` with `deg r < 8`. */
  ghost predicate DividesTo(m: Bits, q: Bits, r: Word) {
    && |q| == |m|
    && forall i :: 0 <= i < |m| + 8 ==> At(m, i) == (Product(q, i) != WordAt(r, i - |m|))
  }

  /** The register fed one bit at a time. */
  function BitStep(w: Word, b: bool): Word {
    Shift(w.(b7 := w.b7 != b))
  }

  function BitRegister(bits: Bits): Word {
    if |bits| == 0 then ZERO else BitStep(BitRegister(bits[..|bits| - 1]), bits[|bits| - 1])
  }

  /** The feedback bits, in order. */
  function Quotient(bits: Bits): (q: Bits)
    ensures |q| == |bits|
  {
    if |bits| == 0 then []
    else
      var shorter := bits[..|bits| - 1];
      Quotient(shorter) + [BitRegister(shorter).b7 != bits[|bits| - 1]]
  }

  // ----- the byte loop is the bit loop -----

  lemma AppendBit(bits: Bits, b: bool)
    ensures BitRegister(bits + [b]) == BitStep(BitRegister(bits), b)
  {
    assert (bits + [b])[..|bits|] == bits;
  }

  function Left(w: Word): Word {
    Word(w.b6, w.b5, w.b4, w.b3, w.b2, w.b1, w.b0, false)
  }

  /** Taking in one bit of `w` now, or all of `w` at once and shifting, is the same. */
  lemma StepCommutes(s: Word, w: Word)
    ensures Xor(BitStep(s, w.b7), Left(w)) == Shift(Xor(s, w))
  {
  }

  function FourSteps(s: Word, a: bool, b: bool, c: bool, d: bool): Word {
    BitStep(BitStep(BitStep(BitStep(s, a), b), c), d)
  }

  function EightSteps(s: Word, v: Word): Word {
    FourSteps(FourSteps(s, v.b7, v.b6, v.b5, v.b4), v.b3, v.b2, v.b1, v.b0)
  }

  function FourShifts(w: Word): Word {
    Shift(Shift(Shift(Shift(w))))
  }

  lemma FourStepsCommute(s: Word, w: Word)
    ensures Xor(FourSteps(s, w.b7, w.b6, w.b5, w.b4),
                Word(w.b3, w.b2, w.b1, w.b0, false, false, false, false))
         == FourShifts(Xor(s, w))
  {
    var s1 := BitStep(s, w.b7);
    var s2 := BitStep(s1, w.b6);
    var s3 := BitStep(s2, w.b5);
    StepCommutes(s, w);
    StepCommutes(s1, Left(w));
    StepCommutes(s2, Left(Left(w)));
    StepCommutes(s3, Left(Left(Left(w))));
  }

  lemma EightShifts(w: Word)
    ensures ShiftN(w, 8) == FourShifts(FourShifts(w))
  {
    assert ShiftN(w, 1) == Shift(w);
    assert ShiftN(w, 2) == Shift(Shift(w));
    assert ShiftN(w, 3) == Shift(Shift(Shift(w)));
    assert ShiftN(w, 4) == FourShifts(w);
    assert ShiftN(w, 5) == Shift(ShiftN(w, 4));
    assert ShiftN(w, 6) == Shift(ShiftN(w, 5));
    assert ShiftN(w, 7) == Shift(ShiftN(w, 6));
  }

  lemma EightStepsAreFeed(s: Word, v: Word)
    ensures EightSteps(s, v) == Feed(s, v)
  {
    var t := FourSteps(s, v.b7, v.b6, v.b5, v.b4);
    FourStepsCommute(s, v);
    FourStepsCommute(t, Word(v.b3, v.b2, v.b1, v.b0, false, false, false, false));
    EightShifts(Xor(s, v));
    XorZero(FourSteps(t, v.b3, v.b2, v.b1, v.b0));
  }

  lemma XorZero(w: Word)
    ensures Xor(w, ZERO) == w
  {
  }

  lemma TwoBits(bits: Bits, a: bool, b: bool)
    ensures BitRegister(bits + [a, b]) == BitStep(BitStep(BitRegister(bits), a), b)
  {
    AppendBit(bits, a);
    AppendBit(bits + [a], b);
    assert bits + [a, b] == bits + [a] + [b];
  }

  lemma TwoAndTwo(bits: Bits, a: bool, b: bool, c: bool, d: bool)
    ensures bits + [a, b, c, d] == (bits + [a, b]) + [c, d]
  {
  }

  lemma FourBits(bits: Bits, a: bool, b: bool, c: bool, d: bool)
    ensures BitRegister(bits + [a, b, c, d]) == FourSteps(BitRegister(bits), a, b, c, d)
  {
    var high := bits + [a, b];
    TwoBits(bits, a, b);
    TwoBits(high, c, d);
    TwoAndTwo(bits, a, b, c, d);
  }

  lemma AppendedWord(bits: Bits, v: Word)
    ensures BitRegister(AppendWord(bits, v)) == EightSteps(BitRegister(bits), v)
  {
    FourBits(bits, v.b7, v.b6, v.b5, v.b4);
    FourBits(bits + [v.b7, v.b6, v.b5, v.b4], v.b3, v.b2, v.b1, v.b0);
  }

  lemma {:induction false} RegisterIsBitRegister(data: seq<Word>)
    ensures Register(data) == BitRegister(ToBits(data))
  {
    if |data| != 0 {
      var shorter, v := data[..|data| - 1], data[|data| - 1];
      RegisterIsBitRegister(shorter);
      AppendedWord(ToBits(shorter), v);
      EightStepsAreFeed(Register(shorter), v);
    }
  }

  // ----- the bit loop is long division -----

  lemma AtAppend(q: Bits, b: bool, j: int)
    ensures At(q + [b], j) == (if j == |q| then b else At(q, j))
  {
  }

  /** Coefficient `n + j` before and after one division step. */
  lemma StepAt(w: Word, b: bool, j: int)
    ensures var fb := w.b7 != b;
      WordAt(BitStep(w, b), j - 1)
        == (WordAt(w, j) != ((j == 0 && w.b7) != (fb && 6 <= j <= 8)))
  {
    if j == 0 {} else if j == 1 {} else if j == 2 {} else if j == 3 {} else if j == 4 {}
    else if j == 5 {} else if j == 6 {} else if j == 7 {} else if j == 8 {} else {}
  }

  lemma ProductAppend(q: Bits, fb: bool, i: int)
    ensures Product(q + [fb], i)
         == (Product(q, i) != (fb && (i == |q| || 6 <= i - |q| <= 8)))
  {
    AtAppend(q, fb, i);
    AtAppend(q, fb, i - 6);
    AtAppend(q, fb, i - 7);
    AtAppend(q, fb, i - 8);
  }

  lemma AboveAll(m: Bits, q: Bits, w: Word, i: int)
    requires |q| == |m| && i >= |m|
    ensures !At(m, i)
    ensures i >= |m| + 8 ==> !Product(q, i) && !WordAt(w, i - |m|)
  {
  }

  /** One division step: the new quotient bit settles coefficient n and moves the rest. */
  lemma DivisionStep(m: Bits, q: Bits, w: Word, b: bool)
    requires DividesTo(m, q, w)
    ensures DividesTo(m + [b], q + [w.b7 != b], BitStep(w, b))
  {
    hide At, Product, WordAt, BitStep;
    var n, fb := |m|, w.b7 != b;
    forall i | 0 <= i < n + 9
      ensures At(m + [b], i) == (Product(q + [fb], i) != WordAt(BitStep(w, b), i - (n + 1)))
    {
      ProductAppend(q, fb, i);
      StepAt(w, b, i - n);
      AtAppend(m, b, i);
      if i < n + 8 {
        assert At(m, i) == (Product(q, i) != WordAt(w, i - n));
      }
      if i >= n {
        AboveAll(m, q, w, i);
      }
    }
  }

  lemma {:induction false} RegisterDivides(bits: Bits)
    ensures DividesTo(bits, Quotient(bits), BitRegister(bits))
  {
    if |bits| != 0 {
      var n := |bits| - 1;
      var shorter := bits[..n];
      RegisterDivides(shorter);
      DivisionStep(shorter, Quotient(shorter), BitRegister(shorter), bits[n]);
      assert bits == shorter + [bits[n]];
    }
  }

  /** A polynomial has one quotient and one remainder. */
  lemma DivisionIsUnique(m: Bits, q1: Bits, r1: Word, q2: Bits, r2: Word)
    requires DividesTo(m, q1, r1) && DividesTo(m, q2, r2)
    ensures q1 == q2 && r1 == r2
  {
    SameQuotientPrefix(m, q1, r1, q2, r2, |m|);
    assert q1[..|m|] == q1 && q2[..|m|] == q2;
    forall k | 0 <= k < 8 ensures WordAt(r1, k) == WordAt(r2, k) {
      var i := |m| + k;
      assert At(m, i) == (Product(q1, i) != WordAt(r1, i - |m|));
      assert At(m, i) == (Product(q2, i) != WordAt(r2, i - |m|));
    }
    SameWord(r1, r2);
  }

  lemma SameWord(a: Word, b: Word)
    requires forall k :: 0 <= k < 8 ==> WordAt(a, k) == WordAt(b, k)
    ensures a == b
  {
    assert WordAt(a, 0) == WordAt(b, 0) && WordAt(a, 1) == WordAt(b, 1);
    assert WordAt(a, 2) == WordAt(b, 2) && WordAt(a, 3) == WordAt(b, 3);
    assert WordAt(a, 4) == WordAt(b, 4) && WordAt(a, 5) == WordAt(b, 5);
    assert WordAt(a, 6) == WordAt(b, 6) && WordAt(a, 7) == WordAt(b, 7);
  }

  lemma {:induction false} SameQuotientPrefix(m: Bits, q1: Bits, r1: Word, q2: Bits, r2: Word, n: nat)
    requires DividesTo(m, q1, r1) && DividesTo(m, q2, r2) && n <= |m|
    ensures q1[..n] == q2[..n]
  {
    if n > 0 {
      SameQuotientPrefix(m, q1, r1, q2, r2, n - 1);
      var i := n - 1;
      forall j | j < i ensures At(q1, j) == At(q2, j) {
        if 0 <= j {
          assert q1[..i][j] == q2[..i][j];
        }
      }
      assert At(m, i) == (Product(q1, i) != WordAt(r1, i - |m|));
      assert At(m, i) == (Product(q2, i) != WordAt(r2, i - |m|));
      assert q1[..n] == q1[..i] + [q1[i]] && q2[..n] == q2[..i] + [q2[i]];
    }
  }

  /** `r` is the remainder of `data * x^8` by the generator. */
  ghost predicate IsRemainder(data: seq<Octet>, r: Octet) {
    var m, w := ToBits(Words(data)), OfOctet(r);
    exists q: Bits :: DividesTo(m, q, w)
  }

  /** The CRC of `data` is that remainder, and no other byte is. */
  lemma CrcIsTheRemainder(data: seq<Octet>, r: Octet)
    ensures IsRemainder(data, r) <==> r == Crc(data)
  {
    var m, w := ToBits(Words(data)), OfOctet(r);
    RegisterIsBitRegister(Words(data));
    RegisterDivides(m);
    OfToOctet(Register(Words(data)));
    if IsRemainder(data, r) {
      var q: Bits :| DividesTo(m, q, w);
      DivisionIsUnique(m, q, w, Quotient(m), BitRegister(m));
      ToOfOctet(r);
    }
  }
}
