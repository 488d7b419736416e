/** Which error patterns always change the CRC. */
module CrcDetection {
  import opened Bytes
  import opened Crc8
  import opened CrcDivision

  const ONE := Word(false, false, false, false, false, false, false, true)

  /** The number of bits set. */
  function Weight(bits: Bits): nat {
    if |bits| == 0 then 0
    else Weight(bits[..|bits| - 1]) + (if bits[|bits| - 1] then 1 else 0)
  }

  /** Every set bit lies in one window of eight consecutive positions. */
  ghost predicate IsBurst(bits: Bits) {
    exists s: nat :: InWindow(bits, s)
  }

  ghost predicate InWindow(bits: Bits, s: nat) {
    forall i :: 0 <= i < |bits| && bits[i] ==> s <= i < s + 8
  }

  /** One, two or three bits, any odd number of bits, or a burst of at most eight. */
  ghost predicate IsDetectable(error: Bits) {
    Weight(error) > 0 && (Weight(error) <= 3 || Weight(error) % 2 == 1 || IsBurst(error))
  }

  // ----- x + 1 divides the generator: parity survives the division -----

  function Odd(w: Word): bool {
    ((w.b7 != w.b6) != (w.b5 != w.b4)) != ((w.b3 != w.b2) != (w.b1 != w.b0))
  }

  lemma StepParity(w: Word, b: bool)
    ensures Odd(BitStep(w, b)) == (Odd(w) != b)
  {
  }

  lemma {:induction false} ParityIsKept(bits: Bits)
    ensures Odd(BitRegister(bits)) == (Weight(bits) % 2 == 1)
  {
    if |bits| != 0 {
      ParityIsKept(bits[..|bits| - 1]);
      StepParity(BitRegister(bits[..|bits| - 1]), bits[|bits| - 1]);
    }
  }

  // ----- multiplication by x is injective -----

  lemma {:induction false} ShiftCancels(a: Word, b: Word, n: nat)
    requires ShiftN(a, n) == ShiftN(b, n)
    ensures a == b
  {
    if n > 0 {
      assert Shift(ShiftN(a, n - 1)) == Shift(ShiftN(b, n - 1));
      ShiftCancels(a, b, n - 1);
    }
  }

  lemma {:induction false} ShiftAdds(w: Word, m: nat, n: nat)
    ensures ShiftN(ShiftN(w, m), n) == ShiftN(w, m + n)
  {
    if n > 0 {
      ShiftAdds(w, m, n - 1);
    }
  }

  lemma {:induction false} ZeroStays(n: nat)
    ensures ShiftN(ZERO, n) == ZERO
  {
    if n > 0 {
      ZeroStays(n - 1);
    }
  }

  // ----- x has order 127 modulo the generator -----

  ghost predicate IsPower(n: nat, w: Word) {
    ShiftN(ONE, n) == w
  }

  lemma Jump(n: nat, w: Word, v: Word)
    requires IsPower(n, w) && v == FourShifts(FourShifts(w))
    ensures IsPower(n + 8, v)
  {
    ShiftAdds(ONE, n, 8);
    EightShifts(w);
  }

  const X40 := Word(false, true, true, false, false, false, true, false)
  const X80 := Word(false, true, true, false, true, false, false, false)
  const X120 := Word(true, false, true, true, false, true, false, true)

  lemma PowersTo40(n: nat)
    requires IsPower(n, ONE)
    ensures IsPower(n + 40, X40)
  {
    var x8 := Word(false, false, false, false, false, true, true, true);
    Jump(n, ONE, x8);
    var x16 := Word(false, false, false, true, false, true, false, true);
    Jump(n + 8, x8, x16);
    var x24 := Word(false, true, true, false, true, false, true, true);
    Jump(n + 16, x16, x24);
    var x32 := Word(false, false, false, true, false, true, true, false);
    Jump(n + 24, x24, x32);
    var x40 := Word(false, true, true, false, false, false, true, false);
    Jump(n + 32, x32, x40);
  }

  lemma PowersTo80(n: nat)
    requires IsPower(n, X40)
    ensures IsPower(n + 40, X80)
  {
    var x48 := Word(false, false, true, false, true, false, false, true);
    Jump(n, X40, x48);
    var x56 := Word(true, true, false, true, true, true, true, true);
    Jump(n + 8, x48, x56);
    var x64 := Word(false, false, false, true, false, false, true, true);
    Jump(n + 16, x56, x64);
    var x72 := Word(false, true, true, true, true, false, false, true);
    Jump(n + 24, x64, x72);
    var x80 := Word(false, true, true, false, true, false, false, false);
    Jump(n + 32, x72, x80);
  }

  lemma PowersTo120(n: nat)
    requires IsPower(n, X80)
    ensures IsPower(n + 40, X120)
  {
    var x88 := Word(false, false, false, true, true, true, true, true);
    Jump(n, X80, x88);
    var x96 := Word(false, true, false, true, true, true, false, true);
    Jump(n + 8, x88, x96);
    var x104 := Word(true, false, false, true, false, true, false, false);
    Jump(n + 16, x96, x104);
    var x112 := Word(true, true, true, false, false, true, false, true);
    Jump(n + 24, x104, x112);
    var x120 := Word(true, false, true, true, false, true, false, true);
    Jump(n + 32, x112, x120);
  }

  /** x^127 == 1. The exponent is a variable, so that no power is unfolded literally. */
  lemma OrderDivides127() returns (n: nat)
    ensures n == 127 && IsPower(n, ONE)
  {
    var zero := 0;
    n := zero + 127;
    assert IsPower(zero, ONE);
    PowersTo40(zero);
    PowersTo80(zero + 40);
    PowersTo120(zero + 80);
    ShiftAdds(ONE, n - 7, n - 120);
    SevenShifts(X120, n - 120);
    assert Shift(Shift(Shift(FourShifts(X120)))) == ONE;
  }

  lemma SevenShifts(w: Word, n: nat)
    requires n == 7
    ensures ShiftN(w, n) == Shift(Shift(Shift(FourShifts(w))))
  {
    assert ShiftN(w, n - 6) == Shift(w);
    assert ShiftN(w, n - 5) == Shift(Shift(w));
    assert ShiftN(w, n - 4) == Shift(Shift(Shift(w)));
    assert ShiftN(w, n - 3) == FourShifts(w);
    assert ShiftN(w, n - 2) == Shift(ShiftN(w, n - 3));
    assert ShiftN(w, n - 1) == Shift(ShiftN(w, n - 2));
  }

  lemma {:induction false} Repeat(m: nat, q: nat)
    requires IsPower(m, ONE)
    ensures IsPower(q * m, ONE)
  {
    if q == 0 {
      assert q * m == 0;
    } else {
      Repeat(m, q - 1);
      ShiftAdds(ONE, m, (q - 1) * m);
      assert m + (q - 1) * m == q * m;
    }
  }

  lemma Prime127(n: nat, m: nat)
    requires n == 127 && 2 <= m < n
    ensures n % m != 0 && n == (n / m) * m + n % m
  {
  }

  lemma RemainderPower(n: nat, m: nat, q: nat, r: nat)
    requires n == q * m + r && IsPower(n, ONE) && IsPower(m, ONE)
    ensures IsPower(r, ONE)
  {
    Repeat(m, q);
    ShiftAdds(ONE, q * m, r);
  }

  /** No smaller power is 1: a smaller order would divide 127, which is prime. */
  lemma {:induction false} OrderIsNotLess(m: nat)
    requires 0 < m < 127
    ensures !IsPower(m, ONE)
  {
    if m == 1 {
      assert ShiftN(ONE, m - 1) == ONE;
    } else if IsPower(m, ONE) {
      var n := OrderDivides127();
      Prime127(n, m);
      RemainderPower(n, m, n / m, n % m);
      OrderIsNotLess(n % m);
    }
  }

  // ----- one and two bits -----

  lemma {:induction false} NoBit(bits: Bits)
    requires Weight(bits) == 0
    ensures BitRegister(bits) == ZERO && forall i :: 0 <= i < |bits| ==> !bits[i]
  {
    if |bits| != 0 {
      var n := |bits| - 1;
      NoBit(bits[..n]);
      assert forall i :: 0 <= i < n ==> bits[i] == bits[..n][i];
    }
  }

  /** A single bit leaves a power of x, at least x^8. */
  lemma {:induction false} OneBit(bits: Bits) returns (k: nat)
    requires Weight(bits) == 1
    ensures 0 <= k < |bits| && BitRegister(bits) == ShiftN(ONE, 8 + k)
  {
    var n := |bits| - 1;
    if bits[n] {
      NoBit(bits[..n]);
      k := 0;
      EightShifts(ONE);
    } else {
      k := OneBit(bits[..n]);
      k := k + 1;
    }
  }

  /** `x^(8 + k) == x^7` would make x^(k + 1) equal to 1. */
  lemma NeverTopBit(k: nat, n: nat)
    requires k < 126 && n == 7
    ensures ShiftN(ONE, k + 1 + n) != Word(true, false, false, false, false, false, false, false)
  {
    SevenShifts(ONE, n);
    if ShiftN(ONE, k + 1 + n) == ShiftN(ONE, n) {
      ShiftAdds(ONE, k + 1, n);
      ShiftCancels(ShiftN(ONE, k + 1), ONE, n);
      OrderIsNotLess(k + 1);
    }
  }

  lemma {:induction false} TwoBitsSurvive(bits: Bits)
    requires Weight(bits) == 2 && |bits| <= 127
    ensures BitRegister(bits) != ZERO
  {
    var shorter, last := bits[..|bits| - 1], bits[|bits| - 1];
    if last {
      var k := OneBit(shorter);
      NeverTopBit(k, 7);
      ShiftIsZero(BitRegister(shorter).(b7 := !BitRegister(shorter).b7));
    } else {
      TwoBitsSurvive(shorter);
      ShiftIsZero(BitRegister(shorter));
    }
  }

  // ----- bursts -----

  lemma ShiftIsZero(w: Word)
    ensures Shift(w) == ZERO <==> w == ZERO
  {
  }

  lemma FourShiftsAreZero(w: Word)
    ensures FourShifts(w) == ZERO <==> w == ZERO
  {
    ShiftIsZero(w);
    ShiftIsZero(Shift(w));
    ShiftIsZero(Shift(Shift(w)));
    ShiftIsZero(Shift(Shift(Shift(w))));
  }

  lemma ByteSurvives(v: Word)
    requires v != ZERO
    ensures EightSteps(ZERO, v) != ZERO
  {
    EightStepsAreFeed(ZERO, v);
    EightShifts(v);
    FourShiftsAreZero(v);
    FourShiftsAreZero(FourShifts(v));
    XorZeroLeft(v);
  }

  lemma XorZeroLeft(w: Word)
    ensures Xor(ZERO, w) == w
  {
  }

  lemma FourOf(bits: Bits, s: nat)
    requires s + 4 <= |bits|
    ensures bits[s..s + 4] == [bits[s], bits[s + 1], bits[s + 2], bits[s + 3]]
  {
  }

  lemma SplitLastByte(bits: Bits) returns (head: Bits, v: Word)
    requires |bits| >= 8
    ensures head == bits[..|bits| - 8] && bits == AppendWord(head, v)
    ensures v == Word(bits[|bits| - 8], bits[|bits| - 7], bits[|bits| - 6], bits[|bits| - 5],
                      bits[|bits| - 4], bits[|bits| - 3], bits[|bits| - 2], bits[|bits| - 1])
  {
    var s := |bits| - 8;
    head := bits[..s];
    v := Word(bits[s], bits[s + 1], bits[s + 2], bits[s + 3],
              bits[s + 4], bits[s + 5], bits[s + 6], bits[s + 7]);
    FourOf(bits, s);
    FourOf(bits, s + 4);
    assert bits == (bits[..s] + bits[s..s + 4]) + bits[s + 4..s + 8];
  }

  /** A window that ends with the string: nothing before it, eight bits in it. */
  lemma LastByteSurvives(bits: Bits)
    requires |bits| >= 8 && InWindow(bits, |bits| - 8) && Weight(bits) > 0
    ensures BitRegister(bits) != ZERO
  {
    var head, v := SplitLastByte(bits);
    forall i | 0 <= i < |head| ensures !head[i] {
      assert head[i] == bits[i];
    }
    AllClear(head);
    NoBit(head);
    AppendedWord(head, v);
    SomeBitInLastByte(bits, v);
    ByteSurvives(v);
  }

  lemma SomeBitInLastByte(bits: Bits, v: Word)
    requires |bits| >= 8 && InWindow(bits, |bits| - 8) && Weight(bits) > 0
    requires v == Word(bits[|bits| - 8], bits[|bits| - 7], bits[|bits| - 6], bits[|bits| - 5],
                       bits[|bits| - 4], bits[|bits| - 3], bits[|bits| - 2], bits[|bits| - 1])
    ensures v != ZERO
  {
    if v == ZERO {
      assert forall i :: 0 <= i < |bits| ==> !bits[i];
      AllClear(bits);
    }
  }

  lemma {:induction false} AllClear(bits: Bits)
    requires forall i :: 0 <= i < |bits| ==> !bits[i]
    ensures Weight(bits) == 0
  {
    if |bits| != 0 {
      AllClear(bits[..|bits| - 1]);
    }
  }

  lemma {:induction false} BurstSurvives(bits: Bits, s: nat)
    requires |bits| >= 8 && s + 8 <= |bits| && InWindow(bits, s) && Weight(bits) > 0
    ensures BitRegister(bits) != ZERO
  {
    var n := |bits| - 1;
    if s + 8 == |bits| {
      LastByteSurvives(bits);
    } else {
      assert !bits[n];
      assert InWindow(bits[..n], s);
      BurstSurvives(bits[..n], s);
    }
  }

  /** Every detectable pattern of 8 to 127 bits changes the register. */
  lemma DetectablePatternSurvives(error: Bits)
    requires IsDetectable(error) && 8 <= |error| <= 127
    ensures BitRegister(error) != ZERO
  {
    ParityIsKept(error);
    if Weight(error) == 2 {
      TwoBitsSurvive(error);
    } else if Weight(error) % 2 == 0 {
      var s: nat :| InWindow(error, s);
      var t := if s + 8 <= |error| then s else |error| - 8;
      assert InWindow(error, t);
      BurstSurvives(error, t);
    }
  }

  // ----- linearity and residue -----

  /** The error pattern that turns `x` into `y`. */
  function Difference(x: seq<Word>, y: seq<Word>): (e: seq<Word>)
    requires |x| == |y|
    ensures |e| == |x|
    ensures forall i :: 0 <= i < |x| ==> e[i] == Xor(x[i], y[i])
  {
    seq(|x|, i requires 0 <= i < |x| => Xor(x[i], y[i]))
  }

  lemma ShiftXor(a: Word, b: Word)
    ensures Shift(Xor(a, b)) == Xor(Shift(a), Shift(b))
  {
  }

  lemma {:induction false} ShiftIsLinear(a: Word, b: Word, n: nat)
    ensures ShiftN(Xor(a, b), n) == Xor(ShiftN(a, n), ShiftN(b, n))
  {
    if n > 0 {
      ShiftIsLinear(a, b, n - 1);
      ShiftXor(ShiftN(a, n - 1), ShiftN(b, n - 1));
    }
  }

  lemma XorExchange(a: Word, b: Word, c: Word, d: Word)
    ensures Xor(Xor(a, b), Xor(c, d)) == Xor(Xor(a, c), Xor(b, d))
  {
  }

  lemma FeedIsLinear(a: Word, b: Word, s: Word, t: Word)
    ensures Feed(Xor(a, b), Xor(s, t)) == Xor(Feed(a, s), Feed(b, t))
  {
    XorExchange(a, b, s, t);
    ShiftIsLinear(Xor(a, s), Xor(b, t), 8);
  }

  /** The register is linear: an error pattern moves it by its own register value. */
  lemma {:induction false} RegisterIsLinear(x: seq<Word>, y: seq<Word>)
    requires |x| == |y|
    ensures Register(Difference(x, y)) == Xor(Register(x), Register(y))
  {
    if |x| != 0 {
      var n := |x| - 1;
      RegisterIsLinear(x[..n], y[..n]);
      assert Difference(x, y)[..n] == Difference(x[..n], y[..n]);
      FeedIsLinear(Register(x[..n]), Register(y[..n]), x[n], y[n]);
    }
  }

  /** A byte string followed by a byte leaves residue 0 exactly when that byte equals the
      register before it. */
  lemma ResidueIsZero(data: seq<Word>, last: Word)
    ensures Register(data + [last]) == ZERO <==> last == Register(data)
  {
    assert (data + [last])[..|data|] == data;
    var w := Xor(Register(data), last);
    EightShifts(w);
    FourShiftsAreZero(w);
    FourShiftsAreZero(FourShifts(w));
    XorIsZero(Register(data), last);
  }

  lemma XorIsZero(a: Word, b: Word)
    ensures Xor(a, b) == ZERO <==> a == b
  {
  }

  /** A leading zero byte does not move the register. */
  lemma {:induction false} LeadingZero(data: seq<Word>)
    requires |data| > 0 && data[0] == ZERO
    ensures Register(data) == Register(data[1..])
  {
    var n := |data| - 1;
    if n == 0 {
      ZeroStays(8);
      assert Register(data[..0]) == ZERO;
    } else {
      LeadingZero(data[..n]);
      assert data[..n][1..] == data[1..][..n - 1];
    }
  }
}
