/** What the register operations do to the bits of a word (tools/gecko_coverage.py, operate). */
module GeckoBits {
  import opened Bytes
  import opened GeckoCode

  /** Bit `i`, the lowest first. */
  function Bit(x: nat, i: nat): nat {
    x / Pow2(i) % 2
  }

  // ---- division by powers of two ----

  lemma DivDiv(x: nat, p: nat, q: nat)
    requires p > 0 && q > 0
    ensures p * q > 0 && x / (p * q) == x / p / q
  {
    var a, r := x / p, x % p;
    var c, s := a / q, a % q;
    assert x == p * a + r && a == q * c + s;
    ProductBelow(p, q, s, r);
    assert p * (q * c + s) == p * q * c + p * s;
    ModUnique(x, p * q, c, p * s + r);
  }

  lemma ProductBelow(p: nat, q: nat, s: nat, r: nat)
    requires s < q && r < p
    ensures 0 < p * q && p * s + r < p * q
  {
    assert p * (q - 1 - s) >= 0;
    assert p * (q - 1 - s) == p * q - p - p * s;
  }

  lemma MultipleOut(q: nat, p: nat, x: nat)
    requires p > 0
    ensures (q * p + x) / p == q + x / p
  {
    assert q * p + x == p * (q + x / p) + x % p;
    ModUnique(q * p + x, p, q + x / p, x % p);
  }

  lemma BitHalf(x: nat, i: nat)
    requires i > 0
    ensures Bit(x, i) == Bit(x / 2, i - 1)
  {
    DivDiv(x, 2, Pow2(i - 1));
  }

  lemma BitLow(x: nat)
    ensures Bit(x, 0) == x % 2
  {
    assert Pow2(0) == 1;
  }

  lemma {:induction false} Pow2Grows(m: nat, n: nat)
    requires m <= n
    ensures Pow2(m) <= Pow2(n)
  {
    if m < n {
      Pow2Grows(m, n - 1);
    }
  }

  /** A number below 2^n has no bit at n or above. */
  lemma NoHighBit(x: nat, n: nat, i: nat)
    requires x < Pow2(n) && n <= i
    ensures Bit(x, i) == 0
  {
    hide Pow2;
    Pow2Grows(n, i);
    ModUnique(x, Pow2(i), 0, x);
  }

  /** Bits below `i` do not see what is added at 2^(i + 1) and above. */
  lemma BitOfSum(q: nat, m: nat, x: nat, i: nat)
    requires i < m
    ensures Bit(q * Pow2(m) + x, i) == Bit(x, i)
  {
    hide Pow2;
    Pow2Sum(m - i, i);
    Double(m - i);
    EvenMultiple(q, Pow2(m - i - 1), Pow2(i), x);
    assert Pow2(m) == 2 * Pow2(m - i - 1) * Pow2(i);
  }

  lemma EvenMultiple(q: nat, half: nat, p: nat, x: nat)
    requires p > 0
    ensures (q * (2 * half * p) + x) / p % 2 == x / p % 2
  {
    var k := q * half;
    Regroup(q, half, p);
    MultipleOut(2 * k, p, x);
    ModUnique(2 * k + x / p, 2, k + x / p / 2, x / p % 2);
  }

  lemma Regroup(q: nat, half: nat, p: nat)
    ensures q * (2 * half * p) == 2 * (q * half) * p
  {}

  lemma Double(n: nat)
    requires n > 0
    ensures Pow2(n) == 2 * Pow2(n - 1)
  {}

  lemma BitOfWrap(x: nat, i: nat)
    requires i < 32
    ensures Bit(Wrap(x), i) == Bit(x, i)
  {
    hide Pow2;
    Pow2Of32();
    BitOfSum(x / 0x1_0000_0000, 32, Wrap(x), i);
  }

  lemma BitOfShiftLeft(b: nat, n: nat, i: nat)
    ensures Bit(b * Pow2(n), i) == if i >= n then Bit(b, i - n) else 0
  {
    hide Pow2;
    if i >= n {
      Pow2Sum(n, i - n);
      DivDiv(b * Pow2(n), Pow2(n), Pow2(i - n));
      MultipleOut(b, Pow2(n), 0);
    } else {
      Zero(i);
      BitOfSum(b, n, 0, i);
    }
  }

  lemma Zero(i: nat)
    ensures Bit(0, i) == 0 && 0 / Pow2(i) == 0
  {}

  lemma QuotientNotNegative(x: nat, p: nat)
    requires p > 0
    ensures x / p >= 0
  {
    assert x == p * (x / p) + x % p;
  }

  /** The bits from `n` on. */
  function Down(b: nat, n: nat): (r: nat)
    ensures r == b / Pow2(n)
  {
    QuotientNotNegative(b, Pow2(n));
    b / Pow2(n)
  }

  lemma BitOfShiftRight(b: nat, n: nat, i: nat)
    ensures Bit(Down(b, n), i) == Bit(b, i + n)
  {
    hide Pow2;
    DivDiv(b, Pow2(n), Pow2(i));
    Pow2Sum(n, i);
  }

  /** Numbers with equal bits are equal. */
  lemma {:induction false} SameBits(x: nat, y: nat, n: nat)
    requires x < Pow2(n) && y < Pow2(n) && forall i :: 0 <= i < n ==> Bit(x, i) == Bit(y, i)
    ensures x == y
  {
    if n > 0 {
      forall i | 0 <= i < n - 1
        ensures Bit(x / 2, i) == Bit(y / 2, i)
      {
        BitHalf(x, i + 1);
        BitHalf(y, i + 1);
      }
      BitLow(x);
      BitLow(y);
      SameBits(x / 2, y / 2, n - 1);
    }
  }

  // ---- and, or, exclusive or ----

  lemma {:induction false} BitwiseAt(a: nat, b: nat, n: nat, f: (bool, bool) -> bool, i: nat)
    requires i < n
    ensures Bit(Bitwise(a, b, n, f), i) == if f(Bit(a, i) == 1, Bit(b, i) == 1) then 1 else 0
  {
    var r := Bitwise(a, b, n, f);
    assert r / 2 == Bitwise(a / 2, b / 2, n - 1, f);
    if i == 0 {
      BitLow(a);
      BitLow(b);
      BitLow(r);
    } else {
      BitHalf(a, i);
      BitHalf(b, i);
      BitHalf(r, i);
      BitwiseAt(a / 2, b / 2, n - 1, f, i - 1);
    }
  }

  lemma {:induction false} BitwiseSums(a: nat, b: nat, n: nat)
    requires a < Pow2(n) && b < Pow2(n)
    ensures Bitwise(a, b, n, (x, y) => x || y) + Bitwise(a, b, n, (x, y) => x && y) == a + b
    ensures Bitwise(a, b, n, (x, y) => x != y) + Bitwise(a, b, n, (x, y) => x && y)
      == Bitwise(a, b, n, (x, y) => x || y)
  {
    if n > 0 {
      BitwiseSums(a / 2, b / 2, n - 1);
    }
  }

  /** Or and And share out the sum; exclusive or is what Or has and And has not. */
  lemma OrAndXor(a: Word, b: Word)
    ensures Or(a, b) + And(a, b) == a + b
    ensures Xor(a, b) == Or(a, b) - And(a, b)
  {
    hide Pow2;
    Pow2Of32();
    BitwiseSums(a, b, 32);
  }

  /** Masked with all ones a word stays as it is. */
  lemma AllOnes(a: Word)
    ensures And(a, 0xFFFF_FFFF) == a
  {
    hide Pow2, Bitwise;
    Pow2Of32();
    forall i | 0 <= i < 32
      ensures Bit(And(a, 0xFFFF_FFFF), i) == Bit(a, i)
    {
      BitwiseAt(a, 0xFFFF_FFFF, 32, (x, y) => x && y, i);
      OnesBit(32, i);
    }
    SameBits(And(a, 0xFFFF_FFFF), a, 32);
  }

  lemma {:induction false} OnesBit(n: nat, i: nat)
    requires i < n
    ensures Pow2(n) >= 1 && Bit(Pow2(n) - 1, i) == 1
  {
    Double(n);
    assert (Pow2(n) - 1) / 2 == Pow2(n - 1) - 1;
    if i == 0 {
      BitLow(Pow2(n) - 1);
    } else {
      BitHalf(Pow2(n) - 1, i);
      OnesBit(n - 1, i - 1);
    }
  }

  // ---- the operations ----

  lemma BitIsBit(x: nat, i: nat)
    ensures Bit(x, i) == 0 || Bit(x, i) == 1
  {}

  ghost predicate UpToWords(x: nat, w: Word) {
    exists k: nat :: x == w + k * 0x1_0000_0000
  }

  lemma WrappedUpTo(x: nat)
    ensures UpToWords(x, Wrap(x))
  {
    assert x == Wrap(x) + x / 0x1_0000_0000 * 0x1_0000_0000;
  }

  /** Operations 0 and 1 are the sum and the product, up to multiples of 2^32. */
  lemma SumAndProduct(a: Word, b: Word, fpu: Fpu)
    ensures UpToWords(a + b, Operate(a, b, 0, fpu))
    ensures UpToWords(a * b, Operate(a, b, 1, fpu))
  {
    hide UpToWords, Wrap;
    WrappedUpTo(a + b);
    WrappedUpTo(a * b);
  }

  /** Operations 2, 3 and 4, bit by bit. */
  lemma LogicBits(a: Word, b: Word, fpu: Fpu, i: nat)
    requires i < 32
    ensures Bit(Operate(a, b, 2, fpu), i) == 1 <==> Bit(a, i) == 1 || Bit(b, i) == 1
    ensures Bit(Operate(a, b, 3, fpu), i) == 1 <==> Bit(a, i) == 1 && Bit(b, i) == 1
    ensures Bit(Operate(a, b, 4, fpu), i) == 1 <==> Bit(a, i) != Bit(b, i)
  {
    hide Pow2, Bitwise, Bit;
    BitIsBit(a, i);
    BitIsBit(b, i);
    BitwiseAt(a, b, 32, (x, y) => x || y, i);
    BitwiseAt(a, b, 32, (x, y) => x && y, i);
    BitwiseAt(a, b, 32, (x, y) => x != y, i);
  }

  /** Operation 5: the operand moved up by the low five bits of the register; nothing when register bit 0x20 is set. */
  lemma LeftShiftBits(a: Word, b: Word, fpu: Fpu, i: nat)
    requires i < 32
    ensures Bit(a, 5) == 1 ==> Operate(a, b, 5, fpu) == 0
    ensures Bit(a, 5) == 0 ==> Bit(Operate(a, b, 5, fpu), i) == if i >= a % 32 then Bit(b, i - a % 32) else 0
  {
    RegisterBit(a);
    hide Pow2, Bit;
    BitOfWrap(b * Pow2(a % 32), i);
    BitOfShiftLeft(b, a % 32, i);
  }

  lemma RegisterBit(a: Word)
    ensures Bit(a, 5) == a / 32 % 2
  {
    assert Pow2(5) == 32;
  }

  /** Operation 6: the operand moved down by as much. */
  lemma RightShiftBits(a: Word, b: Word, fpu: Fpu, i: nat)
    requires i < 32
    ensures Bit(a, 5) == 1 ==> Operate(a, b, 6, fpu) == 0
    ensures Bit(a, 5) == 0 ==> Bit(Operate(a, b, 6, fpu), i) == Bit(b, i + a % 32)
    ensures i + a % 32 >= 32 ==> Bit(b, i + a % 32) == 0
  {
    RegisterBit(a);
    hide Pow2, Bit;
    Pow2Of32();
    BitOfWrap(b / Pow2(a % 32), i);
    BitOfShiftRight(b, a % 32, i);
    if i + a % 32 >= 32 {
      NoHighBit(b, 32, i + a % 32);
    }
  }

  /** Operation 7: the bits that leave at the top come in at the bottom. */
  lemma RotatedBits(a: Word, b: Word, fpu: Fpu, i: nat)
    requires i < 32
    ensures Bit(Operate(a, b, 7, fpu), i) == Bit(b, if i >= a % 32 then i - a % 32 else i + 32 - a % 32)
  {
    var n := a % 32;
    hide Bit, Pow2, Rotated;
    if n == 0 {
      NotRotated(b);
    } else {
      RotatedBy(b, n, i);
    }
  }

  lemma NotRotated(b: Word)
    ensures Rotated(b, 0) == b
  {
    assert Pow2(0) == 1;
  }

  lemma RotatedBy(b: Word, n: nat, i: nat)
    requires 0 < n < 32 && i < 32
    ensures Bit(Rotated(b, n), i) == Bit(b, if i >= n then i - n else i + 32 - n)
  {
    hide Bit, Pow2, Rotated;
    Pow2Of32();
    Pow2Sum(n, 32 - n);
    var p, q := Pow2(n), Pow2(32 - n);
    var high, low := b / q, b % q;
    HighPart(b, p, q);
    RotatedParts(high, low, n);
    if i < n {
      BitOfSum(low, n, high, i);
      BitOfShiftRight(b, 32 - n, i);
    } else {
      RotatedHigh(low, high, n, i);
      BitOfSum(high, 32 - n, low, i - n);
    }
  }

  lemma RotatedHigh(low: nat, high: nat, n: nat, i: nat)
    requires high < Pow2(n) && i >= n
    ensures Bit(low * Pow2(n) + high, i) == Bit(low, i - n)
  {
    hide Pow2, Bit;
    BitOfShiftRight(low * Pow2(n) + high, n, i - n);
    MultipleOut(low, Pow2(n), high);
    ModUnique(high, Pow2(n), 0, high);
  }

  /** So for 0 < n < 32 it is operation 5 by n, or operation 6 by 32 - n. */
  lemma RotationIsTwoShifts(n: Word, b: Word, fpu: Fpu)
    requires 0 < n < 32
    ensures Operate(n, b, 7, fpu) == Or(Operate(n, b, 5, fpu), Operate(32 - n, b, 6, fpu))
  {
    hide Pow2, Operate, Bit, Or;
    Pow2Of32();
    var up, down := Operate(n, b, 5, fpu), Operate(32 - n, b, 6, fpu);
    forall i | 0 <= i < 32
      ensures Bit(Operate(n, b, 7, fpu), i) == Bit(Or(up, down), i)
    {
      SmallRegister(n);
      SmallRegister(32 - n);
      RotatedBits(n, b, fpu, i);
      LeftShiftBits(n, b, fpu, i);
      RightShiftBits(32 - n, b, fpu, i);
      OrBit(up, down, i);
      BitIsBit(Operate(n, b, 7, fpu), i);
      BitIsBit(up, i);
      BitIsBit(down, i);
      BitIsBit(Or(up, down), i);
    }
    SameBits(Operate(n, b, 7, fpu), Or(up, down), 32);
  }

  lemma SmallRegister(n: Word)
    requires n < 32
    ensures Bit(n, 5) == 0 && n % 32 == n
  {
    RegisterBit(n);
  }

  lemma OrBit(a: Word, b: Word, i: nat)
    requires i < 32
    ensures Bit(Or(a, b), i) == 1 <==> Bit(a, i) == 1 || Bit(b, i) == 1
  {
    hide Pow2, Bitwise, Bit;
    BitwiseAt(a, b, 32, (x, y) => x || y, i);
  }

  /** The signed shift of operation 8 moves by the low six bits of the register, 31 at most. */
  function SignedBy(a: Word): nat {
    if a % 64 < 31 then a % 64 else 31
  }

  lemma SignedShift(b: Word, n: nat)
    requires n < 32 && b >= 0x8000_0000
    ensures Wrap(Signed(b) / Pow2(n)) == b / Pow2(n) + Pow2(32 - n) * (Pow2(n) - 1)
    ensures b / Pow2(n) < Pow2(32 - n)
  {
    hide Pow2;
    Pow2Of32();
    Pow2Sum(32 - n, n);
    var p, q := Pow2(n), Pow2(32 - n);
    HighPart(b, q, p);
    var s := Signed(b);
    assert s == b - q * p && b == p * (b / p) + b % p;
    assert p * (b / p - q) == p * (b / p) - p * q;
    Swap(p, q);
    ModUnique(s, p, b / p - q, b % p);
    assert s / p == b / p - q;
    assert q * (p - 1) == q * p - q;
    QuotientSmall(b, p, q);
    ModUnique(s / p, 0x1_0000_0000, -1, b / p + q * (p - 1));
  }

  lemma QuotientSmall(b: nat, p: nat, q: nat)
    requires p > 0 && b / p < q
    ensures b / p + q * (p - 1) < q * p
  {
    assert q * (p - 1) == q * p - q;
  }

  /** Operation 8: the operand moved down, its sign filling in from the top. */
  lemma SignedShiftBits(a: Word, b: Word, fpu: Fpu, i: nat)
    requires i < 32
    ensures Bit(Operate(a, b, 8, fpu), i) == if i + SignedBy(a) < 32 then Bit(b, i + SignedBy(a)) else Bit(b, 31)
  {
    hide Bit, Pow2, Signed;
    TopBit(b);
    if b < 0x8000_0000 {
      PositiveShifted(b, SignedBy(a), i);
    } else {
      NegativeShifted(b, SignedBy(a), i);
    }
  }

  lemma PositiveShifted(b: Word, n: nat, i: nat)
    requires i < 32 && n < 32 && b < 0x8000_0000
    ensures Bit(Wrap(Signed(b) / Pow2(n)), i) == if i + n < 32 then Bit(b, i + n) else 0
  {
    hide Bit, Pow2;
    Pow2Of32();
    BitOfWrap(b / Pow2(n), i);
    BitOfShiftRight(b, n, i);
    if i + n >= 32 {
      NoHighBit(b, 32, i + n);
    }
  }

  lemma NegativeShifted(b: Word, n: nat, i: nat)
    requires i < 32 && n < 32 && b >= 0x8000_0000
    ensures Bit(Wrap(Signed(b) / Pow2(n)), i) == if i + n < 32 then Bit(b, i + n) else 1
  {
    hide Bit, Pow2, Wrap, Signed;
    var m := 32 - n;
    SignedShift(b, n);
    OneAtLeast(n);
    Swap(Pow2(m), Pow2(n) - 1);
    if i < m {
      BitOfSum(Pow2(n) - 1, m, b / Pow2(n), i);
      BitOfShiftRight(b, n, i);
    } else {
      RotatedHigh(Pow2(n) - 1, b / Pow2(n), m, i);
      OnesBit(n, i - m);
    }
  }

  lemma OneAtLeast(n: nat)
    ensures Pow2(n) >= 1
  {}

  lemma TopBit(b: Word)
    ensures Bit(b, 31) == if b < 0x8000_0000 then 0 else 1
  {
    Pow2Of32();
    Double(32);
    assert Pow2(31) == 0x8000_0000;
    if b < 0x8000_0000 {
      ModUnique(b, 0x8000_0000, 0, b);
    } else {
      ModUnique(b, 0x8000_0000, 1, b - 0x8000_0000);
    }
  }

  // ---- tests ----

  /** Exactly one of equal, greater and less passes, and not equal is the opposite of equal. */
  lemma OneTestPasses(memory: Word, value: Word, mask: Word)
    ensures Passes(memory, 0, value, mask) <==> !Passes(memory, 2, value, mask) && !Passes(memory, 3, value, mask)
    ensures !(Passes(memory, 2, value, mask) && Passes(memory, 3, value, mask))
    ensures Passes(memory, 1, value, mask) <==> !Passes(memory, 0, value, mask)
  {}

  /**
    Against a smaller value greater still passes, against a larger one less does; unmasked they compare the word itself.
  */
  lemma TestsCompare(memory: Word, value: Word, mask: Word, other: Word)
    ensures Passes(memory, 2, value, mask) && other <= value ==> Passes(memory, 2, other, mask)
    ensures Passes(memory, 3, value, mask) && other >= value ==> Passes(memory, 3, other, mask)
    ensures Passes(memory, 2, value, 0xFFFF_FFFF) <==> memory > value
    ensures Passes(memory, 3, value, 0xFFFF_FFFF) <==> memory < value
  {
    hide And;
    AllOnes(memory);
  }
}
