/**
 * The machine word: a 64-bit unsigned integer (`usize` on a 64-bit host),
 * the operations the engine applies to it, and the two reinterpretations of
 * its bits (two's-complement signed, IEEE-754 double) the engine compares by.
 */
module Words {

  const WORD_MODULUS: int := 0x1_0000_0000_0000_0000
  const WORD_MAX: int := 0xFFFF_FFFF_FFFF_FFFF
  const SIGN_BIT: int := 0x8000_0000_0000_0000

  /** The size of a word in bytes (`size_of::<Word>()`). */
  const WORD_BYTES: int := 8

  type Word = x: int | 0 <= x < 0x1_0000_0000_0000_0000

  // ---------------------------------------------------------------- wrapping

  function WrappingAdd(a: Word, b: Word): (r: Word)
    ensures r == if a + b < WORD_MODULUS then a + b else a + b - WORD_MODULUS
  {
    (a + b) % WORD_MODULUS
  }

  function WrappingSub(a: Word, b: Word): (r: Word)
    ensures r == if a >= b then a - b else a - b + WORD_MODULUS
  {
    (a - b) % WORD_MODULUS
  }

  function WrappingNeg(a: Word): (r: Word)
    ensures WrappingAdd(a, r) == 0
  {
    (WORD_MODULUS - a) % WORD_MODULUS
  }

  function WrappingMul(a: Word, b: Word): (r: Word)
    ensures (a * b - r) % WORD_MODULUS == 0
  {
    (a * b) % WORD_MODULUS
  }

  // ---------------------------------------------------------------- bitwise

  function Pow2(n: nat): (r: nat)
    ensures r >= 1
  {
    if n == 0 then 1 else 2 * Pow2(n - 1)
  }

  lemma {:induction false} Pow2Add(a: nat, b: nat)
    ensures Pow2(a + b) == Pow2(a) * Pow2(b)
  {
    if a > 0 {
      Pow2Add(a - 1, b);
      assert Pow2(a + b) == 2 * Pow2(a - 1 + b);
    }
  }

  lemma WordModulusIsPow2()
    ensures Pow2(64) == WORD_MODULUS
  {
    assert Pow2(8) == 0x100;
    Pow2Add(8, 8);
    assert Pow2(16) == 0x1_0000;
    Pow2Add(16, 16);
    assert Pow2(32) == 0x1_0000_0000;
    Pow2Add(32, 32);
  }

  datatype BitOp = AndOp | OrOp | XorOp

  function CombineBits(op: BitOp, x: bool, y: bool): bool
  {
    match op
    case AndOp => x && y
    case OrOp => x || y
    case XorOp => x != y
  }

  /** The low `n` bits of `a op b`, combined bit by bit from the least significant. */
  function Bitwise(op: BitOp, a: nat, b: nat, n: nat): (r: nat)
    ensures r < Pow2(n)
  {
    if n == 0 then 0
    else 2 * Bitwise(op, a / 2, b / 2, n - 1) + (if CombineBits(op, a % 2 == 1, b % 2 == 1) then 1 else 0)
  }

  /** `a & b`: a bit is set only where it is set in both, so the result is at most either operand. */
  function BitAnd(a: Word, b: Word): (r: Word)
    ensures r <= a && r <= b
  {
    WordModulusIsPow2();
    AndBelow(a, b, 64);
    Bitwise(AndOp, a, b, 64)
  }

  /** `a | b`: every bit set in either operand is set, so the result is at least either operand. */
  function BitOr(a: Word, b: Word): (r: Word)
    ensures r >= a && r >= b
  {
    WordModulusIsPow2();
    OrAbove(a, b, 64);
    LowBitsOfSmall(a, 64);
    LowBitsOfSmall(b, 64);
    Bitwise(OrOp, a, b, 64)
  }

  /** `a ^ b`: zero exactly when the two words agree on every bit. */
  function BitXor(a: Word, b: Word): (r: Word)
    ensures r == 0 <==> a == b
  {
    WordModulusIsPow2();
    XorZeroIffSameLowBits(a, b, 64);
    LowBitsOfSmall(a, 64);
    LowBitsOfSmall(b, 64);
    Bitwise(XorOp, a, b, 64)
  }

  /** `!a`: every one of the 64 bits flipped, that is, XOR with the all-ones word. */
  function BitNot(a: Word): (r: Word)
    ensures r == BitXor(a, WORD_MAX)
  {
    WordModulusIsPow2();
    XorOnesIsComplement(a, 64);
    WORD_MAX - a
  }

  /** The `k` low bits of `a`, collected from the least significant. */
  function LowBits(a: nat, k: nat): (r: nat)
    ensures r < Pow2(k)
  {
    if k == 0 then 0 else 2 * LowBits(a / 2, k - 1) + a % 2
  }

  /** A value below `2^k` is its own `k` low bits. */
  lemma {:induction false} LowBitsOfSmall(a: nat, k: nat)
    requires a < Pow2(k)
    ensures LowBits(a, k) == a
  {
    if k > 0 {
      LowBitsOfSmall(a / 2, k - 1);
    }
  }

  /** AND with a mask of the `k` low bits keeps exactly those bits. */
  lemma {:induction false} AndLowOnes(a: nat, k: nat, n: nat)
    requires k <= n
    ensures Bitwise(AndOp, a, Pow2(k) - 1, n) == LowBits(a, k)
  {
    if k == 0 {
      AndZero(a, n);
    } else {
      AndLowOnes(a / 2, k - 1, n - 1);
      assert (Pow2(k) - 1) / 2 == Pow2(k - 1) - 1;
    }
  }

  /** AND with zero is zero. */
  lemma {:induction false} AndZero(a: nat, n: nat)
    ensures Bitwise(AndOp, a, 0, n) == 0
  {
    if n > 0 {
      AndZero(a / 2, n - 1);
    }
  }

  /** AND of a value below `2^k` with a value whose `k` low bits are clear is zero. */
  lemma {:induction false} AndDisjointBits(a: nat, b: nat, k: nat, n: nat)
    requires a < Pow2(k)
    requires LowBits(b, k) == 0
    ensures Bitwise(AndOp, a, b, n) == 0
  {
    if n > 0 {
      if k == 0 {
        AndZeroLeft(b, n);
      } else {
        AndDisjointBits(a / 2, b / 2, k - 1, n - 1);
      }
    }
  }

  /** AND of zero with anything is zero. */
  lemma {:induction false} AndZeroLeft(b: nat, n: nat)
    ensures Bitwise(AndOp, 0, b, n) == 0
  {
    if n > 0 {
      AndZeroLeft(b / 2, n - 1);
    }
  }

  /** XOR with all `n` bits set flips every bit: it is the complement within `n` bits. */
  lemma {:induction false} XorOnesIsComplement(a: nat, n: nat)
    requires a < Pow2(n)
    ensures Bitwise(XorOp, a, Pow2(n) - 1, n) == Pow2(n) - 1 - a
  {
    if n > 0 {
      assert (Pow2(n) - 1) / 2 == Pow2(n - 1) - 1;
      XorOnesIsComplement(a / 2, n - 1);
    }
  }

  /** `a << n` for `n < 64`: the bits shifted past bit 63 are lost; a word that fits loses nothing. */
  function ShiftLeft(a: Word, n: nat): (r: Word)
    requires n < 64
    ensures a < Pow2(64 - n) ==> r == a * Pow2(n)
    ensures (a * Pow2(n) - r) % WORD_MODULUS == 0
  {
    var p := a * Pow2(n);
    if a < Pow2(64 - n) then
      ShiftFits(a, n);
      p
    else
      ModRemovesMultiples(p);
      p % WORD_MODULUS
  }

  /** What `% 2^64` takes away is a multiple of `2^64`. */
  lemma ModRemovesMultiples(x: int)
    ensures (x - x % WORD_MODULUS) % WORD_MODULUS == 0
  {
    var k := x / WORD_MODULUS;
    assert x - x % WORD_MODULUS == WORD_MODULUS * k;
  }

  /** The top bit shifted left by one leaves the word: `0x8000_0000_0000_0000 << 1 == 0`. */
  lemma SignBitShiftedOut()
    ensures ShiftLeft(SIGN_BIT, 1) == 0
  {
    Pow2Add(63, 1);
    WordModulusIsPow2();
    assert Pow2(63) == SIGN_BIT;
    assert SIGN_BIT * Pow2(1) == WORD_MODULUS;
  }

  /** A word below `2^(64 - n)` shifted left by `n` stays below `2^64`. */
  lemma ShiftFits(a: nat, n: nat)
    requires n <= 64 && a < Pow2(64 - n)
    ensures a * Pow2(n) < WORD_MODULUS
    ensures (a * Pow2(n)) % WORD_MODULUS == a * Pow2(n)
  {
    var p := Pow2(n);
    MulGap(a, Pow2(64 - n), p);
    Pow2Add(64 - n, n);
    WordModulusIsPow2();
    assert a * p < WORD_MODULUS;
    SmallMod(a * p);
  }

  lemma SmallMod(x: nat)
    requires x < WORD_MODULUS
    ensures x % WORD_MODULUS == x
  {
  }

  /** Multiplying by a positive factor and dividing by it again is the identity. */
  lemma MulDivCancel(a: nat, q: nat)
    requires q > 0
    ensures (a * q) / q == a
  {
    var d := (a * q) / q;
    if d > a {
      MulGap(a, d, q);
    } else if d < a {
      MulGap(d, a, q);
    }
  }

  /** Products by a positive factor of different numbers differ by at least the factor. */
  lemma MulGap(x: int, y: int, q: nat)
    requires x < y && q > 0
    ensures x * q + q <= y * q
  {
    var k := y - (x + 1);
    assert y * q == x * q + q + k * q;
  }

  /** `a >> n` for `n < 64`: a logical shift. */
  function ShiftRight(a: Word, n: nat): (r: Word)
    requires n < 64
    ensures r <= a
  {
    var d := Pow2(n);
    DivByPositiveShrinks(a, d);
    a / d
  }

  /** Dividing a natural number by a positive divisor never makes it larger. */
  lemma DivByPositiveShrinks(a: nat, d: nat)
    requires d >= 1
    ensures 0 <= a / d <= a
  {
    if d > 1 {
      assert a / d * d <= a;
    }
  }

  /** Shifting a word that fits left by `n` and back right by `n` gives it back. */
  lemma ShiftLeftThenRight(a: Word, n: nat)
    requires n < 64 && a < Pow2(64 - n)
    ensures ShiftRight(ShiftLeft(a, n), n) == a
  {
    MulDivCancel(a, Pow2(n));
  }

  /** AND keeps no bit that either operand lacks. */
  lemma {:induction false} AndBelow(a: nat, b: nat, n: nat)
    ensures Bitwise(AndOp, a, b, n) <= a && Bitwise(AndOp, a, b, n) <= b
  {
    if n > 0 {
      AndBelow(a / 2, b / 2, n - 1);
    }
  }

  /** OR keeps every bit either operand has within the `n` low bits. */
  lemma {:induction false} OrAbove(a: nat, b: nat, n: nat)
    ensures Bitwise(OrOp, a, b, n) >= LowBits(a, n) && Bitwise(OrOp, a, b, n) >= LowBits(b, n)
  {
    if n > 0 {
      OrAbove(a / 2, b / 2, n - 1);
    }
  }

  /** XOR of the `n` low bits is zero exactly when those bits agree. */
  lemma {:induction false} XorZeroIffSameLowBits(a: nat, b: nat, n: nat)
    ensures Bitwise(XorOp, a, b, n) == 0 <==> LowBits(a, n) == LowBits(b, n)
  {
    if n > 0 {
      XorZeroIffSameLowBits(a / 2, b / 2, n - 1);
    }
  }

  // ------------------------------------------------------ reinterpretations

  /** The same bits read as a two's-complement `isize`. */
  function Signed(w: Word): (r: int)
    ensures -SIGN_BIT <= r < SIGN_BIT
    ensures r % WORD_MODULUS == w
  {
    if w < SIGN_BIT then w else w - WORD_MODULUS
  }

  /** Magnitude bits of the same bits read as an `f64` (exponent and mantissa). */
  function FloatMagnitude(w: Word): nat
  {
    w % SIGN_BIT
  }

  /** Exponent all ones and a nonzero mantissa: the bits of a NaN. */
  predicate IsNaN(w: Word)
  {
    FloatMagnitude(w) > 0x7FF0_0000_0000_0000
  }

  /**
   * For a non-NaN pattern, an integer that orders the patterns as IEEE-754
   * orders the doubles they encode: magnitude bits grow with the absolute
   * value, the sign bit reverses the order, and both zeros map to 0.
   */
  function FloatKey(w: Word): int
  {
    var m: int := FloatMagnitude(w);
    if w < SIGN_BIT then m else -m
  }

  /** `a < b` on the doubles the two patterns encode; false when either is NaN. */
  predicate FloatLess(a: Word, b: Word)
  {
    !IsNaN(a) && !IsNaN(b) && FloatKey(a) < FloatKey(b)
  }

  /** `a <= b` on the doubles the two patterns encode; false when either is NaN. */
  predicate FloatLessEq(a: Word, b: Word)
  {
    !IsNaN(a) && !IsNaN(b) && FloatKey(a) <= FloatKey(b)
  }

  /** The bits of `-x` for the double `x`: IEEE-754 negation flips the sign bit only. */
  function FloatNeg(w: Word): (r: Word)
    ensures FloatMagnitude(r) == FloatMagnitude(w)
    ensures (r < SIGN_BIT) != (w < SIGN_BIT)
  {
    if w < SIGN_BIT then w + SIGN_BIT else w - SIGN_BIT
  }
}
