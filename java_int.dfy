/**
 * Java's 32-bit `int`: its range, the two's-complement wrap-around that
 * `AtomicInteger` arithmetic and `int` division perform, and the quotient
 * of `/`, which truncates toward zero.
 */
module JavaInt {

  const MinInt: int := -0x8000_0000
  const MaxInt: int := 0x7fff_ffff
  /** Number of distinct 32-bit values. */
  const Modulus: int := 0x1_0000_0000

  /** The mathematical integers a Java `int` can hold. */
  type Int32 = x: int | -0x8000_0000 <= x <= 0x7fff_ffff

  predicate InRange(x: int) {
    MinInt <= x <= MaxInt
  }

  function Abs(x: int): nat {
    if x < 0 then -x else x
  }

  /** The `int` that two's-complement arithmetic leaves for the mathematical value `x`. */
  function Wrap(x: int): (r: Int32)
    ensures InRange(x) ==> r == x
  {
    (x - MinInt) % Modulus + MinInt
  }

  /** `Wrap(x)` differs from `x` by a multiple of 2^32, which makes it the only such `int`. */
  lemma WrapCharacterization(x: int, r: int)
    ensures (x - Wrap(x)) % Modulus == 0
    ensures InRange(r) && (x - r) % Modulus == 0 ==> r == Wrap(x)
  {
    var c := x - MinInt;
    assert c == (c / Modulus) * Modulus + c % Modulus;
    assert x - Wrap(x) == (c / Modulus) * Modulus;
    ModShift(0, c / Modulus);
    if InRange(r) && (x - r) % Modulus == 0 {
      var k := (x - r) / Modulus;
      assert x - r == k * Modulus;
      ModShift(r - MinInt, k);
    }
  }

  lemma ModShift(c: int, k: int)
    ensures (c + k * Modulus) % Modulus == c % Modulus
  {
  }

  /** Wrapping an intermediate result does not change the final wrapped value. */
  lemma {:induction false} WrapAdd(x: int, y: int)
    ensures Wrap(Wrap(x) + y) == Wrap(x + y)
  {
    var a := x - MinInt;
    assert a == (a / Modulus) * Modulus + a % Modulus;
    ModShift(a % Modulus + y, a / Modulus);
  }

  /**
   * Java's `int` addition of two `int`s, as `AtomicInteger.addAndGet` and
   * `incrementAndGet` perform it: the exact sum when it fits, otherwise the
   * sum moved by 2^32 back into range.
   */
  function Add32(x: Int32, y: Int32): (r: Int32)
    ensures InRange(x as int + y) ==> r == x as int + y
  {
    var s := x as int + y;
    if s > MaxInt then s - Modulus else if s < MinInt then s + Modulus else s
  }

  /** `Add32` is two's-complement wrap-around of the mathematical sum. */
  lemma Add32IsWrap(x: Int32, y: Int32)
    ensures Add32(x, y) == Wrap(x as int + y)
  {
    var s := x as int + y;
    if s > MaxInt {
      ModShift(s - Modulus - MinInt, 1);
    } else if s < MinInt {
      ModShift(s + Modulus - MinInt, -1);
    }
  }

  /** Adding to a wrapped running total wraps the new mathematical total. */
  lemma Add32OfWrap(x: int, y: Int32, z: int)
    requires z == x + y
    ensures Add32(Wrap(x), y) == Wrap(z)
  {
    Add32IsWrap(Wrap(x), y);
    WrapAdd(x, y);
  }

  lemma Add32Associates(x: Int32, y: Int32, z: Int32)
    ensures Add32(Add32(x, y), z) == Add32(x, Add32(y, z))
  {
  }

  /** The quotient of Java's `/` on mathematical integers: it truncates toward zero. */
  function TruncDiv(a: int, b: int): int
    requires b != 0
  {
    var q := Abs(a) / Abs(b);
    if (a < 0) == (b < 0) then q else -q
  }

  /**
   * `q` is the truncated quotient of `a` by `b`: the remainder `a - q * b` is
   * smaller than the divisor in magnitude and is zero or has the sign of `a`.
   */
  ghost predicate IsTruncatedQuotient(a: int, b: int, q: int) {
    var rem := a - q * b;
    Abs(rem) < Abs(b) && (rem == 0 || (rem < 0) == (a < 0))
  }

  lemma MulSigns(x: int, y: int)
    ensures (-x) * y == -(x * y) && x * (-y) == -(x * y) && (-x) * (-y) == x * y
  {
  }

  /** The Euclidean quotient of magnitudes, with its remainder. */
  lemma MagnitudeDivision(A: nat, B: int)
    requires B >= 1
    ensures 0 <= A - (A / B) * B < B
  {
  }

  lemma {:induction false} TruncDivIsTruncated(a: int, b: int)
    requires b != 0
    ensures IsTruncatedQuotient(a, b, TruncDiv(a, b))
  {
    var A: int, B: int := Abs(a), Abs(b);
    var q0 := A / B;
    MagnitudeDivision(A, B);
    MulSigns(q0, B);
    var q := TruncDiv(a, b);
    var p := q0 * B;
    if a >= 0 && b > 0 {
      assert q * b == p;
    } else if a >= 0 {
      assert q == -q0 && b == -B;
      assert q * b == p;
    } else if b > 0 {
      assert q == -q0 && a == -A && b == B;
      assert q * b == -p;
    } else {
      assert q == q0 && a == -A && b == -B;
      assert q * b == -p;
    }
  }

  /** A nonzero multiple of `b` is at least as large as `b` in magnitude. */
  lemma MagnitudeOfMultiple(k: int, b: int)
    requires k != 0
    ensures Abs(k * b) >= Abs(b)
  {
    var K: int, B: int := Abs(k), Abs(b);
    MulNonneg(K - 1, B);
    assert (K - 1) * B == K * B - B;
    MulSigns(K, B);
    assert Abs(k * b) == K * B;
  }

  /** The truncated quotient is unique: no other integer satisfies the characterization. */
  lemma {:induction false} TruncatedQuotientUnique(a: int, b: int, q: int)
    requires b != 0
    requires IsTruncatedQuotient(a, b, q)
    ensures q == TruncDiv(a, b)
  {
    var t := TruncDiv(a, b);
    TruncDivIsTruncated(a, b);
    var r1, r2 := a - q * b, a - t * b;
    MulDistributes(q, t, b);
    assert r2 - r1 == (q - t) * b;
    assert Abs(r2 - r1) < Abs(b);
    if q != t {
      MagnitudeOfMultiple(q - t, b);
      assert false;
    }
  }

  lemma MulDistributes(x: int, y: int, z: int)
    ensures (x - y) * z == x * z - y * z
  {
  }

  lemma MulNonneg(x: nat, y: nat)
    ensures x * y >= 0
  {
  }

  lemma QuotientBound(A: nat, B: int)
    requires B >= 1
    ensures 0 <= A / B <= A
    ensures (A / B) * B <= A
  {
    var q := A / B;
    MagnitudeDivision(A, B);
    MulNonneg(q, B - 1);
    assert q * (B - 1) == q * B - q;
  }

  /**
   * Java's `int` division (section 15.17.2 of the Java Language
   * Specification): the truncated quotient, except that `MinInt / -1`
   * overflows and yields `MinInt`, with no exception.
   */
  function JavaDiv(a: Int32, b: Int32): (q: Int32)
    requires b != 0
    ensures !(a == MinInt && b == -1) ==> IsTruncatedQuotient(a, b, q)
    ensures q == Wrap(TruncDiv(a, b))
  {
    TruncDivRange(a, b);
    TruncDivIsTruncated(a, b);
    if a == MinInt && b == -1 then MinInt else TruncDiv(a, b)
  }

  /**
   * On `int` operands, the quotient fits in an `int` except for
   * `MinInt / -1`, whose mathematical value 2^31 wraps back to `MinInt`.
   */
  lemma {:induction false} TruncDivRange(a: Int32, b: Int32)
    requires b != 0
    ensures InRange(TruncDiv(a, b)) <==> !(a == MinInt && b == -1)
    ensures Wrap(TruncDiv(MinInt, -1)) == MinInt
  {
    var A: int, B: int := Abs(a), Abs(b);
    var q0 := A / B;
    QuotientBound(A, B);
    assert q0 <= 0x8000_0000;
    if q0 == 0x8000_0000 {
      assert q0 * B <= 0x8000_0000;
      assert B == 1 && A == 0x8000_0000;
    }
    assert TruncDiv(MinInt, -1) == 0x8000_0000;
  }
}
