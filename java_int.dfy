/** Java `int` operations whose meaning differs from Dafny's mathematical integers. */
module JavaInt {

  const MIN_VALUE: int := -0x8000_0000  // Integer.MIN_VALUE
  const MAX_VALUE: int := 0x7FFF_FFFF   // Integer.MAX_VALUE

  /** Math.abs (without the overflow of Math.abs(Integer.MIN_VALUE)). */
  function Abs(x: int): nat {
    if x < 0 then -x else x
  }

  function Min(x: int, y: int): int {
    if x <= y then x else y
  }

  function Max(x: int, y: int): int {
    if x <= y then y else x
  }

  /**
   * Java's integer `/`: the quotient is truncated toward zero, so the
   * remainder takes the sign of the dividend (JLS section 15.17.2).
   * Dafny's own `/` is Euclidean and disagrees for negative operands.
   */
  function Div(n: int, d: int): (q: int)
    requires d != 0
    ensures (n >= 0 && d > 0) || (n <= 0 && d < 0) ==> q >= 0
  {
    if (n < 0) == (d < 0) then Abs(n) / Abs(d) else -(Abs(n) / Abs(d))
  }

  /**
   * The quotient truncates: the remainder is smaller than the divisor in
   * magnitude and, unless zero, has the sign of the dividend, so the
   * quotient never overshoots the dividend.
   */
  lemma DivTruncates(n: int, d: int)
    requires d != 0
    ensures var q := Div(n, d);
            && Abs(n - q * d) < Abs(d)
            && (n - q * d == 0 || (n - q * d < 0 <==> n < 0))
            && Abs(q * d) <= Abs(n)
  {
    TruncatedRemainder(n, d, Div(n, d));
  }

  lemma TruncatedRemainder(n: int, d: int, q: int)
    requires d != 0
    requires q == if (n < 0) == (d < 0) then Abs(n) / Abs(d) else -(Abs(n) / Abs(d))
    ensures n - q * d == (if n < 0 then -(Abs(n) % Abs(d)) else Abs(n) % Abs(d))
    ensures Abs(q * d) == Abs(n) / Abs(d) * Abs(d)
  {
    var q0, r0 := Abs(n) / Abs(d), Abs(n) % Abs(d);
    assert Abs(n) == q0 * Abs(d) + r0;
    if d > 0 {
      assert q * d == (if n < 0 then -(q0 * Abs(d)) else q0 * Abs(d));
    } else {
      assert q * d == q0 * Abs(d) * (if n < 0 then -1 else 1);
    }
  }

  /** For a non-negative dividend and a positive divisor Java and Dafny agree. */
  lemma DivOfNonNegatives(n: int, d: int)
    requires n >= 0 && d > 0
    ensures Div(n, d) == n / d
  {
  }

  /** `-w / a` with `w >= 0` and `a < 0`, as the occlusion masks compute it. */
  lemma DivOfNegatives(w: int, a: int)
    requires w >= 0 && a < 0
    ensures Div(-w, a) == w / -a
  {
  }

  /** v halved n times, each time rounding toward minus infinity. */
  function Halve(v: int, n: nat): int {
    if n == 0 then v else Halve(v, n - 1) / 2
  }

  /**
   * Java's `v >> k` on an `int`: an arithmetic shift by the low five bits of
   * `k`, that is, division by 2 to that power rounding toward minus infinity.
   */
  function Shr(v: int, k: int): int {
    Halve(v, k % 32)
  }

  /** Halving a non-negative value keeps it non-negative and does not make it grow. */
  lemma {:induction false} HalveOfNonNegative(v: int, n: nat)
    requires v >= 0
    ensures 0 <= Halve(v, n) <= v
  {
    if n > 0 {
      HalveOfNonNegative(v, n - 1);
    }
  }

  /** A non-negative value shifted right stays non-negative and does not grow. */
  lemma ShrOfNonNegative(v: int, k: int)
    requires v >= 0
    ensures 0 <= Shr(v, k) <= v
  {
    HalveOfNonNegative(v, k % 32);
  }

  /** Java's `v >= 0` on an `int` held as its 32 bits: the sign bit is clear. */
  predicate NonNegative(v: bv32) {
    v < 0x8000_0000
  }
}
