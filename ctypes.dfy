/** C++ integer types and the pieces of C++ integer arithmetic the library relies on. */
module CTypes {

  const INT_MIN: int := -0x8000_0000
  const INT_MAX: int := 0x7fff_ffff
  /** 2^32: the modulus of `Uint32` arithmetic. */
  const TWO_32: int := 0x1_0000_0000

  /** A 32-bit `int`. */
  type Int32 = x: int | -0x8000_0000 <= x <= 0x7fff_ffff
  /** An SDL `Uint32`. */
  type Uint32 = x: int | 0 <= x < 0x1_0000_0000
  /** An SDL `Uint8`. */
  type Uint8 = x: int | 0 <= x < 0x100

  predicate InInt32(x: int) {
    INT_MIN <= x <= INT_MAX
  }

  function Abs(x: int): (r: int)
    ensures r >= 0 && (r == x || r == -x)
  {
    if x < 0 then -x else x
  }

  // ---------------------------------------------------------------------------
  // Division, C++ style

  /** `q` is the quotient C++ computes for `a / b`: the remainder `a - q * b` is
      smaller than `|b|` in magnitude and never has the opposite sign to `a`. */
  ghost predicate IsTruncQuotient(a: int, b: int, q: int) {
    b != 0 &&
    (a >= 0 ==> 0 <= a - q * b < Abs(b)) &&
    (a < 0 ==> -Abs(b) < a - q * b <= 0)
  }

  /** C++ `a / b` on integers: the quotient truncated toward zero (Dafny's own `/` is Euclidean). */
  function TruncDiv(a: int, b: int): (q: int)
    requires b != 0
    ensures IsTruncQuotient(a, b, q)
    ensures Abs(q) <= Abs(a)
    ensures Abs(b) >= 2 ==> 2 * Abs(q) <= Abs(a)
  {
    var k := Abs(a) / Abs(b);
    TruncDivCorrect(a, b, k);
    if (a >= 0) == (b > 0) then k else -k
  }

  lemma NatDivFacts(n: int, m: int)
    requires n >= 0 && m > 0
    ensures n == (n / m) * m + n % m && 0 <= n % m < m
    ensures 0 <= n / m <= n
    ensures m >= 2 ==> 2 * (n / m) <= n
  {
    var k := n / m;
    assert k >= 0;
    if m >= 2 {
      assert k * m >= k * 2;
    }
    assert k * m >= k;
  }

  lemma TruncDivCorrect(a: int, b: int, k: int)
    requires b != 0 && k == Abs(a) / Abs(b)
    ensures IsTruncQuotient(a, b, if (a >= 0) == (b > 0) then k else -k)
    ensures 0 <= k <= Abs(a)
    ensures Abs(b) >= 2 ==> 2 * k <= Abs(a)
  {
    var n, m := Abs(a), Abs(b);
    NatDivFacts(n, m);
    var p, r := k * m, n % m;
    assert n == p + r;
    if b > 0 {
      assert k * b == p;
      assert -k * b == -p;
    } else {
      assert k * b == -p;
      assert -k * b == p;
    }
  }

  /** The truncating quotient is the only one: C++ division is a function of its operands. */
  lemma TruncQuotientUnique(a: int, b: int, q1: int, q2: int)
    requires IsTruncQuotient(a, b, q1) && IsTruncQuotient(a, b, q2)
    ensures q1 == q2
  {
    var r1, r2 := a - q1 * b, a - q2 * b;
    assert r2 - r1 == (q1 - q2) * b;
    if q1 != q2 {
      assert Abs(r2 - r1) < Abs(b);
      AbsProductAtLeast(q1 - q2, b);
    }
  }

  lemma AbsProductAtLeast(d: int, b: int)
    requires d != 0 && b != 0
    ensures Abs(d * b) >= Abs(b)
  {
    var x, y := Abs(d), Abs(b);
    AbsOfProduct(d, b);
    MulAtLeast(x, y);
  }

  lemma AbsOfProduct(d: int, b: int)
    ensures Abs(d * b) == Abs(d) * Abs(b)
  {
    if d < 0 && b < 0 {
      NegateBoth(d, b);
    } else if d < 0 {
      NegateLeft(d, b);
    } else if b < 0 {
      NegateLeft(b, d);
    }
  }

  lemma NegateLeft(d: int, b: int)
    ensures (-d) * b == -(d * b) && b * d == d * b
  {
  }

  lemma NegateBoth(d: int, b: int)
    ensures (-d) * (-b) == d * b
  {
  }

  lemma MulAtLeast(x: int, y: int)
    requires x >= 1 && y >= 0
    ensures x * y >= y
  {
    assert x * y == (x - 1) * y + y;
  }

  /** The only way a C++ `int / int` leaves the 32-bit range is `INT_MIN / -1`. */
  lemma TruncDivInRange(a: Int32, b: Int32)
    requires b != 0 && !(a == INT_MIN && b == -1)
    ensures InInt32(TruncDiv(a, b))
  {
    var q := TruncDiv(a, b);
    if Abs(b) == 1 {
      assert q == a || q == -a;
    }
  }

  // ---------------------------------------------------------------------------
  // Unsigned 32-bit arithmetic

  /** `a - b` on two `Uint32` tick counts: the difference taken modulo 2^32. */
  function WrapSub(a: Uint32, b: Uint32): (d: Uint32)
    ensures (b + d) % TWO_32 == a
  {
    if a >= b then a - b else a - b + TWO_32
  }

  /** Adding `b` back undoes the wrap-around subtraction, and nothing else does:
      `d` is the number of ticks from `b` forward to `a`. */
  lemma WrapSubUnique(a: Uint32, b: Uint32, d: Uint32)
    requires (b + d) % TWO_32 == a
    ensures d == WrapSub(a, b)
  {
    if b + d >= TWO_32 {
      assert (b + d) % TWO_32 == b + d - TWO_32;
    } else {
      assert (b + d) % TWO_32 == b + d;
    }
  }

  // ---------------------------------------------------------------------------
  // The advisory logical reference counters of Surface and Texture

  /** `ref()`: one more reference, except that a count already at INT_MAX stays there. */
  function SaturatingInc(c: Int32): (r: Int32)
    ensures c < INT_MAX ==> r == c + 1
    ensures c == INT_MAX ==> r == c
  {
    if c == INT_MAX then c else c + 1
  }

  /** `deref()` guarded on the count itself: a count at or below zero is left alone. */
  function GuardedDec(c: Int32): (r: Int32)
    ensures c > 0 ==> r == c - 1
    ensures c <= 0 ==> r == c
    ensures r >= 0 || r == c
  {
    if c <= 0 then c else c - 1
  }

  /** `n` consecutive `ref()` calls. */
  function RefTimes(c: Int32, n: nat): Int32
    decreases n
  {
    if n == 0 then c else SaturatingInc(RefTimes(c, n - 1))
  }

  /** `n` consecutive guarded `deref()` calls. */
  function DerefTimes(c: Int32, n: nat): Int32
    decreases n
  {
    if n == 0 then c else GuardedDec(DerefTimes(c, n - 1))
  }

  lemma {:induction false} RefTimesAdds(c: Int32, n: nat)
    requires c + n <= INT_MAX
    ensures RefTimes(c, n) == c + n
  {
    if n > 0 {
      RefTimesAdds(c, n - 1);
    }
  }

  lemma {:induction false} DerefTimesSubtracts(c: Int32, n: nat)
    requires n <= c
    ensures DerefTimes(c, n) == c - n
  {
    if n > 0 {
      DerefTimesSubtracts(c, n - 1);
    }
  }

  /** Taking `n` references and then releasing `n` returns a non-negative count to where
      it was, provided the references did not saturate. */
  lemma RefThenDerefRestores(c: Int32, n: nat)
    requires 0 <= c && c + n <= INT_MAX
    ensures DerefTimes(RefTimes(c, n), n) == c
  {
    RefTimesAdds(c, n);
    DerefTimesSubtracts(c + n, n);
  }

  /** However many guarded `deref()` calls follow, a non-negative count never goes negative. */
  lemma {:induction false} DerefTimesNonNegative(c: Int32, n: nat)
    requires c >= 0
    ensures DerefTimes(c, n) >= 0
  {
    if n > 0 {
      DerefTimesNonNegative(c, n - 1);
    }
  }
}
