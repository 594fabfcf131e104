/** Signed 64-bit arithmetic and the pre-checked operations of src/engine/Interval.cpp. */
module Int64 {

  datatype Option<+T> = None | Some(value: T)

  const INT64_MAX: int := 0x7FFF_FFFF_FFFF_FFFF
  const INT64_MIN: int := -0x8000_0000_0000_0000

  /** Every operation on this type is checked to stay in range, intermediate results included. */
  newtype int64 = x: int | INT64_MIN <= x <= INT64_MAX

  const MAX64: int64 := 0x7FFF_FFFF_FFFF_FFFF
  const MIN64: int64 := -0x8000_0000_0000_0000

  predicate Fits(x: int) {
    INT64_MIN <= x <= INT64_MAX
  }

  /** The mathematical value when it is a 64-bit value. */
  function Checked(x: int): Option<int64> {
    if Fits(x) then Some(x as int64) else None
  }

  function Abs(x: int): nat {
    if x < 0 then -x else x
  }

  function MagnitudeQuotient(a: int, b: int): int
    requires b != 0
  {
    Abs(a) / Abs(b)
  }

  /** C's `/`: the quotient is rounded toward zero. */
  function Quotient(a: int, b: int): int
    requires b != 0
  {
    var q := MagnitudeQuotient(a, b);
    if (a >= 0) == (b > 0) then q else -q
  }

  /** C's `%`: what the rounded quotient leaves, with the sign of the dividend. */
  function Remainder(a: int, b: int): int
    requires b != 0
  {
    if a >= 0 then Abs(a) % Abs(b) else -(Abs(a) % Abs(b))
  }

  lemma DivMod(x: nat, y: nat)
    requires y > 0
    ensures x == y * (x / y) + x % y && 0 <= x % y < y
  {
  }

  /** ISO C section 6.5.5: (a/b)*b + a%b == a; the remainder is below the divisor in magnitude. */
  lemma QuotientAndRemainder(a: int, b: int)
    requires b != 0
    ensures Quotient(a, b) * b + Remainder(a, b) == a
    ensures Abs(Remainder(a, b)) < Abs(b)
    ensures (a >= 0 ==> Remainder(a, b) >= 0) && (a <= 0 ==> Remainder(a, b) <= 0)
  {
    var x, y, q := Abs(a), Abs(b), MagnitudeQuotient(a, b);
    DivMod(x, y);
    SignedProduct(q, b);
  }

  lemma SignedProduct(q: int, b: int)
    ensures q * b == (if b > 0 then Abs(b) * q else -(Abs(b) * q))
    ensures -q * b == (if b > 0 then -(Abs(b) * q) else Abs(b) * q)
  {
    assert -q * b == -(q * b);
    if b <= 0 {
      assert (-b) * q == -(b * q);
    }
  }

  /** 64-bit division; only INT64_MIN / -1 leaves the type. */
  function Div(a: int64, b: int64): (q: int64)
    requires b != 0 && !(a == MIN64 && b == -1)
    ensures q as int == Quotient(a as int, b as int)
  {
    QuotientFits(a as int, b as int);
    Quotient(a as int, b as int) as int64
  }

  lemma NatQuotientBound(x: nat, y: nat)
    requires y > 1
    ensures 2 * (x / y) <= x
  {
    var q := x / y;
    DivMod(x, y);
    assert y * q == 2 * q + (y - 2) * q;
    NonNegativeProduct(y - 2, q);
  }

  lemma NonNegativeProduct(x: nat, y: nat)
    ensures x * y >= 0
  {
  }

  lemma QuotientFits(a: int, b: int)
    requires Fits(a) && b != 0 && !(a == INT64_MIN && b == -1)
    ensures Fits(Quotient(a, b))
  {
    if Abs(b) > 1 {
      NatQuotientBound(Abs(a), Abs(b));
    } else {
      assert Abs(a) / 1 == Abs(a);
    }
  }

  // The portable branch of the checked operations: range tests that never overflow
  // themselves, then the operation. Each is exact: it succeeds iff the result fits.

  function CheckedAdd(a: int64, b: int64): (r: Option<int64>)
    ensures r == Checked(a as int + b as int)
  {
    if (b > 0 && a > MAX64 - b) || (b < 0 && a < MIN64 - b) then None else Some(a + b)
  }

  function CheckedSub(a: int64, b: int64): (r: Option<int64>)
    ensures r == Checked(a as int - b as int)
  {
    if (b < 0 && a > MAX64 + b) || (b > 0 && a < MIN64 + b) then None else Some(a - b)
  }

  /** The four sign cases of the overflow test in checkedMul64. */
  function MulOverflows(a: int64, b: int64): (o: bool)
    requires a != 0 && b != 0
    ensures o <==> !Fits(a as int * b as int)
  {
    ProductFits(a as int, b as int);
    if a > 0
    then if b > 0 then a > Div(MAX64, b) else b < Div(MIN64, a)
    else if b > 0 then a < Div(MIN64, b) else b < Div(MAX64, a)
  }

  function CheckedMul(a: int64, b: int64): (r: Option<int64>)
    ensures r == Checked(a as int * b as int)
  {
    if a != 0 && b != 0 && MulOverflows(a, b) then None
    else
      assert Fits(a as int * b as int);
      Some((a as int * b as int) as int64)
  }

  /** Comparing a factor with a quotient decides whether the product passes a limit. */
  lemma ProductVersusQuotient(x: nat, y: nat, limit: nat)
    requires y > 0
    ensures x > limit / y <==> x * y > limit
  {
    var q := limit / y;
    DivMod(limit, y);
    if x > q {
      assert x * y == y * q + y + (x - q - 1) * y;
      NonNegativeProduct(x - q - 1, y);
    } else {
      assert y * q == x * y + (q - x) * y;
      NonNegativeProduct(q - x, y);
    }
  }

  lemma ProductFits(a: int, b: int)
    requires Fits(a) && Fits(b) && a != 0 && b != 0
    ensures a > 0 && b > 0 ==> (a > Quotient(INT64_MAX, b) <==> !Fits(a * b))
    ensures a > 0 && b < 0 ==> (b < Quotient(INT64_MIN, a) <==> !Fits(a * b))
    ensures a < 0 && b > 0 ==> (a < Quotient(INT64_MIN, b) <==> !Fits(a * b))
    ensures a < 0 && b < 0 ==> (b < Quotient(INT64_MAX, a) <==> !Fits(a * b))
  {
    var x, y := Abs(a), Abs(b);
    ProductMagnitude(a, b);
    ProductVersusQuotient(x, y, INT64_MAX);
    ProductVersusQuotient(y, x, INT64_MAX);
    ProductVersusQuotient(x, y, -INT64_MIN);
    ProductVersusQuotient(y, x, -INT64_MIN);
  }

  lemma ProductMagnitude(a: int, b: int)
    ensures Abs(a * b) == Abs(a) * Abs(b)
    ensures a > 0 && b > 0 ==> a * b > 0
    ensures a < 0 && b < 0 ==> a * b > 0
    ensures a > 0 && b < 0 ==> a * b < 0
    ensures a < 0 && b > 0 ==> a * b < 0
  {
    if a >= 0 && b < 0 {
      assert a * b == -(a * -b);
    } else if a < 0 && b >= 0 {
      assert a * b == -(-a * b);
    } else if a < 0 && b < 0 {
      assert a * b == (-a) * (-b);
    }
  }
}
