/** Decimal9: a fixed-point number with nine fractional digits, held as an
    integer count of 10^-9 units (the `_getValue()` of the source).
    Addition, subtraction and negation are exact; multiplication and
    division round to a unit by one of three modes. Decimal9Total is the
    mutable accumulator variant. */
module Decimal9 {
  import opened Wrappers
  import opened Digits

  /** Units per whole number. */
  const SCALE: int := 1_000_000_000

  /** The largest whole value the repository treats as safe, and its negation. */
  const MAX_SAFE_VALUE: int := 9000100
  const MIN_SAFE_VALUE: int := -9000100

  /** The rounding modes of `times` and `divideBy`; truncation is the default. */
  datatype RoundMode = Away | Truncate | Nearest

  const DEFAULT_ROUND: RoundMode := Truncate

  datatype Decimal9 = Decimal9(scaled: int)

  function Abs(x: int): nat { if x < 0 then -x else x }

  // ---------------------------------------------------------------------
  // Rounded integer division
  // ---------------------------------------------------------------------

  /** What it means for q to be n / d rounded by `mode`, stated through the
      rounding error e = n - q*d:
      - truncate: e has the sign of n and is smaller than d in magnitude,
        so q*d lies between 0 and n (rounding toward zero);
      - away: e has the opposite sign and is smaller than d in magnitude,
        so q*d lies at or beyond n (rounding away from zero);
      - nearest: q*d is within half of d of n, and an exact half goes to
        the even q. */
  predicate RoundedBy(n: int, d: int, mode: RoundMode, q: int)
    requires d != 0
  {
    ErrorFits(n, n - q * d, Abs(d), mode, q)
  }

  /** The rounding conditions on the error e of a quotient q of n by a
      divisor of magnitude b. */
  predicate ErrorFits(n: int, e: int, b: int, mode: RoundMode, q: int) {
    match mode
    case Truncate => Abs(e) < b && (n >= 0 ==> e >= 0) && (n <= 0 ==> e <= 0)
    case Away => Abs(e) < b && (n >= 0 ==> e <= 0) && (n <= 0 ==> e >= 0)
    case Nearest => 2 * Abs(e) <= b && (2 * Abs(e) == b ==> q % 2 == 0)
  }

  /** The rounded quotient of two magnitudes. */
  function RoundMagnitude(a: nat, b: nat, mode: RoundMode): nat
    requires b > 0
  {
    var t, r := a / b, a % b;
    match mode
    case Truncate => t
    case Away => if r == 0 then t else t + 1
    case Nearest =>
      if 2 * r < b then t
      else if 2 * r > b then t + 1
      else if t % 2 == 0 then t else t + 1
  }

  /** n / d rounded by `mode`: the magnitudes are divided and rounded, and
      the sign is that of the exact quotient. */
  function RoundDiv(n: int, d: int, mode: RoundMode): int
    requires d != 0
  {
    var m: int := RoundMagnitude(Abs(n), Abs(d), mode);
    if (n < 0) != (d < 0) then -m else m
  }

  /** The error of the magnitude rounding, a - m*b, for each mode. */
  lemma RoundMagnitudeError(a: int, b: int, mode: RoundMode)
    requires a >= 0 && b > 0
    ensures var m: int := RoundMagnitude(a, b, mode);
      match mode
      case Truncate => 0 <= a - m * b < b
      case Away => -b < a - m * b <= 0
      case Nearest => 2 * Abs(a - m * b) <= b && (2 * Abs(a - m * b) == b ==> m % 2 == 0)
  {
    var t, r := a / b, a % b;
    assert a == t * b + r;
    assert (t + 1) * b == t * b + b;
  }

  lemma MulSigns(m: int, b: int, n: int, d: int)
    requires b == Abs(d)
    ensures ((n < 0) != (d < 0) ==> (-m) * d == (if n < 0 then -(m * b) else m * b))
    ensures ((n < 0) == (d < 0) ==> m * d == (if n < 0 then -(m * b) else m * b))
  {
  }

  /** RoundDiv meets the reference definition. */
  lemma RoundDivMeets(n: int, d: int, mode: RoundMode)
    requires d != 0
    ensures RoundedBy(n, d, mode, RoundDiv(n, d, mode))
  {
    var a: int, b: int := Abs(n), Abs(d);
    var m: int := RoundMagnitude(a, b, mode);
    RoundMagnitudeError(a, b, mode);
    MulSigns(m, b, n, d);
    var q := RoundDiv(n, d, mode);
    var e := n - q * d;
    if n < 0 {
      assert q * d == -(m * b);
      assert e == -(a - m * b);
    } else {
      assert q * d == m * b;
      assert e == a - m * b;
    }
    assert q % 2 == 0 <==> m % 2 == 0;
  }

  lemma MulAbs(x: int, d: int)
    ensures Abs(x * d) == Abs(x) * Abs(d)
  {
    if x < 0 && d < 0 {
      assert x * d == (-x) * (-d);
    } else if x < 0 {
      assert x * d == -((-x) * d);
    } else if d < 0 {
      assert x * d == -(x * (-d));
    }
  }

  /** A nonzero integer times d is at least d in magnitude. */
  lemma MulAbsAtLeast(x: int, d: int)
    ensures x != 0 ==> Abs(x * d) >= Abs(d)
    ensures Abs(x) == 1 ==> Abs(x * d) == Abs(d)
    ensures Abs(x) >= 2 ==> Abs(x * d) >= 2 * Abs(d)
  {
    MulAbs(x, d);
    var ax: int, ad: int := Abs(x), Abs(d);
    assert ax * ad == (ax - 1) * ad + ad;
    assert ax * ad == (ax - 2) * ad + 2 * ad;
  }

  /** At most one q meets the reference definition: two candidates differ
      by a multiple of d that the error bounds leave no room for. */
  lemma RoundedByUnique(n: int, d: int, mode: RoundMode, q1: int, q2: int)
    requires d != 0
    requires RoundedBy(n, d, mode, q1) && RoundedBy(n, d, mode, q2)
    ensures q1 == q2
  {
    var e1, e2 := n - q1 * d, n - q2 * d;
    var x := q2 - q1;
    assert e1 - e2 == x * d;
    ErrorsClose(n, e1, e2, Abs(d), mode, q1, q2);
    MulAbsAtLeast(x, d);
    NoRoomForTwo(q1, q2, Abs(e1 - e2), Abs(d), mode == Nearest);
  }

  lemma NoRoomForTwo(q1: int, q2: int, p: int, b: int, nearest: bool)
    requires b > 0
    requires q2 - q1 != 0 ==> p >= b
    requires Abs(q2 - q1) == 1 ==> p == b
    requires Abs(q2 - q1) >= 2 ==> p >= 2 * b
    requires !nearest ==> p < b
    requires nearest ==> p <= b && (p == b ==> q1 % 2 == 0 && q2 % 2 == 0)
    ensures q1 == q2
  {
  }

  /** Two errors that both fit lie within one divisor of each other, and
      a full divisor apart only at two even halves. */
  lemma ErrorsClose(n: int, e1: int, e2: int, b: int, mode: RoundMode, q1: int, q2: int)
    requires ErrorFits(n, e1, b, mode, q1) && ErrorFits(n, e2, b, mode, q2)
    ensures mode != Nearest ==> Abs(e1 - e2) < b
    ensures mode == Nearest ==> Abs(e1 - e2) <= b
    ensures mode == Nearest && Abs(e1 - e2) == b ==> q1 % 2 == 0 && q2 % 2 == 0
  {
  }

  /** RoundDiv is exactly the rounding the reference definition describes. */
  lemma RoundDivSpec(n: int, d: int, mode: RoundMode, q: int)
    requires d != 0
    ensures RoundedBy(n, d, mode, q) <==> q == RoundDiv(n, d, mode)
  {
    RoundDivMeets(n, d, mode);
    if RoundedBy(n, d, mode, q) {
      RoundedByUnique(n, d, mode, q, RoundDiv(n, d, mode));
    }
  }

  /** An exact quotient is returned unchanged by every mode. */
  lemma RoundDivExact(k: int, d: int, mode: RoundMode)
    requires d != 0
    ensures RoundDiv(k * d, d, mode) == k
  {
    assert RoundedBy(k * d, d, mode, k);
    RoundDivSpec(k * d, d, mode, k);
  }

  /** Negating the dividend negates the rounded quotient in every mode. */
  lemma RoundDivOdd(n: int, d: int, mode: RoundMode)
    requires d != 0
    ensures RoundDiv(-n, d, mode) == -RoundDiv(n, d, mode)
  {
  }

  /** Truncation and rounding away differ by one unit exactly when the
      division leaves a remainder, and never otherwise. */
  lemma {:induction false} AwayIsTruncatePlusOne(n: int, d: int)
    requires d != 0
    ensures Abs(RoundDiv(n, d, Away)) == Abs(RoundDiv(n, d, Truncate)) + (if n % d == 0 then 0 else 1)
  {
    var a, b := Abs(n), Abs(d);
    assert (a % b == 0) <==> (n % d == 0) by {
      DivisibleAbs(n, d);
    }
  }

  lemma DivisibleAbs(n: int, d: int)
    requires d != 0
    ensures (Abs(n) % Abs(d) == 0) <==> (n % d == 0)
  {
    var a, b := Abs(n), Abs(d);
    if n % d == 0 {
      var k := n / d;
      assert n == k * d;
      MulAbs(k, d);
      RoundDivExact(Abs(k), b, Truncate);
      assert a == Abs(k) * b;
      ModOfMultiple(Abs(k), b);
    }
    if a % b == 0 {
      var k: int := a / b;
      assert a == k * b;
      var j: int := if (n < 0) != (d < 0) then -k else k;
      MulSigns(k, b, n, d);
      assert n == j * d;
      ModOfMultiple(j, d);
    }
  }

  lemma ModOfMultiple(k: int, d: int)
    requires d != 0
    ensures (k * d) % d == 0
  {
    var n := k * d;
    var q, r := n / d, n % d;
    assert n == q * d + r;
    assert (k - q) * d == r;
    MulAbsAtLeast(k - q, d);
  }

  /** Multiplying by a positive factor keeps signs and order. */
  lemma MulPositive(c: int, z: int)
    requires c > 0
    ensures z > 0 ==> c * z > 0
    ensures z == 0 ==> c * z == 0
    ensures z < 0 ==> c * z < 0
  {
  }

  lemma ScaledError(n: int, d: int, c: int, q: int)
    requires c > 0
    ensures c * n - q * (c * d) == c * (n - q * d)
    ensures Abs(c * (n - q * d)) == c * Abs(n - q * d)
    ensures Abs(c * d) == c * Abs(d)
  {
    MulAbs(c, n - q * d);
    MulAbs(c, d);
  }

  lemma ErrorFitsScaled(n: int, e: int, b: int, c: int, mode: RoundMode, q: int)
    requires c > 0 && b > 0
    ensures ErrorFits(c * n, c * e, c * b, mode, q) <==> ErrorFits(n, e, b, mode, q)
  {
    MulAbs(c, e);
    MulPositive(c, n);
    MulPositive(c, e);
    ScaledCompare(c, Abs(e), b);
    ScaledCompare(c, 2 * Abs(e), b);
    assert c * (2 * Abs(e)) == 2 * (c * Abs(e));
    ErrorFitsTransfer(n, e, b, c * n, c * e, c * b, mode, q);
  }

  /** Multiplying both sides by a positive factor keeps their order. */
  lemma ScaledCompare(c: int, x: int, y: int)
    requires c > 0
    ensures c * x < c * y <==> x < y
    ensures c * x == c * y <==> x == y
    ensures c * x <= c * y <==> x <= y
  {
    MulPositive(c, y - x);
    assert c * (y - x) == c * y - c * x;
  }

  /** ErrorFits depends only on signs and on how |e| compares with b. */
  lemma ErrorFitsTransfer(n: int, e: int, b: int, n': int, e': int, b': int, mode: RoundMode, q: int)
    requires (n' >= 0 <==> n >= 0) && (n' <= 0 <==> n <= 0)
    requires (e' >= 0 <==> e >= 0) && (e' <= 0 <==> e <= 0)
    requires (Abs(e') < b' <==> Abs(e) < b)
    requires (2 * Abs(e') <= b' <==> 2 * Abs(e) <= b)
    requires (2 * Abs(e') == b' <==> 2 * Abs(e) == b)
    ensures ErrorFits(n', e', b', mode, q) <==> ErrorFits(n, e, b, mode, q)
  {
  }

  /** Scaling dividend and divisor by the same positive factor does not
      change what counts as a rounded quotient. */
  lemma RoundedByScaled(n: int, d: int, c: int, mode: RoundMode, q: int)
    requires d != 0 && c > 0
    ensures c * d != 0
    ensures RoundedBy(c * n, c * d, mode, q) <==> RoundedBy(n, d, mode, q)
  {
    var e := n - q * d;
    ScaledError(n, d, c, q);
    MulPositive(c, d);
    ErrorFitsScaled(n, e, Abs(d), c, mode, q);
  }

  lemma Pow10Add(a: nat, b: nat)
    ensures Pow10(a + b) == Pow10(a) * Pow10(b)
  {
    if a > 0 {
      Pow10Add(a - 1, b);
    }
  }

  // ---------------------------------------------------------------------
  // Construction
  // ---------------------------------------------------------------------

  /** `new Decimal9(n)`: the whole number n. */
  function FromInt(n: int): Decimal9 { Decimal9(n * SCALE) }

  /** `new Decimal9(x, e)` for a Decimal9 x: x * 10^e, truncated toward zero
      when digits fall below 10^-9. */
  function Rescale(x: Decimal9, e: int): (r: Decimal9)
    ensures e >= 0 ==> r.scaled == x.scaled * Pow10(e)
    ensures e < 0 ==> RoundedBy(x.scaled, Pow10(-e), Truncate, r.scaled)
  {
    if e >= 0 then Decimal9(x.scaled * Pow10(e))
    else
      RoundDivMeets(x.scaled, Pow10(-e), Truncate);
      Decimal9(RoundDiv(x.scaled, Pow10(-e), Truncate))
  }

  /** `new Decimal9(m, e)` for an integer m: m * 10^e, exact down to 10^-9
      and truncated toward zero below. */
  function Make(m: int, e: int): (r: Decimal9)
    ensures e >= -9 ==> r.scaled == m * Pow10(e + 9)
    ensures e < -9 ==> RoundedBy(m, Pow10(-e - 9), Truncate, r.scaled)
  {
    var r := Rescale(FromInt(m), e);
    if e >= 0 then MakeWhole(m, e); r
    else if e >= -9 then MakeFraction(m, e); r
    else MakeTruncated(m, e); r
  }

  lemma MakeWhole(m: int, e: int)
    requires e >= 0
    ensures m * SCALE * Pow10(e) == m * Pow10(e + 9)
  {
    assert Pow10(9) == SCALE;
    Pow10Add(e, 9);
  }

  lemma MakeFraction(m: int, e: int)
    requires -9 <= e < 0
    ensures RoundDiv(m * SCALE, Pow10(-e), Truncate) == m * Pow10(e + 9)
  {
    assert Pow10(9) == SCALE;
    Pow10Add(-e, e + 9);
    assert m * SCALE == (m * Pow10(e + 9)) * Pow10(-e);
    RoundDivExact(m * Pow10(e + 9), Pow10(-e), Truncate);
  }

  lemma MakeTruncated(m: int, e: int)
    requires e < -9
    ensures RoundedBy(m, Pow10(-e - 9), Truncate, RoundDiv(m * SCALE, Pow10(-e), Truncate))
  {
    assert Pow10(9) == SCALE;
    Pow10Add(9, -e - 9);
    var q := RoundDiv(m * SCALE, Pow10(-e), Truncate);
    RoundDivMeets(m * SCALE, Pow10(-e), Truncate);
    assert m * SCALE == SCALE * m;
    RoundedByScaled(m, Pow10(-e - 9), SCALE, Truncate, q);
  }

  /** The value argument of the constructor: an integer Number, another
      Decimal9, or anything else (a string, an array, ...). */
  datatype ValueArg = IntValue(n: int) | Decimal9Value(d: Decimal9) | UnsupportedValue

  /** The exponent argument: absent (0), an integer, or anything else. */
  datatype ExponentArg = NoExponent | IntExponent(e: int) | UnsupportedExponent

  const ERR_UNSUPPORTED_TYPE: string := "Value is not a supported type"
  const ERR_UNSUPPORTED_EXPONENT: string := "exponentOf10 is not a supported value"
  const ERR_DIVIDE_BY_ZERO: string := "Divide by zero."
  const ERR_NOT_DECIMAL9: string := "Value is not an instance of the required type"

  /** The constructor over its raw arguments, with its two errors. */
  function Construct(value: ValueArg, exponent: ExponentArg): (r: Result<Decimal9>)
    ensures value.UnsupportedValue? ==> r == Err(Failure(Decimal9Error, ERR_UNSUPPORTED_TYPE))
    ensures !value.UnsupportedValue? && exponent.UnsupportedExponent? ==>
      r == Err(Failure(Decimal9Error, ERR_UNSUPPORTED_EXPONENT))
    ensures value.IntValue? && !exponent.UnsupportedExponent? ==>
      r == Ok(Make(value.n, if exponent.IntExponent? then exponent.e else 0))
    ensures value.Decimal9Value? && !exponent.UnsupportedExponent? ==>
      r == Ok(Rescale(value.d, if exponent.IntExponent? then exponent.e else 0))
  {
    var e := match exponent
      case NoExponent => Some(0)
      case IntExponent(e) => Some(e)
      case UnsupportedExponent => None;
    match value
    case UnsupportedValue => Err(Failure(Decimal9Error, ERR_UNSUPPORTED_TYPE))
    case IntValue(n) =>
      if e.None? then Err(Failure(Decimal9Error, ERR_UNSUPPORTED_EXPONENT)) else Ok(Make(n, e.value))
    case Decimal9Value(d) =>
      if e.None? then Err(Failure(Decimal9Error, ERR_UNSUPPORTED_EXPONENT)) else Ok(Rescale(d, e.value))
  }

  /** `isSafe()`: the value lies in the safe range [-9000100, 9000100]. */
  predicate IsSafe(x: Decimal9) {
    MIN_SAFE_VALUE * SCALE <= x.scaled <= MAX_SAFE_VALUE * SCALE
  }

  /** The safe range is symmetric: a value is safe exactly when its
      magnitude is at most 9000100, and then so is its negative. */
  lemma SafeIsMagnitude(x: Decimal9)
    ensures IsSafe(x) <==> Abs(x.scaled) <= MAX_SAFE_VALUE * SCALE
    ensures IsSafe(x) <==> IsSafe(Negative(x))
  {
  }

  // ---------------------------------------------------------------------
  // Arithmetic
  // ---------------------------------------------------------------------

  function Plus(x: Decimal9, y: Decimal9): Decimal9 { Decimal9(x.scaled + y.scaled) }

  function Minus(x: Decimal9, y: Decimal9): Decimal9 { Decimal9(x.scaled - y.scaled) }

  function Negative(x: Decimal9): Decimal9 { Decimal9(-x.scaled) }

  /** Addition, subtraction and negation are exact: they form a group on
      the scaled values. */
  lemma AdditiveInverses(x: Decimal9, y: Decimal9)
    ensures Minus(Plus(x, y), y) == x && Plus(Minus(x, y), y) == x
    ensures Minus(x, y) == Plus(x, Negative(y))
    ensures Plus(x, Negative(x)) == Decimal9(0)
    ensures Negative(Negative(x)) == x && Negative(Decimal9(0)) == Decimal9(0)
    ensures Plus(x, y) == Plus(y, x)
  {
    assert Minus(Plus(x, y), y).scaled == x.scaled;
    assert Plus(Minus(x, y), y).scaled == x.scaled;
    assert Negative(Negative(x)).scaled == x.scaled;
  }

  /** `x.times(y, mode)`: the exact product rounded to a unit. */
  function Times(x: Decimal9, y: Decimal9, mode: RoundMode): (r: Decimal9)
    ensures RoundedBy(x.scaled * y.scaled, SCALE, mode, r.scaled)
  {
    RoundDivMeets(x.scaled * y.scaled, SCALE, mode);
    Decimal9(RoundDiv(x.scaled * y.scaled, SCALE, mode))
  }

  /** `x.times(k)` for an integer k: exact, and the same as multiplying by
      the whole number k in any mode. */
  function TimesInt(x: Decimal9, k: int): (r: Decimal9)
    ensures forall mode: RoundMode :: r == Times(x, FromInt(k), mode)
  {
    forall mode: RoundMode ensures Decimal9(x.scaled * k) == Times(x, FromInt(k), mode) {
      assert x.scaled * (k * SCALE) == (x.scaled * k) * SCALE;
      RoundDivExact(x.scaled * k, SCALE, mode);
    }
    Decimal9(x.scaled * k)
  }

  /** `x.divideBy(y, mode)`: the exact quotient rounded to a unit; a zero
      divisor fails, whatever the dividend. */
  function DivideBy(x: Decimal9, y: Decimal9, mode: RoundMode): (r: Result<Decimal9>)
    ensures r.Err? <==> y.scaled == 0
    ensures r.Err? ==> r.error == Failure(Decimal9Error, ERR_DIVIDE_BY_ZERO)
    ensures r.Ok? ==> RoundedBy(x.scaled * SCALE, y.scaled, mode, r.value.scaled)
  {
    if y.scaled == 0 then Err(Failure(Decimal9Error, ERR_DIVIDE_BY_ZERO))
    else
      RoundDivMeets(x.scaled * SCALE, y.scaled, mode);
      Ok(Decimal9(RoundDiv(x.scaled * SCALE, y.scaled, mode)))
  }

  /** `x.divideBy(k, mode)` for an integer k: the same as dividing by the
      whole number k. */
  function DivideByInt(x: Decimal9, k: int, mode: RoundMode): (r: Result<Decimal9>)
    ensures r == DivideBy(x, FromInt(k), mode)
    ensures r.Ok? ==> RoundedBy(x.scaled, k, mode, r.value.scaled)
  {
    if k == 0 then Err(Failure(Decimal9Error, ERR_DIVIDE_BY_ZERO))
    else
      var q := RoundDiv(x.scaled, k, mode);
      RoundDivMeets(x.scaled, k, mode);
      assert x.scaled * SCALE == SCALE * x.scaled && k * SCALE == SCALE * k;
      RoundedByScaled(x.scaled, k, SCALE, mode, q);
      RoundDivSpec(x.scaled * SCALE, k * SCALE, mode, q);
      Ok(Decimal9(q))
  }

  // ---------------------------------------------------------------------
  // Comparisons
  // ---------------------------------------------------------------------

  /** The three-way order on values: -1, 0 or 1. */
  function Compare(x: Decimal9, y: Decimal9): (c: int)
    ensures c == -1 || c == 0 || c == 1
    ensures c < 0 <==> x.scaled < y.scaled
    ensures c == 0 <==> x == y
  {
    if x.scaled < y.scaled then -1 else if x.scaled == y.scaled then 0 else 1
  }

  lemma CompareIsTotalOrder(x: Decimal9, y: Decimal9, z: Decimal9)
    ensures Compare(x, y) == -Compare(y, x)
    ensures Compare(x, y) <= 0 && Compare(y, z) <= 0 ==> Compare(x, z) <= 0
  {
  }

  /** The other operand of a comparison: a Decimal9, null, or a value of
      some other type. */
  datatype Operand = Number(d: Decimal9) | Null | NotDecimal9

  function Order(x: Decimal9, other: Operand): Result<int> {
    if other.Number? then Ok(Compare(x, other.d))
    else Err(Failure(Decimal9Error, ERR_NOT_DECIMAL9))
  }

  function IsLess(x: Decimal9, other: Operand): Result<bool> {
    var c :- Order(x, other); Ok(c < 0)
  }

  function IsLessEqual(x: Decimal9, other: Operand): Result<bool> {
    var c :- Order(x, other); Ok(c <= 0)
  }

  /** Equality, where null is never equal instead of being an error. */
  function IsEqual(x: Decimal9, other: Operand): Result<bool> {
    if other.Null? then Ok(false) else var c :- Order(x, other); Ok(c == 0)
  }

  function IsNotEqual(x: Decimal9, other: Operand): Result<bool> {
    if other.Null? then Ok(true) else var c :- Order(x, other); Ok(c != 0)
  }

  function IsGreaterEqual(x: Decimal9, other: Operand): Result<bool> {
    var c :- Order(x, other); Ok(c >= 0)
  }

  function IsGreater(x: Decimal9, other: Operand): Result<bool> {
    var c :- Order(x, other); Ok(c > 0)
  }

  /** The six comparisons agree with the one three-way order; null is
      unequal to every value; any other operand type is an error. */
  lemma ComparisonsAgree(x: Decimal9, other: Operand)
    ensures other.Number? ==>
      var c := Compare(x, other.d);
      IsLess(x, other) == Ok(c < 0) && IsLessEqual(x, other) == Ok(c <= 0)
      && IsEqual(x, other) == Ok(c == 0) && IsNotEqual(x, other) == Ok(c != 0)
      && IsGreaterEqual(x, other) == Ok(c >= 0) && IsGreater(x, other) == Ok(c > 0)
    ensures other.Null? ==> IsEqual(x, other) == Ok(false) && IsNotEqual(x, other) == Ok(true)
    ensures other.NotDecimal9? ==>
      var e := Err(Failure(Decimal9Error, ERR_NOT_DECIMAL9));
      IsLess(x, other) == e && IsLessEqual(x, other) == e && IsEqual(x, other) == e
      && IsNotEqual(x, other) == e && IsGreaterEqual(x, other) == e && IsGreater(x, other) == e
  {
  }

  // ---------------------------------------------------------------------
  // Rendering
  // ---------------------------------------------------------------------

  /** The fractional digits of f units: nine digits without the trailing
      zeros, but at least one digit. */
  function FractionDigits(f: nat): (s: string)
    requires f < SCALE
    ensures 1 <= |s| <= 9
  {
    assert Pow10(9) == SCALE;
    StripTrailingZeros(Padded(f, 9))
  }

  /** `toString()`: an optional '-', the whole part, '.', and the
      fractional digits. */
  function ToString(x: Decimal9): string {
    (if x.scaled < 0 then "-" else "") + UnsignedText(Abs(x.scaled))
  }

  /** The rendering of a magnitude of a units: whole part, '.', fraction. */
  function UnsignedText(a: nat): (s: string)
    ensures |s| >= 3 && IsDigit(s[0])
  {
    NatToString(a / SCALE) + "." + FractionDigits(a % SCALE)
  }

  /** The position of the first '.', or |s| when there is none. */
  function FindDot(s: string): (i: nat)
    ensures i <= |s|
  {
    if s == [] || s[0] == '.' then 0 else 1 + FindDot(s[1..])
  }

  /** Reads digits, '.', and one to nine fractional digits. */
  function ParseUnsigned(s: string): Option<nat> {
    var i := FindDot(s);
    if i == 0 || i + 1 >= |s| then None else ParseParts(s[..i], s[i + 1..])
  }

  /** The units of a whole part and a fractional part of up to nine digits. */
  function ParseParts(whole: string, frac: string): Option<nat> {
    if !AllDigits(whole) || !AllDigits(frac) || |frac| > 9 then None
    else Some(Units(DigitsValue(whole), FractionValue(frac)))
  }

  /** The units of a whole part and a fraction in units. */
  function Units(whole: nat, fraction: nat): nat {
    whole * SCALE + fraction
  }

  function FractionValue(frac: string): nat
    requires AllDigits(frac) && |frac| <= 9
  {
    DigitsValue(frac) * Pow10(9 - |frac|)
  }

  /** Reads a decimal rendering back into a value. */
  function ParseDecimal(s: string): Option<Decimal9> {
    if |s| > 0 && s[0] == '-' then WithSign(true, ParseUnsigned(s[1..]))
    else WithSign(false, ParseUnsigned(s))
  }

  function WithSign(negative: bool, magnitude: Option<nat>): Option<Decimal9> {
    match magnitude
    case Some(v) => Some(Decimal9(if negative then -(v as int) else v))
    case None => None
  }

  lemma ParseRendered(a: nat)
    ensures ParseUnsigned(UnsignedText(a)) == Some(a)
  {
    var q, f := a / SCALE, a % SCALE;
    var w, fd := NatToString(q), FractionDigits(f);
    assert UnsignedText(a) == w + "." + fd;
    NatToStringValue(q);
    FractionDigitsValue(f);
    ParseFromParts(w, fd, q, f);
    WholeAndFraction(a, q, f);
  }

  lemma ParseFromParts(w: string, fd: string, q: nat, f: nat)
    requires |w| >= 1 && AllDigits(w) && DigitsValue(w) == q
    requires 1 <= |fd| <= 9 && AllDigits(fd) && FractionValue(fd) == f
    ensures ParseUnsigned(w + "." + fd) == Some(Units(q, f))
  {
    ParseUnsignedParts(w, fd);
  }

  lemma WholeAndFraction(a: nat, q: nat, f: nat)
    requires q == a / SCALE && f == a % SCALE
    ensures Units(q, f) == a
  {
  }

  /** The fractional digits read back as the fraction in units. */
  lemma FractionDigitsValue(f: nat)
    requires f < SCALE
    ensures AllDigits(FractionDigits(f)) && |FractionDigits(f)| <= 9
    ensures FractionValue(FractionDigits(f)) == f
  {
    assert Pow10(9) == SCALE;
    var p := Padded(f, 9);
    StripTrailingZerosValue(p);
    PaddedValue(f, 9);
  }

  lemma ParseUnsignedParts(w: string, fd: string)
    requires |w| >= 1 && |fd| >= 1 && AllDigits(w)
    ensures ParseUnsigned(w + "." + fd) == ParseParts(w, fd)
  {
    var s := w + "." + fd;
    FindDotAfterDigits(w, fd);
    assert s[..|w|] == w && s[|w| + 1..] == fd;
  }

  /** The first '.' after a run of digits is the one that ends the run. */
  lemma {:induction false} FindDotAfterDigits(w: string, rest: string)
    requires AllDigits(w)
    ensures FindDot(w + "." + rest) == |w|
  {
    if w != [] {
      assert (w + "." + rest)[1..] == w[1..] + "." + rest;
      assert IsDigit(w[0]);
      FindDotAfterDigits(w[1..], rest);
    }
  }

  /** Reading a rendering gives back the value it renders. */
  lemma ToStringRoundTrip(x: Decimal9)
    ensures ParseDecimal(ToString(x)) == Some(x)
  {
    var a := Abs(x.scaled);
    ParseRendered(a);
    var u := UnsignedText(a);
    if x.scaled < 0 {
      var s := "-" + u;
      assert ToString(x) == s;
      assert s[1..] == u;
    } else {
      assert ToString(x) == u;
    }
  }

  /** A rendering holds digits, '.' and a leading '-' only. */
  lemma ToStringHasNo(x: Decimal9, c: char)
    requires !IsDigit(c) && c != '.' && c != '-'
    ensures c !in ToString(x)
  {
    var a := Abs(x.scaled);
    FractionDigitsValue(a % SCALE);
    var w, f := NatToString(a / SCALE), FractionDigits(a % SCALE);
    AllDigitsHasNo(w, c);
    AllDigitsHasNo(f, c);
    assert UnsignedText(a) == w + "." + f;
  }

  /** The rendering is canonical: one '.', at least one fractional digit,
      and no trailing '0' unless the fraction is exactly "0". */
  lemma ToStringCanonical(x: Decimal9)
    ensures var s := ToString(x);
      var i := FindDot(s);
      i < |s| - 1 && |s| - 1 - i <= 9
      && (s[|s| - 1] == '0' ==> i == |s| - 2)
      && (s[0] == '-' <==> x.scaled < 0)
  {
    var a := Abs(x.scaled);
    var w, fd := NatToString(a / SCALE), FractionDigits(a % SCALE);
    var u := UnsignedText(a);
    assert u == w + "." + fd;
    FindDotAfterDigits(w, fd);
    assert u[|u| - 1] == fd[|fd| - 1];
    if x.scaled < 0 {
      var s := "-" + u;
      assert ToString(x) == s;
      assert s[1..] == u;
      assert FindDot(s) == |w| + 1;
    } else {
      assert ToString(x) == u;
      assert IsDigit(u[0]);
    }
  }

  // ---------------------------------------------------------------------
  // Decimal9Total
  // ---------------------------------------------------------------------

  /** The mutable accumulator: starts at zero; `plus` and `minus` change it
      in place and return the same object. */
  class Decimal9Total {
    var scaled: int

    function Value(): Decimal9
      reads this
    {
      Decimal9(scaled)
    }

    constructor ()
      ensures Value() == Decimal9(0)
    {
      scaled := 0;
    }

    method Plus(x: Decimal9) returns (self: Decimal9Total)
      modifies this
      ensures self == this
      ensures Value().scaled == old(Value()).scaled + x.scaled
    {
      scaled := scaled + x.scaled;
      self := this;
    }

    method Minus(x: Decimal9) returns (self: Decimal9Total)
      modifies this
      ensures self == this
      ensures Value().scaled == old(Value()).scaled - x.scaled
    {
      scaled := scaled - x.scaled;
      self := this;
    }
  }
}
