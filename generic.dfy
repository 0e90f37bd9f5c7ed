/** The numeric helpers of internal/generic.go, and Go's 64-bit integers. Decimals are
    reals. */
module Generic {

  const TwoTo63: int := 0x8000_0000_0000_0000
  const TwoTo64: int := 0x1_0000_0000_0000_0000
  const TwoTo31: int := 0x8000_0000
  const TwoTo32: int := 0x1_0000_0000

  /** Go's int64. */
  newtype int64 = x: int | -0x8000_0000_0000_0000 <= x < 0x8000_0000_0000_0000

  /** Go's int32. */
  newtype int32 = x: int | -0x8000_0000 <= x < 0x8000_0000

  /** Go's uint. */
  newtype uint64 = x: int | 0 <= x < 0x1_0000_0000_0000_0000

  /** The int64 an exact integer result wraps around to in two's complement. */
  function Wrap64(x: int): int64
  {
    ((x + TwoTo63) % TwoTo64 - TwoTo63) as int64
  }

  /** Wrapping keeps the value modulo 2^64, and changes nothing within the int64 range. */
  lemma Wrap64Spec(x: int)
    ensures (Wrap64(x) as int - x) % TwoTo64 == 0
    ensures -TwoTo63 <= x < TwoTo63 ==> Wrap64(x) as int == x
  {
  }

  /** The int32 a conversion from a wider integer truncates to, in two's complement. */
  function Wrap32(x: int): int32
  {
    ((x + TwoTo31) % TwoTo32 - TwoTo31) as int32
  }

  /** Truncation keeps the value modulo 2^32, and changes nothing within the int32 range. */
  lemma Wrap32Spec(x: int)
    ensures (Wrap32(x) as int - x) % TwoTo32 == 0
    ensures -TwoTo31 <= x < TwoTo31 ==> Wrap32(x) as int == x
  {
  }

  /** The uint an exact integer result, or a conversion from a signed integer, wraps to. */
  function WrapU64(x: int): uint64
  {
    (x % TwoTo64) as uint64
  }

  /** Wrapping keeps the value modulo 2^64, and changes nothing within the uint range. */
  lemma WrapU64Spec(x: int)
    ensures (WrapU64(x) as int - x) % TwoTo64 == 0
    ensures 0 <= x < TwoTo64 ==> WrapU64(x) as int == x
  {
  }

  /** `def` stands in for an unset (zero) value; any other value is kept. */
  function DefaultInt64(value: int64, def: int64): (r: int64)
    ensures r == value || r == def
    ensures r == 0 <==> value == 0 && def == 0
  {
    if value == 0 then def else value
  }

  /** Applying the default twice is applying it once. */
  lemma DefaultInt64Idempotent(value: int64, def: int64)
    ensures DefaultInt64(DefaultInt64(value, def), def) == DefaultInt64(value, def)
  {
  }

  /** Rounding to two decimal places, halves away from zero (shopspring's Round(2)). */
  function Round2(x: real): real
  {
    if x >= 0.0 then (x * 100.0 + 0.5).Floor as real / 100.0
    else -((-x * 100.0 + 0.5).Floor as real / 100.0)
  }

  lemma FloorBounds(y: real)
    ensures y.Floor as real <= y < y.Floor as real + 1.0
  {
  }

  /** The rounded value is a whole number of hundredths, within half a hundredth of the
      exact one, and keeps the sign. */
  lemma Round2Bounds(x: real)
    ensures -0.005 <= Round2(x) - x <= 0.005
    ensures (Round2(x) * 100.0).Floor as real == Round2(x) * 100.0
    ensures 0.0 <= x ==> 0.0 <= Round2(x)
    ensures x <= 0.0 ==> Round2(x) <= 0.0
  {
    var y := if x >= 0.0 then x * 100.0 + 0.5 else -x * 100.0 + 0.5;
    FloorBounds(y);
    var n := y.Floor;
    if x >= 0.0 {
      assert Round2(x) == n as real / 100.0;
      assert Round2(x) * 100.0 == n as real;
    } else {
      assert Round2(x) == -(n as real / 100.0);
      assert Round2(x) * 100.0 == (-n) as real;
    }
  }

  /** Rounding is symmetric about zero. */
  lemma Round2Negate(x: real)
    ensures Round2(-x) == -Round2(x)
  {
  }

  /** Rounding never reverses an order. */
  lemma Round2Monotonic(x: real, y: real)
    requires x <= y
    ensures Round2(x) <= Round2(y)
  {
    if 0.0 <= x {
      FloorMonotonic(x * 100.0 + 0.5, y * 100.0 + 0.5);
    } else if y < 0.0 {
      FloorMonotonic(-y * 100.0 + 0.5, -x * 100.0 + 0.5);
    } else {
      Round2Bounds(x);
      Round2Bounds(y);
    }
  }

  lemma FloorMonotonic(a: real, b: real)
    requires a <= b
    ensures a.Floor <= b.Floor
  {
    FloorBounds(a);
    FloorBounds(b);
  }

  /** A whole number of hundredths is its own rounding. */
  lemma Round2Exact(k: int)
    ensures Round2(k as real / 100.0) == k as real / 100.0
  {
    var x := k as real / 100.0;
    if k >= 0 {
      assert x * 100.0 + 0.5 == k as real + 0.5;
      FloorOf(k, 0.5);
    } else {
      assert -x * 100.0 + 0.5 == (-k) as real + 0.5;
      FloorOf(-k, 0.5);
    }
  }

  lemma FloorOf(k: int, f: real)
    requires 0.0 <= f < 1.0
    ensures (k as real + f).Floor == k
  {
    FloorBounds(k as real + f);
  }

  function Pow10(n: nat): (p: nat)
    ensures p >= 1
  {
    if n == 0 then 1 else 10 * Pow10(n - 1)
  }

  /** How many units of the last kept place make one: 10^places, for any whole `places`. */
  function Scale(places: int): (s: real)
    ensures s > 0.0
  {
    if places >= 0 then Pow10(places) as real else 1.0 / Pow10(-places) as real
  }

  /** The whole number nearest to `y`, halves away from zero. */
  function NearestWhole(y: real): int
  {
    if y >= 0.0 then (y + 0.5).Floor else -((-y) + 0.5).Floor
  }

  /** It is within a half of `y` and has its sign. */
  lemma NearestWholeBounds(y: real)
    ensures -0.5 <= NearestWhole(y) as real - y <= 0.5
    ensures 0.0 <= y ==> 0 <= NearestWhole(y)
    ensures y <= 0.0 ==> NearestWhole(y) <= 0
  {
    FloorBounds(y + 0.5);
    FloorBounds((-y) + 0.5);
  }

  /** Rounding to `places` decimal places, halves away from zero (shopspring's Round);
      a negative `places` rounds to tens, hundreds and so on. */
  function RoundTo(x: real, places: int): real
  {
    NearestWhole(x * Scale(places)) as real / Scale(places)
  }

  /** Rounding at a positive scale `s`: the whole number of units of size 1/s nearest to
      `x`, so within half a unit of it, with the sign of `x`. */
  lemma ScaledRounding(x: real, s: real)
    requires s > 0.0
    ensures (NearestWhole(x * s) as real / s) * s == NearestWhole(x * s) as real
    ensures -0.5 <= (NearestWhole(x * s) as real / s - x) * s <= 0.5
    ensures 0.0 <= x ==> 0.0 <= NearestWhole(x * s) as real / s
    ensures x <= 0.0 ==> NearestWhole(x * s) as real / s <= 0.0
  {
    var n := NearestWhole(x * s);
    var r := n as real / s;
    NearestWholeBounds(x * s);
    DivMul(n as real, s);
    SubMul(r, x, s);
    if 0.0 <= x {
      assert 0.0 <= x * s;
    } else {
      assert x * s <= 0.0;
    }
  }

  /** The rounded value is the whole number of units of the last place nearest to the
      exact one, so within half a unit of it, and keeps the sign. */
  lemma RoundToBounds(x: real, places: int)
    ensures RoundTo(x, places) * Scale(places) == NearestWhole(x * Scale(places)) as real
    ensures -0.5 <= (RoundTo(x, places) - x) * Scale(places) <= 0.5
    ensures 0.0 <= x ==> 0.0 <= RoundTo(x, places)
    ensures x <= 0.0 ==> RoundTo(x, places) <= 0.0
  {
    var n := NearestWhole(x * Scale(places));
    assert RoundTo(x, places) == n as real / Scale(places);
    ScaledRounding(x, Scale(places));
    DivMul(n as real, Scale(places));
  }

  lemma SubMul(a: real, b: real, s: real)
    ensures (a - b) * s == a * s - b * s
  {
  }

  lemma DivMul(a: real, s: real)
    requires s > 0.0
    ensures (a / s) * s == a
  {
  }

  /** To two places, RoundTo is Round2. */
  lemma RoundToTwo(x: real)
    ensures RoundTo(x, 2) == Round2(x)
  {
    assert Pow10(2) == 100;
  }

  /** Rounding to fewer places than a value has can take it below itself: 0.123 to two
      places is 0.12. */
  lemma RoundToDownExample()
    ensures RoundTo(0.123, 2) == 0.12 < 0.123
  {
    assert Pow10(2) == 100;
    assert 0.123 * 100.0 + 0.5 == 12.0 + 0.8;
    FloorOf(12, 0.8);
  }

  /** By how many percent `scale` lies below `amount`, rounded to two decimals.
      A zero amount makes the decimal division panic. */
  function DecimalPercent(amount: real, scale: real): real
    requires amount != 0.0
  {
    Round2(100.0 * ((amount - scale) / amount))
  }

  /** The percentage is within half a hundredth of the exact one; an unchanged amount
      is 0 percent, and a scale not above a positive amount gives no negative percentage. */
  lemma DecimalPercentBounds(amount: real, scale: real)
    requires amount != 0.0
    ensures -0.005 <= DecimalPercent(amount, scale) - 100.0 * ((amount - scale) / amount) <= 0.005
    ensures scale == amount ==> DecimalPercent(amount, scale) == 0.0
    ensures 0.0 < amount && scale <= amount ==> 0.0 <= DecimalPercent(amount, scale)
  {
    Round2Bounds(100.0 * ((amount - scale) / amount));
    if scale == amount {
      Round2Exact(0);
    }
    if 0.0 < amount && scale <= amount {
      assert 0.0 <= (amount - scale) / amount;
    }
  }

  /** Of a positive amount, a non-negative scale is at most the whole of it. */
  lemma DecimalPercentAtMost100(amount: real, scale: real)
    requires 0.0 < amount && 0.0 <= scale
    ensures DecimalPercent(amount, scale) <= 100.0
  {
    assert 100.0 * ((amount - scale) / amount) <= 100.0;
    Round2Monotonic(100.0 * ((amount - scale) / amount), 100.0);
    Round2Exact(10000);
  }
}
