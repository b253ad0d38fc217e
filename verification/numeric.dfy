/** Numeric helpers standing in for PHP's `ceil`, `round(x, 2)` and
    `PHP_FLOAT_MAX`, computed on exact reals. */
module Numeric {

  /** The largest finite double, used by the nearest-point scan as its initial minimum. */
  const FloatMax: real := 179769313486231570814527423731704356798070567525844996598917476803157260780028538760589558632766878171540458953514382464234321326889464182768467546703537516986049910576551282076245490090389328944075868508455133942304583236903222948165808559332123348274797826204144723168738177180919299881250404026184124858368.0

  /** PHP `(int) ceil(x)`: the least integer not below `x`. */
  function Ceil(x: real): (r: int)
    ensures r as real >= x
    ensures (r - 1) as real < x
  {
    -((-x).Floor)
  }

  /** PHP's `(int)` cast of a float: the integer part, truncated toward zero. */
  function TruncInt(x: real): (r: int)
    ensures 0.0 <= x ==> r as real <= x < (r + 1) as real
    ensures x < 0.0 ==> (r - 1) as real < x <= r as real
  {
    if x >= 0.0 then x.Floor else -((-x).Floor)
  }

  /** PHP `round(x, 2)`: nearest multiple of 0.01, halves rounded away from zero. */
  function Round2(x: real): real {
    if x >= 0.0 then ((x * 100.0 + 0.5).Floor as real) / 100.0
    else -((((-x) * 100.0 + 0.5).Floor as real) / 100.0)
  }

  /** Rounding never moves a value by more than half a cent. */
  lemma Round2Close(x: real)
    ensures x - 0.005 <= Round2(x) <= x + 0.005
  {
    if x >= 0.0 {
      var k := (x * 100.0 + 0.5).Floor;
      assert k as real <= x * 100.0 + 0.5 < k as real + 1.0;
    } else {
      var k := ((-x) * 100.0 + 0.5).Floor;
      assert k as real <= (-x) * 100.0 + 0.5 < k as real + 1.0;
    }
  }

  /** A multiple of 0.01 is left as it is. */
  lemma Round2OfCents(k: int)
    ensures Round2((k as real) / 100.0) == (k as real) / 100.0
  {
    var x := (k as real) / 100.0;
    if k >= 0 {
      assert x * 100.0 + 0.5 == k as real + 0.5;
      assert (x * 100.0 + 0.5).Floor == k;
    } else {
      assert (-x) * 100.0 + 0.5 == (-k) as real + 0.5;
      assert ((-x) * 100.0 + 0.5).Floor == -k;
    }
  }

  /** Rounding twice is rounding once, so re-rounding an already rounded
      distance does not change it. */
  lemma Round2Idempotent(x: real)
    ensures Round2(Round2(x)) == Round2(x)
  {
    if x >= 0.0 {
      var k := (x * 100.0 + 0.5).Floor;
      Round2OfCents(k);
    } else {
      var k := ((-x) * 100.0 + 0.5).Floor;
      assert Round2(x) == ((-k) as real) / 100.0;
      Round2OfCents(-k);
    }
  }

  /** Whole numbers are left as they are. */
  lemma Round2OfInt(n: int)
    ensures Round2(n as real) == n as real
  {
    assert (n as real) == ((n * 100) as real) / 100.0;
    Round2OfCents(n * 100);
  }

  lemma FloorMonotone(a: real, b: real)
    requires a <= b
    ensures a.Floor <= b.Floor
  {
    assert a.Floor as real <= a <= b < b.Floor as real + 1.0;
  }

  /** Rounding preserves order. */
  lemma Round2Monotone(x: real, y: real)
    requires x <= y
    ensures Round2(x) <= Round2(y)
  {
    if 0.0 <= x {
      FloorMonotone(x * 100.0 + 0.5, y * 100.0 + 0.5);
    } else if y < 0.0 {
      FloorMonotone((-y) * 100.0 + 0.5, (-x) * 100.0 + 0.5);
    } else {
      assert ((-x) * 100.0 + 0.5).Floor >= 0;
      assert (y * 100.0 + 0.5).Floor >= 0;
    }
  }
}
