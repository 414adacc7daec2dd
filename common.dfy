/** cryptex/common.py: decimal quantization to 8 fractional digits under the
    process-wide decimal context (28 significant digits, rounding ROUND_DOWN,
    InvalidOperation trapped). The context is not ambient state here: the
    rounding mode is the explicit truncation toward zero below. */
module Common {
  import opened Wrappers

  datatype DecimalError = InvalidOperation

  /** 10^8: one unit of DECIMAL_PRECISION is 1 / Scale. */
  const Scale: real := 100000000.0

  /** DECIMAL_PRECISION = 10^-8 */
  const DecimalPrecision: real := 0.00000001

  /** A quantized coefficient must fit the context's 28 significant digits. */
  const MaxCoefficient: int := 10000000000000000000000000000

  /** The smallest magnitude whose quantization no longer fits: 10^20. */
  const Overflow: real := 100000000000000000000.0

  /** ROUND_DOWN: drop the fraction, toward zero. */
  function TruncateTowardZero(y: real): (n: int)
    ensures 0.0 <= y ==> 0 <= n && n as real <= y < n as real + 1.0
    ensures y <= 0.0 ==> n <= 0 && n as real - 1.0 < y <= n as real
  {
    if y >= 0.0 then y.Floor else -((-y).Floor)
  }

  /** `v` has at most 8 fractional digits. */
  predicate IsQuantized(v: real)
  {
    (v * Scale).Floor as real == v * Scale
  }

  function Abs(x: real): real { if x < 0.0 then -x else x }

  /** `quantize(x)`: x truncated toward zero to a multiple of 10^-8; the
      InvalidOperation trap fires when the result needs more than 28 digits. */
  function Quantize(x: real): (r: Result<real, DecimalError>)
    ensures r.Err? <==> Abs(x) >= Overflow
    ensures r.Ok? ==> IsQuantized(r.value)
    ensures r.Ok? ==> Abs(r.value) <= Abs(x)
    ensures r.Ok? ==> (0.0 <= x ==> 0.0 <= r.value) && (x <= 0.0 ==> r.value <= 0.0)
    ensures r.Ok? ==> Abs(x - r.value) < DecimalPrecision
  {
    var n := TruncateTowardZero(x * Scale);
    if n >= MaxCoefficient || n <= -MaxCoefficient then Err(InvalidOperation)
    else
      var v := n as real / Scale;
      assert v * Scale == n as real;
      Ok(v)
  }

  /** A value that already has at most 8 fractional digits is returned unchanged. */
  lemma QuantizeKeepsQuantized(x: real)
    requires IsQuantized(x) && Abs(x) < Overflow
    ensures Quantize(x) == Ok(x)
  {
    var y := x * Scale;
    var f := y.Floor;
    assert f as real == y;
    if y < 0.0 {
      assert (-y).Floor == -f;
    }
    assert TruncateTowardZero(y) == f;
    assert -Overflow < x < Overflow;
    assert -MaxCoefficient < f < MaxCoefficient;
    assert f as real / Scale == x;
  }

  lemma QuantizeIdempotent(x: real)
    requires Quantize(x).Ok?
    ensures Quantize(Quantize(x).value) == Quantize(x)
  {
    QuantizeKeepsQuantized(Quantize(x).value);
  }

  lemma TruncateMonotone(y: real, z: real)
    requires y <= z
    ensures TruncateTowardZero(y) <= TruncateTowardZero(z)
  {
  }

  lemma QuantizeMonotone(x: real, y: real)
    requires x <= y && Quantize(x).Ok? && Quantize(y).Ok?
    ensures Quantize(x).value <= Quantize(y).value
  {
    TruncateMonotone(x * Scale, y * Scale);
  }
}
