/** The JavaScript number operations the controls rely on, stated on exact reals
    and unbounded integers: `Math.floor`, `Math.round`, the `x|0` conversion,
    `Math.min`/`Math.max` clamping and the truncating `%` and `/` on integers. */
module JsNumber {

  const TwoTo31: int := 0x8000_0000
  const TwoTo32: int := 0x1_0000_0000

  function Abs(x: real): real {
    if x < 0.0 then -x else x
  }

  function Min(a: real, b: real): real {
    if a <= b then a else b
  }

  function Max(a: real, b: real): real {
    if a >= b then a else b
  }

  /** `Math.floor(x)`. */
  function Floor(x: real): (n: int)
    ensures n as real <= x < n as real + 1.0
  {
    x.Floor
  }

  /** `Math.round(x)`: the nearest integer, a half rounded towards +infinity. */
  function Round(x: real): (n: int)
    ensures x - 0.5 < n as real <= x + 0.5
  {
    Floor(x + 0.5)
  }

  /** Rounding an integer leaves it alone. */
  lemma RoundOfInteger(n: int)
    ensures Round(n as real) == n
  {
  }

  /** Truncation towards zero, the integer part of `x`. */
  function Trunc(x: real): (n: int)
    ensures 0.0 <= x ==> 0 <= n && n as real <= x < n as real + 1.0
    ensures x < 0.0 ==> n <= 0 && n as real - 1.0 < x <= n as real
  {
    if x >= 0.0 then Floor(x) else -Floor(-x)
  }

  /** `x | 0`: ECMAScript ToInt32, truncation towards zero followed by
      wrap-around into the signed 32-bit range. */
  function ToInt32(x: real): (n: int)
    ensures -TwoTo31 <= n < TwoTo31
    ensures (n - Trunc(x)) % TwoTo32 == 0
  {
    var m := Trunc(x) % TwoTo32;
    if m >= TwoTo31 then m - TwoTo32 else m
  }

  /** Inside the signed 32-bit range, `x | 0` is plain truncation. */
  lemma ToInt32Small(x: real)
    requires -TwoTo31 as real < x < TwoTo31 as real
    ensures ToInt32(x) == Trunc(x)
  {
    var t := Trunc(x);
    assert -TwoTo31 <= t < TwoTo31;
    if t >= 0 {
      assert t % TwoTo32 == t;
    } else {
      assert t % TwoTo32 == t + TwoTo32;
    }
  }

  /** Truncating an integer leaves it alone. */
  lemma TruncOfInteger(k: int)
    ensures Trunc(k as real) == k
  {
    if k >= 0 {
      assert Floor(k as real) == k;
    } else {
      assert Floor(-(k as real)) == -k;
    }
  }

  /** An integer in the signed 32-bit range passes through `| 0` unchanged. */
  lemma ToInt32OfInteger(k: int)
    requires -TwoTo31 < k < TwoTo31
    ensures ToInt32(k as real) == k
  {
    TruncOfInteger(k);
    ToInt32Small(k as real);
  }

  /** `Math.min(hi, Math.max(lo, v))`, the clamp every control applies. */
  function Clamp(v: real, lo: real, hi: real): (r: real)
    ensures lo <= hi ==> lo <= r <= hi
    ensures lo <= v <= hi ==> r == v
    ensures v < lo ==> r == Min(hi, lo)
    ensures hi < v ==> r == hi
  {
    Min(hi, Max(lo, v))
  }

  /** JavaScript `a % b` on integers: the remainder takes the sign of `a`. */
  function JsRem(a: int, b: int): (r: int)
    requires b > 0
    ensures a >= 0 ==> 0 <= r < b
    ensures a < 0 ==> -b < r <= 0
  {
    if a >= 0 then a % b else -((-a) % b)
  }

  /** `(a / b) | 0` on integers: the quotient truncated towards zero. */
  function JsQuot(a: int, b: int): (q: int)
    requires b > 0
    ensures q * b + JsRem(a, b) == a
  {
    if a >= 0 then a / b else
      var p := (-a) / b;
      assert -a == p * b + (-a) % b;
      assert -(p * b) == (-p) * b;
      -p
  }

  /** On a non-negative dividend the JavaScript operators agree with Dafny's. */
  lemma JsOpsOfNonnegative(a: int, b: int)
    requires a >= 0 && b > 0
    ensures JsRem(a, b) == a % b && JsQuot(a, b) == a / b
  {
  }
}
