/** Small shared vocabulary: optional values, results, and the integer
    conversions the Rust sources rely on (truncating division, truncating
    float-to-int casts, signum) together with decimal formatting. */
module Base {

  datatype Option<T> = None | Some(value: T)

  datatype Result<T, E> = Ok(value: T) | Err(error: E)

  function Abs(x: int): (r: nat)
    ensures r == x || r == -x
  {
    if x < 0 then -x else x
  }

  /** `i32::signum`. */
  function Signum(x: int): (r: int)
    ensures -1 <= r <= 1
    ensures (r == 0) == (x == 0) && (r > 0) == (x > 0)
  {
    if x > 0 then 1 else if x < 0 then -1 else 0
  }

  function Max(a: int, b: int): (r: int)
    ensures r >= a && r >= b && (r == a || r == b)
  {
    if a >= b then a else b
  }

  function Min(a: int, b: int): (r: int)
    ensures r <= a && r <= b && (r == a || r == b)
  {
    if a <= b then a else b
  }

  /** `f32::max`, which the cooldown, frame-time and mitigation code uses;
      Dafny's `int` and `real` are distinct types, so `Max` cannot serve. */
  function MaxReal(a: real, b: real): (r: real)
    ensures r >= a && r >= b && (r == a || r == b)
  {
    if a >= b then a else b
  }

  function ClampReal(x: real, lo: real, hi: real): (r: real)
    requires lo <= hi
    ensures lo <= r <= hi
    ensures lo <= x <= hi ==> r == x
  {
    if x < lo then lo else if x > hi then hi else x
  }

  /** Rust's `a / 2` on `i32`: division truncating toward zero (Dafny's `/`
      is Euclidean, which differs for negative odd numbers). */
  function Half(a: int): (r: int)
    ensures a >= 0 ==> a == 2 * r || a == 2 * r + 1
    ensures a < 0 ==> a == 2 * r || a == 2 * r - 1
  {
    if a >= 0 then a / 2 else -((-a) / 2)
  }

  /** Rust's `x as i32` for a float: truncation toward zero (saturation at
      the `i32` bounds is not modelled). */
  function Trunc(x: real): (r: int)
    ensures x >= 0.0 ==> r as real <= x < r as real + 1.0
    ensures x < 0.0 ==> r as real - 1.0 < x <= r as real
  {
    if x >= 0.0 then x.Floor else -((-x).Floor)
  }

  function DigitChar(d: nat): (c: char)
    requires d < 10
    ensures '0' <= c <= '9'
  {
    ['0', '1', '2', '3', '4', '5', '6', '7', '8', '9'][d]
  }

  /** `format!("{}", n)` for a non-negative integer. */
  function NatToString(n: nat): (s: string)
    ensures |s| >= 1
    ensures forall i :: 0 <= i < |s| ==> '0' <= s[i] <= '9'
  {
    if n < 10 then [DigitChar(n)] else NatToString(n / 10) + [DigitChar(n % 10)]
  }

  /** `format!("{}", i)` for a signed integer. */
  function IntToString(i: int): (s: string)
    ensures |s| >= 1
    ensures (s[0] == '-') == (i < 0)
  {
    if i < 0 then "-" + NatToString(-i) else NatToString(i)
  }

  /** The two-digit format of `format!`: at least two digits, zero padded. */
  function NatToString2(n: nat): (s: string)
    ensures |s| >= 2
    ensures forall i :: 0 <= i < |s| ==> '0' <= s[i] <= '9'
  {
    if n < 10 then ['0', DigitChar(n)] else NatToString(n)
  }
}
