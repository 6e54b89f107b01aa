/** Shared vocabulary of the model: bytes, optional values and results. */
module Base {

  /** One octet, as Go's `byte`. */
  type byte = x: int | 0 <= x < 256

  datatype Option<+T> = None | Some(value: T)

  datatype Result<+T, +E> = Ok(value: T) | Err(error: E)

  /** The HTTP status line the client compares every response against. */
  const StatusOK: string := "200 OK"

  /** Go's integer division `a / b` for a positive divisor: it truncates toward zero,
      whereas Dafny's `/` is Euclidean (rounds toward negative infinity for a < 0). */
  function GoDiv(a: int, b: int): (q: int)
    requires b > 0
    ensures a >= 0 ==> q * b <= a < q * b + b
    ensures a < 0 ==> q * b - b < a <= q * b
  {
    if a >= 0 then a / b else -((-a) / b)
  }

  function Min(a: int, b: int): (m: int)
    ensures m <= a && m <= b && (m == a || m == b)
  {
    if a < b then a else b
  }
}
