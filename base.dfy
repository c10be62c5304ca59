/**
 * Small shared vocabulary: optional values, the outcome of a call that talks
 * to the database, and Java's truncating integer division.
 */
module Base {

  /** java.util.Optional, and a nullable reference. */
  datatype Option<+T> = None | Some(value: T)

  /**
   * The outcome of an operation that may throw java.sql.SQLException.
   * The exception carries nothing the callers use, so the failure case is bare.
   */
  datatype Result<+T> = Success(value: T) | SqlFailure

  /**
   * Where a database round trip fails, if it does. Operations that purge
   * first use one connection for the purge and another for their own
   * statement, so a failure can hit either step.
   */
  datatype StorageFault = Healthy | FailsAtPurge | FailsAtStatement

  /** Java's `a / b` on long values (rounds toward zero), for b > 0. */
  function JavaDiv(a: int, b: int): (q: int)
    requires b > 0
    ensures a >= 0 ==> 0 <= q && q * b <= a < q * b + b
    ensures a < 0 ==> q <= 0 && q * b - b < a <= q * b
  {
    if a >= 0 then a / b else -((-a) / b)
  }

  /** Java's `a % b` on long values (the sign follows a), for b > 0. */
  function JavaRem(a: int, b: int): (r: int)
    requires b > 0
    ensures a == JavaDiv(a, b) * b + r
    ensures -b < r < b
    ensures a >= 0 ==> r >= 0
    ensures a < 0 ==> r <= 0
  {
    a - JavaDiv(a, b) * b
  }
}
