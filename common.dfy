/** Shared value types: optional values, results carrying the exceptions the
    Python code raises, raw bytes, and Python's `str.join`. */
module Common {

  datatype Option<T> = None | Some(value: T)

  /** The exception classes the modelled code raises or lets through. */
  datatype Error =
    | ValueError(message: string)       // raised explicitly by the stores
    | TypeError(message: string)        // `bytes(None)` when a row has no stored bytes
    | OperationalError(message: string) // SQL that SQLite refuses to run

  /** A call that either returns a value or raises. */
  datatype Result<T> = Success(value: T) | Failure(error: Error)

  newtype byte = x: int | 0 <= x < 256

  /** Total length of the parts. */
  function TotalLength(parts: seq<string>): nat
  {
    if parts == [] then 0 else |parts[0]| + TotalLength(parts[1..])
  }

  /** `sep.join(parts)`: the parts in order with one separator between
      neighbours, so it starts with the first part. */
  function Join(sep: string, parts: seq<string>): (r: string)
    ensures |parts| == 0 ==> r == ""
    ensures |parts| > 0 ==> parts[0] <= r
    ensures |parts| > 0 ==> |r| == TotalLength(parts) + |sep| * (|parts| - 1)
    decreases |parts|
  {
    if |parts| == 0 then ""
    else if |parts| == 1 then parts[0]
    else parts[0] + sep + Join(sep, parts[1..])
  }
}
