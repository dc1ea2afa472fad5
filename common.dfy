/** Shared plumbing of the backend services: optional values, the errors a
    request handler raises, and Python's `==` across value kinds. */
module Common {

  datatype Option<+T> = None | Some(value: T)

  /** An exception that leaves a service function: FastAPI's `HTTPException`
      with its status code and detail text, or the `ValueError` that
      `datetime.strptime` raises on a string that does not match its format
      (which also stands for the error `datetime.fromtimestamp` raises on an
      epoch outside the platform's range), or the `OverflowError` that
      `datetime` arithmetic raises on a result past `datetime.max`. */
  datatype Error = HttpError(status: int, detail: string) | ValueError | OverflowError

  /** What a service function does: returns a value, or raises. */
  datatype Outcome<+T> = Returned(value: T) | Raised(error: Error)

  const HTTP_200_OK := 200
  const HTTP_404_NOT_FOUND := 404

  /** A naive `datetime`, as a count of microseconds (its resolution)
      since `datetime.min`, 0001-01-01 00:00:00. */
  type Timestamp = int

  const MicrosPerHour: int := 3_600_000_000

  /** `datetime.max`, 9999-12-31 23:59:59.999999: 3652058 days and one
      microsecond short of a day after `datetime.min`. */
  const MaxDatetime: Timestamp := 3652058 * 86_400_000_000 + 86_399_999_999

  /** The kinds of Python value that the services compare with `==`. */
  datatype PyValue = PyDateTime(t: Timestamp) | PyInt(i: int) | PyStr(s: string)

  /** Python's `==`: a `datetime` equals only an equal `datetime`; compared
      with an `int` or a `str` both sides return `NotImplemented` and the
      comparison falls back to identity, which is false. */
  predicate PyEquals(a: PyValue, b: PyValue)
    ensures PyEquals(a, b) ==> a == b
    ensures a.PyDateTime? != b.PyDateTime? ==> !PyEquals(a, b)
  {
    match (a, b)
    case (PyDateTime(x), PyDateTime(y)) => x == y
    case (PyInt(x), PyInt(y)) => x == y
    case (PyStr(x), PyStr(y)) => x == y
    case _ => false
  }
}
