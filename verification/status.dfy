/** Status codes returned by every entry point of the library, and the
    failure-carrying result type the model's operations return. */
module StatusCodes {

  /** The nine outcomes an entry point can report. */
  datatype Status =
    | Success
    | Error
    | DeviceNotPresent
    | DeviceError
    | MemOpFailed
    | InvalidArgument
    | InvalidState
    | BackendError
    | NotImplemented

  /** An optional value: a nullable handle is `None` when null, and the
      library's backend is `None` until initialize succeeds. */
  datatype Option<+T> = None | Some(value: T)

  /** Either a computed value or the status code of the failure.  By
      convention every operation of the model fails with a status other than
      `Success`; the type itself does not enforce this. */
  datatype Result<+T> = Ok(value: T) | Err(status: Status)

  /** The numeric value of a status code, as fixed by the public header. */
  function Code(s: Status): (c: nat)
    ensures c <= 8
    ensures c == 0 <==> s == Success
  {
    match s
    case Success => 0
    case Error => 1
    case DeviceNotPresent => 2
    case DeviceError => 3
    case MemOpFailed => 4
    case InvalidArgument => 5
    case InvalidState => 6
    case BackendError => 7
    case NotImplemented => 8
  }

  /** Reads a numeric code back; it is the exact inverse of `Code`. */
  function FromCode(c: nat): (r: Option<Status>)
    ensures r.None? <==> c > 8
    ensures forall s :: r == Some(s) <==> Code(s) == c
  {
    match c
    case 0 => Some(Success)
    case 1 => Some(Error)
    case 2 => Some(DeviceNotPresent)
    case 3 => Some(DeviceError)
    case 4 => Some(MemOpFailed)
    case 5 => Some(InvalidArgument)
    case 6 => Some(InvalidState)
    case 7 => Some(BackendError)
    case 8 => Some(NotImplemented)
    case _ => None
  }

  /** Distinct status codes have distinct numeric values. */
  lemma CodeInjective(s: Status, t: Status)
    requires Code(s) == Code(t)
    ensures s == t
  {
    assert FromCode(Code(s)) == Some(s);
  }
}
