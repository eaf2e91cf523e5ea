/** The value types shared by the services: the risk enumeration, member
    roles, notification kinds, the state-change event and the exceptions the
    services raise (as values of an error datatype). */
module Domain {

  datatype Option<+T> = None | Some(value: T)

  /** Risk, in declaration order: Risk.values() lists the constants in this order. */
  datatype Risk = POSITIVE | DANGER | CRITICAL | EMERGENCY

  /** Risk.values(). */
  const AllRisks: seq<Risk> := [POSITIVE, DANGER, CRITICAL, EMERGENCY]

  /** Enum.name() of a risk. */
  function RiskName(r: Risk): string {
    match r
    case POSITIVE => "POSITIVE"
    case DANGER => "DANGER"
    case CRITICAL => "CRITICAL"
    case EMERGENCY => "EMERGENCY"
  }

  /** Every risk occurs exactly once in Risk.values(). */
  lemma AllRisksListsEachOnce(r: Risk)
    ensures r in AllRisks
    ensures forall i, j :: 0 <= i < j < |AllRisks| ==> AllRisks[i] != AllRisks[j]
  {
  }

  /** Member roles. ROLE_ADMIN is the one constant the services name; the
      others are carried by their enum name. */
  datatype Role = ROLE_ADMIN | OtherRole(name: string)

  /** Role.toString(), the authority string the authorization filter grants. */
  function RoleName(r: Role): string {
    match r
    case ROLE_ADMIN => "ROLE_ADMIN"
    case OtherRole(n) => n
  }

  datatype NotificationType = ANALYSIS_COMPLETE | SENIOR_STATE_CHANGED

  /** SeniorStateChangedEvent(senior, previousState, newState, reason); the
      senior is identified by its id, and a null previous state is None. */
  datatype Event = SeniorStateChangedEvent(
    seniorId: int,
    previousState: Option<Risk>,
    newState: Risk,
    reason: string)

  /** One field error of a failed bean validation. */
  datatype FieldError = FieldError(field: string, message: string)

  /** A media type "type/subtype"; "*" is the wildcard. */
  datatype MediaType = MediaType(kind: string, subtype: string)

  /** The exceptions that reach the global exception handler. */
  datatype Error =
    | EntityNotFound(message: string)
    | IllegalArgument(message: string)
    | IllegalState(message: string)
    | InvalidFile(message: string)
    | MessageNotReadable(message: string)
    | ArgumentNotValid(fieldErrors: seq<FieldError>)
    | MediaTypeNotSupported(contentType: Option<MediaType>, supported: seq<MediaType>, message: string)
    | MethodNotSupported(supportedMethods: string)
    | NoResourceFound(message: string)
    | JwtVerification(message: string)
    | PythonApi(status: int, message: string)
    | ResourceAccess(message: string)
      /** Any other exception: a null dereference, an index out of bounds, ... */
    | Unhandled(message: string)

  /** A service call either returns a value or throws. */
  datatype Result<+T> = Ok(value: T) | Fail(error: Error)
}
