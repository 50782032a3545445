/**
 * Application error values of the `domain` package: the `AppError` record,
 * its accessors, the composition operations `Wrap`, `Wrapf`, `WithMessage`
 * and `WithMessagef`, and the fixed catalog of five prototypes.
 *
 * Go's `error` interface is modelled by `ErrorValue` (non-nil values) inside
 * an `Option` (nil). An `AppError` is a plain value: every operation builds a
 * fresh record from the receiver's fields, so the receiver (in particular a
 * catalog prototype) is never changed.
 */
module DomainError {
  import opened Wrappers

  // HTTP status codes, section 15 of RFC 9110.
  const StatusOK: int := 200
  const StatusBadRequest: int := 400
  const StatusUnauthorized: int := 401
  const StatusForbidden: int := 403
  const StatusNotFound: int := 404
  const StatusInternalServerError: int := 500

  // Application error codes.
  const AuthenticationFailCode: int := 0x0041
  const UnknownResourceCode: int := 0x0044
  const InvalidParamCode: int := 0x0041
  const OperationUnsupportedCode: int := 0x0043
  const InternalErrorCode: int := 0x0050

  /** The sentinel error values exported by the gorm ORM; they are compared by identity. */
  datatype GormSentinel =
    | ErrRecordNotFound
    | ErrInvalidTransaction
    | ErrCantStartTransaction
    | ErrInvalidSQL
    | ErrUnaddressable

  /** The text gorm (version 1) gives each sentinel. */
  function SentinelText(s: GormSentinel): string
  {
    match s
    case ErrRecordNotFound => "record not found"
    case ErrInvalidTransaction => "no valid transaction"
    case ErrCantStartTransaction => "can't start transaction"
    case ErrInvalidSQL => "invalid SQL"
    case ErrUnaddressable => "using unaddressable value"
  }

  /** A non-nil Go `error` as it flows through the core. */
  datatype ErrorValue =
    | Sentinel(sentinel: GormSentinel)           // one of gorm's sentinel values
    | Driver(text: string)                       // any other error of the database driver
    | Wrapped(debug: string, inner: ErrorValue)  // `errors.Wrap(inner, debug)` of github.com/pkg/errors
    | App(app: AppError)                         // an `*AppError`

  /** `err.Error()`: the text of an error; a pkg/errors wrapper renders as `debug + ": " + inner`. */
  function ErrorString(e: ErrorValue): string
    decreases e
  {
    match e
    case Sentinel(s) => SentinelText(s)
    case Driver(t) => t
    case Wrapped(d, inner) => d + ": " + ErrorString(inner)
    case App(a) => a.Error()
  }

  /**
   * An application error: an HTTP status, a numeric code, an optional cause
   * kept for diagnostics, and the message shown to clients.
   */
  datatype AppError = AppError(httpCode: int, code: int, cause: Option<ErrorValue>, msg: string)
  {
    /** `Error()`: the client message, followed by the cause's text when there is a cause. */
    function Error(): (r: string)
      decreases this
      ensures |msg| <= |r| && r[..|msg|] == msg
      ensures r == msg <==> cause.None?
      ensures cause.Some? ==> r == msg + ": " + ErrorString(cause.value)
    {
      match cause
      case None => msg
      case Some(c) => msg + ": " + ErrorString(c)
    }

    function Cause(): Option<ErrorValue> { cause }

    function Message(): string { msg }

    function Code(): int { code }

    /** `HTTPCode()`: the status, where an unset (zero) status reads as 200. */
    function HTTPCode(): (r: int)
      ensures r != 0
      ensures httpCode != 0 ==> r == httpCode
      ensures httpCode == 0 ==> r == StatusOK
    {
      if httpCode == 0 then StatusOK else httpCode
    }

    /**
     * `Wrap(err, debug)`: nil for a nil `err`; otherwise the receiver with its
     * cause replaced by `err` annotated with `debug`.
     */
    function Wrap(err: Option<ErrorValue>, debug: string): (r: Option<AppError>)
      ensures r.None? <==> err.None?
      ensures r.Some? ==> r.value == this.(cause := Some(Wrapped(debug, err.value)))
    {
      match err
      case None => None
      case Some(e) => Some(AppError(httpCode, code, Some(Wrapped(debug, e)), msg))
    }

    /** `Wrapf(err, debugf, args...)`, given the already formatted debug text. */
    function Wrapf(err: Option<ErrorValue>, formatted: string): (r: Option<AppError>)
      ensures r == Wrap(err, formatted)
    {
      match err
      case None => None
      case Some(e) => Some(AppError(httpCode, code, Some(Wrapped(formatted, e)), msg))
    }

    /** `WithMessage(message)`: the receiver with `": " + message` appended to its client message. */
    function WithMessage(message: string): (r: AppError)
      ensures r == this.(msg := msg + ": " + message)
    {
      AppError(httpCode, code, cause, msg + ": " + message)
    }

    /** `WithMessagef(messagef, args...)`, given the already formatted text. */
    function WithMessagef(formatted: string): (r: AppError)
      ensures r == WithMessage(formatted)
    {
      AppError(httpCode, code, cause, msg + ": " + formatted)
    }
  }

  /** `OK()`: the error value that stands for success. */
  function OK(): (r: AppError)
    ensures r.HTTPCode() == StatusOK && r.Code() == 0
    ensures r.Cause().None? && r.Message() == "Success"
  {
    AppError(StatusOK, 0, None, "Success")
  }

  // The catalog of prototypes.
  const ErrInternalServer: AppError :=
    AppError(StatusInternalServerError, InternalErrorCode, None, "Internal Server Error")
  const ErrAuthenticationFail: AppError :=
    AppError(StatusUnauthorized, AuthenticationFailCode, None, "Invalid credentials or unrecognized keys")
  const ErrOperationNotSupported: AppError :=
    AppError(StatusForbidden, OperationUnsupportedCode, None, "Insufficient Permission Required")
  const ErrBadParameters: AppError :=
    AppError(StatusBadRequest, InvalidParamCode, None, "Insufficient Permission Required")
  const ErrUnknownResource: AppError :=
    AppError(StatusNotFound, UnknownResourceCode, None, "Requested resource not available")

  /** The five kinds of the catalog. */
  datatype Kind = InternalServer | AuthenticationFail | OperationNotSupported | BadParameters | UnknownResource

  function Prototype(k: Kind): AppError
  {
    match k
    case InternalServer => ErrInternalServer
    case AuthenticationFail => ErrAuthenticationFail
    case OperationNotSupported => ErrOperationNotSupported
    case BadParameters => ErrBadParameters
    case UnknownResource => ErrUnknownResource
  }

  /**
   * `e` was derived from the prototype of kind `k` by wrapping and appending
   * messages: same status, same code, and the prototype's message as a prefix.
   */
  ghost predicate DerivedFrom(e: AppError, k: Kind)
  {
    var p := Prototype(k);
    e.httpCode == p.httpCode && e.code == p.code && p.msg <= e.msg
  }

  /** The catalog's table of statuses, codes, messages and causes. */
  lemma CatalogTable()
    ensures ErrInternalServer.HTTPCode() == 500 && ErrInternalServer.Code() == 0x50
    ensures ErrAuthenticationFail.HTTPCode() == 401 && ErrAuthenticationFail.Code() == 0x41
    ensures ErrOperationNotSupported.HTTPCode() == 403 && ErrOperationNotSupported.Code() == 0x43
    ensures ErrBadParameters.HTTPCode() == 400 && ErrBadParameters.Code() == 0x41
    ensures ErrUnknownResource.HTTPCode() == 404 && ErrUnknownResource.Code() == 0x44
    ensures forall k :: Prototype(k).Cause().None? && Prototype(k).Error() == Prototype(k).Message()
  {
  }

  /**
   * Codes and messages do not tell the kinds apart: bad-parameters shares its
   * code with authentication-fail and its message with operation-not-supported.
   * Only the HTTP status does.
   */
  lemma OnlyStatusSeparatesKinds(k1: Kind, k2: Kind)
    ensures ErrBadParameters.Code() == ErrAuthenticationFail.Code()
    ensures ErrBadParameters.Message() == ErrOperationNotSupported.Message()
    ensures Prototype(k1).HTTPCode() == Prototype(k2).HTTPCode() <==> k1 == k2
  {
  }

  /** Wrapping nil is nil whatever the receiver and debug text. */
  lemma WrapNil(e: AppError, debug: string)
    ensures e.Wrap(None, debug) == None && e.Wrapf(None, debug) == None
  {
  }

  /** Wrapping and appending keep the kind of the receiver. */
  lemma DerivationKeepsKind(e: AppError, k: Kind, err: ErrorValue, debug: string, message: string)
    requires DerivedFrom(e, k)
    ensures DerivedFrom(e.Wrap(Some(err), debug).value, k)
    ensures DerivedFrom(e.WithMessage(message), k)
    ensures e.Wrap(Some(err), debug).value.HTTPCode() == e.HTTPCode()
  {
  }

  /** A wrapped error renders as client message, debug text and the wrapped error's text. */
  lemma WrapRendering(e: AppError, err: ErrorValue, debug: string)
    ensures e.Wrap(Some(err), debug).value.Error() == e.msg + ": " + debug + ": " + ErrorString(err)
    ensures e.Wrap(Some(err), debug).value.Message() == e.Message()
  {
  }

  /** Two appended messages read as one message joined by ": ". */
  lemma WithMessageTwice(e: AppError, a: string, b: string)
    ensures e.WithMessage(a).WithMessage(b) == e.WithMessage(a + ": " + b)
  {
  }
}
