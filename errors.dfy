/** The error values of utils/errors.go and their mapping to HTTP status codes and error codes. */
module Errors {
  import opened Wrappers

  /** The package-level sentinel errors; each is equal only to itself. */
  datatype Sentinel =
    | NotFound | InvalidPage | Conflict | BadRequest | Forbidden | UnprocessableEntity
    | Unauthorized | Unauthenticated | CountryMismatchPOA | CustomerNotFound
    | NoOrganizationFound | FxRateNotFound | FeeCalcMaxAmount | FeeExceedsAmount
    | SrcAmountBelowMin | SrcAmountZeroOrNeg | LaDrainNotEnoughBalance

  /**
   * A Go error value: a sentinel, any other error without a cause, an error formatted with
   * `%w` around a cause, or a WrapErr carrying a status code and an error code.
   */
  datatype Error =
    | Sentinel(kind: Sentinel)
    | Plain(message: string)
    | Wrapped(message: string, cause: Error)
    | WrapErr(err: Error, statusCode: int, errCode: string)

  function SentinelMessage(s: Sentinel): string {
    match s
    case NotFound => "resource not found"
    case InvalidPage => "invalid page request"
    case Conflict => "data conflict or already exist"
    case BadRequest => "bad request, check param or body"
    case Forbidden => "forbidden"
    case UnprocessableEntity => "action could not be processed properly due to invalid data provided"
    case Unauthorized => "unauthorized: you do not have permission to access this resource"
    case Unauthenticated => "unauthenticated: no authenticated user found"
    case CountryMismatchPOA => "country of residence does not match with proof of address"
    case CustomerNotFound => "appropriate customer_id required"
    case NoOrganizationFound => "No organization found for this user"
    case FxRateNotFound => "fx rate not found for the given currency pair"
    case FeeCalcMaxAmount => "maximum amount exceeded for fee calculation"
    case FeeExceedsAmount => "calculated fee exceeds the amount"
    case SrcAmountBelowMin => "source amount is below the minimum required amount"
    case SrcAmountZeroOrNeg => "source amount must be greater than zero"
    case LaDrainNotEnoughBalance => "Insufficient balance on liquidation address."
  }

  /** Error(): the message of an error; a WrapErr reports its inner error's message. */
  function Message(e: Error): string {
    match e
    case Sentinel(k) => SentinelMessage(k)
    case Plain(m) => m
    case Wrapped(m, _) => m
    case WrapErr(inner, _, _) => Message(inner)
  }

  /** errors.Unwrap: the cause of an error, if it has one. */
  function Unwrap(e: Error): (r: Option<Error>)
    ensures r.Some? ==> r.value < e
  {
    match e
    case Wrapped(_, cause) => Some(cause)
    case WrapErr(inner, _, _) => Some(inner)
    case _ => None
  }

  /** errors.As with a WrapErr target: the first WrapErr on the chain of causes, if any. */
  function AsWrapErr(e: Error): (r: Option<Error>)
    ensures r.Some? ==> r.value.WrapErr?
    ensures e.WrapErr? ==> r == Some(e)
    ensures e.Sentinel? || e.Plain? ==> r.None?
    decreases e
  {
    if e.WrapErr? then Some(e)
    else
      match Unwrap(e)
      case None => None
      case Some(cause) => AsWrapErr(cause)
  }

  /** WrapError: a WrapErr around `err` with the given status code and error code. */
  function WrapError(err: Error, statusCode: int, errCode: string): (r: Error)
    ensures Message(r) == Message(err)
    ensures Unwrap(r) == Some(err)
  {
    WrapErr(err, statusCode, errCode)
  }

  /**
   * GetStatusCode: the status of the bare sentinels listed in the switch; for any other error,
   * the status code of the first WrapErr on its chain, or 500.
   */
  function GetStatusCode(err: Error): (r: int)
    ensures err == Sentinel(NotFound) || err == Sentinel(InvalidPage) ==> r == 404
    ensures err == Sentinel(Conflict) ==> r == 409
    ensures err == Sentinel(BadRequest) ==> r == 400
    ensures err == Sentinel(UnprocessableEntity) ==> r == 422
    ensures err == Sentinel(Unauthorized) ==> r == 403
    ensures err == Sentinel(Unauthenticated) ==> r == 401
    ensures !err.Sentinel? ==> r == if AsWrapErr(err).Some? then AsWrapErr(err).value.statusCode else 500
  {
    match err
    case Sentinel(NotFound) => 404
    case Sentinel(InvalidPage) => 404
    case Sentinel(Conflict) => 409
    case Sentinel(BadRequest) => 400
    case Sentinel(UnprocessableEntity) => 422
    case Sentinel(Unauthorized) => 403
    case Sentinel(Unauthenticated) => 401
    case _ =>
      match AsWrapErr(err)
      case Some(w) => w.statusCode
      case None => 500
  }

  /** GetErrCode: the error code of the first WrapErr on the chain, or "". */
  function GetErrCode(err: Error): (r: string)
    ensures AsWrapErr(err).None? ==> r == ""
    ensures AsWrapErr(err).Some? ==> r == AsWrapErr(err).value.errCode
  {
    match AsWrapErr(err)
    case Some(w) => w.errCode
    case None => ""
  }

  /** Wrapping fixes the status and error code, whatever the inner error and however deep it is wrapped with %w. */
  lemma WrapErrorRoundTrip(e: Error, statusCode: int, errCode: string, messages: seq<string>)
    ensures var w := WrapInside(WrapError(e, statusCode, errCode), messages);
      GetStatusCode(w) == statusCode && GetErrCode(w) == errCode
  {
  }

  /** The error `e` formatted with %w once per message, innermost first. */
  function WrapInside(e: Error, messages: seq<string>): (r: Error)
    ensures AsWrapErr(r) == AsWrapErr(e)
  {
    if messages == [] then e else Wrapped(messages[0], WrapInside(e, messages[1..]))
  }

  /** A bare sentinel outside the switch maps to 500 and has no error code. */
  lemma UnlistedSentinelIsInternal(s: Sentinel)
    requires s !in {NotFound, InvalidPage, Conflict, BadRequest, UnprocessableEntity, Unauthorized, Unauthenticated}
    ensures GetStatusCode(Sentinel(s)) == 500
    ensures GetErrCode(Sentinel(s)) == ""
  {
  }

  /** An error chain without a WrapErr maps to 500 and "", even when a listed sentinel is wrapped with %w. */
  lemma {:induction false} UnwrappedChainIsInternal(e: Error)
    requires !e.Sentinel? && NoWrapErr(e)
    ensures GetStatusCode(e) == 500 && GetErrCode(e) == ""
  {
    NoWrapErrHasNone(e);
  }

  /** No WrapErr occurs on the chain of causes of `e`. */
  predicate NoWrapErr(e: Error) {
    match e
    case Sentinel(_) => true
    case Plain(_) => true
    case Wrapped(_, cause) => NoWrapErr(cause)
    case WrapErr(_, _, _) => false
  }

  lemma {:induction false} NoWrapErrHasNone(e: Error)
    requires NoWrapErr(e)
    ensures AsWrapErr(e).None?
  {
    if e.Wrapped? {
      NoWrapErrHasNone(e.cause);
    }
  }
}
