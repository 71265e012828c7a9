/** `GlobalExceptionHandler`: from a thrown exception to the status code and the error body. */
module Errors {
  import opened Domain
  import opened Store
  import InvestmentService

  /** The exception classes with a handler of their own; `OtherException` is the catch-all. */
  datatype ExceptionKind =
    | ResourceNotFoundException
    | BadRequestException
    | AccessDeniedException
    | BadCredentialsException
    | OtherException

  /** The request the handler is given: a servlet request with its URI, or any other kind. */
  datatype WebRequest = ServletWebRequest(requestUri: string) | OtherWebRequest

  /** The error body: time, message, path and the status code repeated as `errorCode`. */
  datatype ErrorDetails = ErrorDetails(timestamp: Timestamp, message: string, path: string, errorCode: int)

  /** `getPath`. */
  function GetPath(request: WebRequest): (path: string)
    ensures request.ServletWebRequest? ==> path == "uri=" + request.requestUri
    ensures request.OtherWebRequest? ==> path == ""
    ensures request.ServletWebRequest? ==> |path| >= 4 && path[..4] == "uri="
  {
    match request
    case ServletWebRequest(uri) => "uri=" + uri
    case OtherWebRequest => ""
  }

  /** The status each handler answers with. */
  function StatusCode(kind: ExceptionKind): (code: int)
    ensures code == 404 <==> kind == ResourceNotFoundException
    ensures code == 400 <==> kind == BadRequestException
    ensures code == 403 <==> kind == AccessDeniedException
    ensures code == 401 <==> kind == BadCredentialsException
    ensures code == 500 <==> kind == OtherException
  {
    match kind
    case ResourceNotFoundException => 404
    case BadRequestException => 400
    case AccessDeniedException => 403
    case BadCredentialsException => 401
    case OtherException => 500
  }

  const BadCredentialsMessage := "Invalid username or password"

  /** The handler chosen for `kind`: the body carries the exception's own message, except for bad
      credentials, whose fixed message hides which of the two was wrong. */
  function Handle(kind: ExceptionKind, message: string, request: WebRequest, now: Timestamp): (d: ErrorDetails)
    ensures d.errorCode == StatusCode(kind)
    ensures d.message == (if kind == BadCredentialsException then BadCredentialsMessage else message)
    ensures d.path == GetPath(request) && d.timestamp == now
  {
    match kind
    case ResourceNotFoundException => ErrorDetails(now, message, GetPath(request), 404)
    case BadRequestException => ErrorDetails(now, message, GetPath(request), 400)
    case AccessDeniedException => ErrorDetails(now, message, GetPath(request), 403)
    case BadCredentialsException => ErrorDetails(now, BadCredentialsMessage, GetPath(request), 401)
    case OtherException => ErrorDetails(now, message, GetPath(request), 500)
  }

  /** The exception class a service failure is thrown as. */
  function KindOf(f: Failure): (k: ExceptionKind)
    ensures k != BadCredentialsException
  {
    match f
    case ResourceNotFound(_, _, _) => ResourceNotFoundException
    case BadRequest(_) => BadRequestException
    case AccessDenied(_) => AccessDeniedException
    case Unexpected(_) => OtherException
  }

  /** Each handled kind has its own status code, so the code tells the client which kind of
      exception was thrown. */
  lemma StatusCodesDistinct(a: ExceptionKind, b: ExceptionKind)
    ensures StatusCode(a) == StatusCode(b) <==> a == b
  {
  }

  /** A failure from the services is answered with 404, 400, 403 or 500, never 401, and with its
      own message. */
  lemma ServiceFailureResponse(f: Failure, message: string, request: WebRequest, now: Timestamp)
    ensures var d := Handle(KindOf(f), message, request, now);
            && d.errorCode in {404, 400, 403, 500}
            && (d.errorCode == 403 <==> f.AccessDenied?)
            && (d.errorCode == 404 <==> f.ResourceNotFound?)
            && d.message == message
  {
  }

  /** A refused approve or reject is answered 404 (caller or request missing) or 403 (every
      other refusal, a request in the wrong state included); never 400 or 500. */
  lemma DecisionRefusalsAre403Or404(
    users: seq<User>, requests: seq<InvestmentRequest>, actor: Actor, id: int,
    verdict: InvestmentService.Verdict, now: Timestamp)
    requires Consistent(users, requests)
    ensures var r := InvestmentService.DecideOutcome(users, requests, actor, id, verdict, now);
            r.Err? ==> StatusCode(KindOf(r.failure)) in {403, 404}
  {
    var r := InvestmentService.DecideOutcome(users, requests, actor, id, verdict, now);
    if r.Err? {
      assert r.failure.AccessDenied? || r.failure.ResourceNotFound?;
    }
  }

  /** A refused escalation is answered 404 (caller or request missing) or 403 (missing MANAGER
      authority, a request that is not PENDING, or another manager's subordinate). */
  lemma EscalationRefusalsAre403Or404(
    users: seq<User>, requests: seq<InvestmentRequest>, actor: Actor, id: int, now: Timestamp)
    requires Consistent(users, requests)
    ensures var r := InvestmentService.EscalateOutcome(users, requests, actor, id, now);
            r.Err? ==> StatusCode(KindOf(r.failure)) in {403, 404}
  {
    var r := InvestmentService.EscalateOutcome(users, requests, actor, id, now);
    if r.Err? {
      assert r.failure.AccessDenied? || r.failure.ResourceNotFound?;
    }
  }
}
