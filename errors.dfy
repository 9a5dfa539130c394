/**
 * The exceptions the services throw and the global exception handler that turns them into
 * HTTP error responses (exception/GlobalExceptionHandler.kt and its Java twin).
 */
module Errors {
  import opened Wrappers

  /** The two backends implement the same behaviour and differ only in their error texts. */
  datatype Backend = Kotlin | Java

  datatype ErrorKind =
    | EmailAlreadyExists
    | TaskNotFound
    | UnauthorizedAccess
    | UsernameNotFound
    | BadCredentials
    | NoSuchElement

  /** A thrown exception: its class and its (nullable) message. */
  datatype ServiceError = ServiceError(kind: ErrorKind, message: Option<string>)

  const EmailExistsMessage := "이미 존재하는 이메일입니다."
  const TaskNotFoundMessage := "태스크를 찾을 수 없습니다."
  const NoPermissionMessage := "해당 태스크에 대한 권한이 없습니다."
  const UserNotFoundMessage := "사용자를 찾을 수 없습니다."
  /** The message of the NoSuchElementException thrown by Java's Optional.orElseThrow(). */
  const NoValuePresentMessage := "No value present"
  const BadCredentialsMessage := "이메일 또는 비밀번호가 올바르지 않습니다."

  /** The Kotlin handler's fallbacks for an exception without a message. */
  const KotlinTaskFallback := "작업을 찾을 수 없습니다."
  const KotlinAccessFallback := "접근 권한이 없습니다."

  datatype ErrorResponse = ErrorResponse(status: int, error: string, message: Option<string>)

  /** A ResponseEntity: the HTTP status line and the JSON body. */
  datatype ErrorReply = ErrorReply(httpStatus: int, body: ErrorResponse)

  const CONFLICT := 409
  const NOT_FOUND := 404
  const FORBIDDEN := 403
  const UNAUTHORIZED := 401

  /** The Kotlin handler's `e.message ?: fallback`. */
  function OrElse(message: Option<string>, fallback: string): (m: string)
    ensures message.Some? ==> m == message.value
    ensures message.None? ==> m == fallback
  {
    match message
    case Some(s) => s
    case None => fallback
  }

  function Reply(status: int, error: string, message: Option<string>): ErrorReply
  {
    ErrorReply(status, ErrorResponse(status, error, message))
  }

  /**
   * The @ExceptionHandler chosen for an exception, and what it returns; None when no handler
   * of this class matches (NoSuchElementException is left to the framework's default).
   */
  function Handle(backend: Backend, e: ServiceError): (r: Option<ErrorReply>)
    ensures r.None? <==> e.kind == NoSuchElement
    ensures r.Some? ==> r.value.body.status == r.value.httpStatus
    ensures r.Some? && e.kind == BadCredentials ==> r.value.body.message == Some(BadCredentialsMessage)
    ensures r.Some? && backend == Kotlin ==> r.value.body.message.Some?
    ensures r.Some? && backend == Kotlin && e.kind != BadCredentials && e.message.Some? ==> r.value.body.message == e.message
    ensures r.Some? && backend == Java && e.kind != BadCredentials ==> r.value.body.message == e.message
  {
    match (backend, e.kind)
    case (_, NoSuchElement) => None
    case (Kotlin, EmailAlreadyExists) =>
      Some(Reply(CONFLICT, "충돌", Some(OrElse(e.message, EmailExistsMessage))))
    case (Kotlin, TaskNotFound) =>
      Some(Reply(NOT_FOUND, "찾을 수 없음", Some(OrElse(e.message, KotlinTaskFallback))))
    case (Kotlin, UnauthorizedAccess) =>
      Some(Reply(FORBIDDEN, "접근 거부", Some(OrElse(e.message, KotlinAccessFallback))))
    case (Kotlin, UsernameNotFound) =>
      Some(Reply(NOT_FOUND, "찾을 수 없음", Some(OrElse(e.message, UserNotFoundMessage))))
    case (Kotlin, BadCredentials) =>
      Some(Reply(UNAUTHORIZED, "인증 실패", Some(BadCredentialsMessage)))
    case (Java, EmailAlreadyExists) => Some(Reply(CONFLICT, "Conflict", e.message))
    case (Java, TaskNotFound) => Some(Reply(NOT_FOUND, "Not Found", e.message))
    case (Java, UnauthorizedAccess) => Some(Reply(FORBIDDEN, "Forbidden", e.message))
    case (Java, UsernameNotFound) => Some(Reply(NOT_FOUND, "Not Found", e.message))
    case (Java, BadCredentials) => Some(Reply(UNAUTHORIZED, "Unauthorized", Some(BadCredentialsMessage)))
  }

  /** The status code each handled exception class maps to, on either backend. */
  lemma HandledStatusCodes(backend: Backend, m: Option<string>)
    ensures Handle(backend, ServiceError(EmailAlreadyExists, m)).value.httpStatus == 409
    ensures Handle(backend, ServiceError(TaskNotFound, m)).value.httpStatus == 404
    ensures Handle(backend, ServiceError(UnauthorizedAccess, m)).value.httpStatus == 403
    ensures Handle(backend, ServiceError(UsernameNotFound, m)).value.httpStatus == 404
    ensures Handle(backend, ServiceError(BadCredentials, m)).value.httpStatus == 401
  {
  }

  /** The two backends answer every exception with the same status code. */
  lemma TwinsAgreeOnStatus(e: ServiceError)
    ensures Handle(Kotlin, e).Some? <==> Handle(Java, e).Some?
    ensures Handle(Kotlin, e).Some? ==> Handle(Kotlin, e).value.httpStatus == Handle(Java, e).value.httpStatus
  {
  }

  /** A missing task and a missing user look alike to the client: same status, same label. */
  lemma NotFoundKindsShareLabel(backend: Backend, m1: Option<string>, m2: Option<string>)
    ensures Handle(backend, ServiceError(TaskNotFound, m1)).value.body.error
         == Handle(backend, ServiceError(UsernameNotFound, m2)).value.body.error
  {
  }

  /** The Java handler's labels are the reason phrases of the status codes. */
  lemma JavaReasonPhrases(m: Option<string>)
    ensures Handle(Java, ServiceError(EmailAlreadyExists, m)).value.body.error == "Conflict"
    ensures Handle(Java, ServiceError(TaskNotFound, m)).value.body.error == "Not Found"
    ensures Handle(Java, ServiceError(UnauthorizedAccess, m)).value.body.error == "Forbidden"
    ensures Handle(Java, ServiceError(UsernameNotFound, m)).value.body.error == "Not Found"
    ensures Handle(Java, ServiceError(BadCredentials, m)).value.body.error == "Unauthorized"
  {
  }

  /** The bad-credentials answer never reveals the exception's own text. */
  lemma BadCredentialsIgnoresMessage(backend: Backend, m1: Option<string>, m2: Option<string>)
    ensures Handle(backend, ServiceError(BadCredentials, m1)) == Handle(backend, ServiceError(BadCredentials, m2))
  {
  }
}
