/**
 * Registration and login (service/AuthService.kt and its Java twin). The password encoder
 * and the token provider are functions handed to the service. The authentication manager's
 * verdict on a login is given to each call, since how it checks credentials belongs to the
 * security framework.
 */
module Auth {
  import opened Wrappers
  import opened Entities
  import opened Errors
  import opened Repositories
  import Tasks

  datatype RegisterRequest = RegisterRequest(name: string, email: string, password: string)

  datatype LoginRequest = LoginRequest(email: string, password: string)

  datatype AuthenticationResponse = AuthenticationResponse(token: string, username: string)

  /** What register returns or throws, and the users table after it. */
  datatype Registration = Registration(
    result: Result<AuthenticationResponse, ServiceError>,
    users: map<string, User>,
    nextId: int)

  const EmailTaken := ServiceError(EmailAlreadyExists, Some(EmailExistsMessage))

  /** The framework's BadCredentialsException; its own text is never shown. */
  const RejectedCredentials := ServiceError(BadCredentials, None)

  /** The NoSuchElementException of a login whose user cannot be found afterwards. */
  function MissingUser(backend: Backend): (e: ServiceError)
    ensures e.kind == NoSuchElement && Handle(backend, e).None?
    ensures e.message == Some(if backend == Kotlin then UserNotFoundMessage else NoValuePresentMessage)
  {
    match backend
    case Kotlin => ServiceError(NoSuchElement, Some(UserNotFoundMessage))
    case Java => ServiceError(NoSuchElement, Some(NoValuePresentMessage))
  }

  /**
   * register: a taken email is EmailAlreadyExists and changes nothing; otherwise a new,
   * enabled user with the encoded password is stored under the next id, and the answer is a
   * token for that user and the user's name.
   */
  function RegisterSpec(users: map<string, User>, nextId: int, request: RegisterRequest,
                        encode: string -> string, generateToken: User -> string, now: DateTime)
    : (o: Registration)
    ensures request.email in users ==> o == Registration(Failure(EmailTaken), users, nextId)
    ensures request.email !in users ==>
      && o.users.Keys == users.Keys + {request.email}
      && (forall e | e in users :: o.users[e] == users[e])
      && o.nextId == nextId + 1
      && var u := o.users[request.email];
      && u == User(Some(nextId), request.name, encode(request.password), request.email, false, now)
      && u.IsEnabled()
      && o.result == Success(AuthenticationResponse(generateToken(u), request.name))
  {
    if request.email in users then Registration(Failure(EmailTaken), users, nextId)
    else
      var user := User(id := Some(nextId), name := request.name, email := request.email,
                       password := encode(request.password), createdAt := now);
      Registration(Success(AuthenticationResponse(generateToken(user), user.name)),
                   users[request.email := user], nextId + 1)
  }

  /**
   * authenticate: credentials are checked first (BadCredentials); then the user is looked up
   * by email (NoSuchElement, with each backend's text); otherwise a token for that user and
   * the user's name.
   */
  function AuthenticateSpec(backend: Backend, users: map<string, User>, request: LoginRequest,
                            credentialsAccepted: bool, generateToken: User -> string)
    : (r: Result<AuthenticationResponse, ServiceError>)
    ensures !credentialsAccepted ==> r == Failure(RejectedCredentials)
    ensures credentialsAccepted && request.email !in users ==> r == Failure(MissingUser(backend))
    ensures credentialsAccepted && request.email in users ==>
      r == Success(AuthenticationResponse(generateToken(users[request.email]), users[request.email].name))
    ensures r.Failure? ==> r.error.kind == BadCredentials || r.error.kind == NoSuchElement
  {
    if !credentialsAccepted then Failure(RejectedCredentials)
    else if request.email !in users then Failure(MissingUser(backend))
    else
      var user := users[request.email];
      Success(AuthenticationResponse(generateToken(user), user.name))
  }

  /**
   * The authentication manager accepts a login only after finding its email in the users
   * table; with such a verdict, every failure is a credentials failure, answered 401.
   */
  lemma AcceptedLoginFindsUser(backend: Backend, users: map<string, User>, request: LoginRequest,
                               credentialsAccepted: bool, generateToken: User -> string)
    requires credentialsAccepted ==> request.email in users
    ensures var r := AuthenticateSpec(backend, users, request, credentialsAccepted, generateToken);
      && (r.Failure? ==> r.error == RejectedCredentials)
      && (r.Failure? ==> Handle(backend, r.error).value.httpStatus == UNAUTHORIZED)
  {
  }

  /** A registered user can log in straight away, and gets a token for the stored account. */
  lemma RegisterThenAuthenticate(backend: Backend, users: map<string, User>, nextId: int,
                                 request: RegisterRequest, encode: string -> string,
                                 generateToken: User -> string, now: DateTime)
    requires request.email !in users
    ensures var o := RegisterSpec(users, nextId, request, encode, generateToken, now);
      && o.result.Success?
      && AuthenticateSpec(backend, o.users, LoginRequest(request.email, request.password), true, generateToken)
         == o.result
  {
  }

  /** A second registration with the same email is refused with 409 and changes nothing. */
  lemma DuplicateRegistrationRejected(backend: Backend, users: map<string, User>, nextId: int,
                                      first: RegisterRequest, second: RegisterRequest,
                                      encode: string -> string, generateToken: User -> string,
                                      now: DateTime, later: DateTime)
    requires first.email == second.email
    ensures var o := RegisterSpec(users, nextId, first, encode, generateToken, now);
      var again := RegisterSpec(o.users, o.nextId, second, encode, generateToken, later);
      && again == Registration(Failure(EmailTaken), o.users, o.nextId)
      && Handle(backend, again.result.error).value.httpStatus == CONFLICT
      && Handle(backend, again.result.error).value.body.message == Some(EmailExistsMessage)
  {
  }

  /** A refused login is answered 401 with the fixed text, on both backends alike. */
  lemma RejectedLoginReplies(backend: Backend, users: map<string, User>, request: LoginRequest,
                             generateToken: User -> string)
    ensures var r := AuthenticateSpec(backend, users, request, false, generateToken);
      && r.Failure?
      && Handle(backend, r.error).value.httpStatus == UNAUTHORIZED
      && Handle(backend, r.error).value.body.message == Some(BadCredentialsMessage)
  {
  }

  /** Registration keeps users keyed by email and the task table's owners registered. */
  lemma RegisterKeepsConsistency(users: map<string, User>, rows: map<int, TaskRow>, taskNextId: int,
                                 userNextId: int, request: RegisterRequest, encode: string -> string,
                                 generateToken: User -> string, now: DateTime)
    requires Tasks.Consistent(users, rows, taskNextId)
    ensures Tasks.Consistent(RegisterSpec(users, userNextId, request, encode, generateToken, now).users,
                             rows, taskNextId)
  {
  }

  class AuthService {
    const backend: Backend
    const userRepository: UserRepository
    const encode: string -> string
    const generateToken: User -> string

    constructor (backend: Backend, userRepository: UserRepository, encode: string -> string,
                 generateToken: User -> string)
      ensures this.backend == backend && this.userRepository == userRepository
      ensures this.encode == encode && this.generateToken == generateToken
    {
      this.backend := backend;
      this.userRepository := userRepository;
      this.encode := encode;
      this.generateToken := generateToken;
    }

    method Register(request: RegisterRequest, now: DateTime)
      returns (r: Result<AuthenticationResponse, ServiceError>)
      requires userRepository.Valid()
      modifies userRepository
      ensures userRepository.Valid()
      ensures Registration(r, userRepository.byEmail, userRepository.nextId)
           == RegisterSpec(old(userRepository.byEmail), old(userRepository.nextId), request,
                           encode, generateToken, now)
    {
      if userRepository.ExistsByEmail(request.email) {
        return Failure(EmailTaken);
      }
      var user := User(name := request.name, email := request.email,
                       password := encode(request.password), createdAt := now);
      var saved := userRepository.Save(user);
      var jwtToken := generateToken(saved);
      r := Success(AuthenticationResponse(jwtToken, saved.name));
    }

    /**
     * authenticate, given the authentication manager's verdict on this login, which it reaches
     * by reading the same users table.
     */
    method Authenticate(request: LoginRequest, credentialsAccepted: bool)
      returns (r: Result<AuthenticationResponse, ServiceError>)
      ensures r == AuthenticateSpec(backend, userRepository.byEmail, request, credentialsAccepted, generateToken)
    {
      if !credentialsAccepted {
        return Failure(RejectedCredentials);
      }
      var user := userRepository.FindByEmail(request.email);
      if user.None? {
        return Failure(MissingUser(backend));
      }
      var jwtToken := generateToken(user.value);
      r := Success(AuthenticationResponse(jwtToken, user.value.name));
    }
  }
}
