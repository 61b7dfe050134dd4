/** The authentication middleware: extract a bearer token from the
    `Authorization` header, verify it, load the user it names and admit the
    request only for an active account; and the admin role check. */
module Auth {
  import opened Wrappers
  import opened Users
  import Strings

  /** `req.headers.authorization?.split(' ')[1] || req.headers.authorization`.
      The empty string stands for a missing (falsy) token. The scheme word
      in front of the token is never looked at. */
  function ExtractToken(header: Option<string>): (token: string)
    ensures token == "" <==> header == None || header == Some("")
  {
    match header
    case None => ""
    case Some(h) =>
      var fields := Strings.Split(h);
      if |fields| > 1 && fields[1] != "" then fields[1] else h
  }

  /** "Bearer abc" and "Bearer abc extra" give "abc". */
  lemma ExtractBearer(scheme: string, credential: string, rest: string)
    requires ' ' !in scheme && ' ' !in credential && credential != ""
    requires rest == "" || rest[0] == ' '
    ensures ExtractToken(Some(scheme + " " + credential + rest)) == credential
  {
    Strings.SecondField(scheme, credential, rest);
  }

  /** A header without a space, "Bearer" alone included, is the token itself. */
  lemma ExtractBareToken(header: string)
    requires ' ' !in header
    ensures ExtractToken(Some(header)) == header
  {
    Strings.SplitJoin([header]);
  }

  /** When the second field is empty ("Bearer ", "Bearer  abc") the whole
      header is the token. */
  lemma ExtractEmptySecondField(scheme: string, rest: string)
    requires ' ' !in scheme
    requires rest == "" || rest[0] == ' '
    ensures ExtractToken(Some(scheme + " " + rest)) == scheme + " " + rest
  {
    Strings.SecondField(scheme, "", rest);
    assert scheme + " " + "" + rest == scheme + " " + rest;
  }

  /** What `jwt.verify(token, secret)` does with a token under the server's
      secret and the request's clock: it yields the embedded `id`, or throws
      an error named 'JsonWebTokenError' (malformed token, bad signature),
      'TokenExpiredError', or anything else. */
  datatype VerifyResult = Verified(id: UserId) | Malformed | Expired | VerifyFailed

  /** Why a request is turned away by the middleware. */
  datatype AuthError =
    | MissingToken
    | InvalidToken
    | TokenExpired
    | AuthFailure
    | UserNotFound
    | AccountInactive
    | NotAdmin
  {
    function Status(): int {
      match this
      case MissingToken => 401
      case InvalidToken => 401
      case TokenExpired => 401
      case AuthFailure => 500
      case UserNotFound => 401
      case AccountInactive => 403
      case NotAdmin => 403
    }

    function Message(): string {
      match this
      case MissingToken => "Authentication required. Please provide a token."
      case InvalidToken => "Invalid token"
      case TokenExpired => "Token expired. Please login again."
      case AuthFailure => "Authentication error"
      case UserNotFound => "User not found"
      case AccountInactive => "Account is inactive. Please contact administrator."
      case NotAdmin => "Access denied. Admin privileges required."
    }
  }

  /** `authenticate`: `Ok(user)` is the request going on to `next()` with
      `req.user = user`; `Err(e)` is the response the middleware sends. */
  function Authenticate(header: Option<string>, verify: string -> VerifyResult, users: map<UserId, User>)
    : (r: Result<User, AuthError>)
    ensures r.Ok? <==>
      var token := ExtractToken(header);
      token != "" && verify(token).Verified? && verify(token).id in users
      && users[verify(token).id].status == Active
    ensures r.Ok? ==> r.value == users[verify(ExtractToken(header)).id] && r.value.status == Active
    ensures r.Err? ==> r.error != NotAdmin
  {
    var token := ExtractToken(header);
    if token == "" then Err(MissingToken)
    else
      match verify(token)
      case Malformed => Err(InvalidToken)
      case Expired => Err(TokenExpired)
      case VerifyFailed => Err(AuthFailure)
      case Verified(id) =>
        if id !in users then Err(UserNotFound)
        else if users[id].status != Active then Err(AccountInactive)
        else Ok(users[id])
  }

  /** Without a token the answer is 401 whatever the verifier and the store
      would say: neither is consulted. */
  lemma MissingTokenConsultsNothing(header: Option<string>,
                                    verify1: string -> VerifyResult, users1: map<UserId, User>,
                                    verify2: string -> VerifyResult, users2: map<UserId, User>)
    requires header == None || header == Some("")
    ensures Authenticate(header, verify1, users1) == Authenticate(header, verify2, users2) == Err(MissingToken)
    ensures MissingToken.Status() == 401
  {
  }

  /** A token that fails verification is answered without a store read:
      401 "Invalid token", 401 "Token expired", or 500 for any other error. */
  lemma VerifyFailureConsultsNoStore(header: Option<string>, verify: string -> VerifyResult,
                                     users: map<UserId, User>)
    requires ExtractToken(header) != "" && !verify(ExtractToken(header)).Verified?
    ensures Authenticate(header, verify, users) == Authenticate(header, verify, map[])
    ensures verify(ExtractToken(header)) == Malformed ==>
      Authenticate(header, verify, users) == Err(InvalidToken) && InvalidToken.Status() == 401
    ensures verify(ExtractToken(header)) == Expired ==>
      Authenticate(header, verify, users) == Err(TokenExpired) && TokenExpired.Status() == 401
    ensures verify(ExtractToken(header)) == VerifyFailed ==>
      Authenticate(header, verify, users) == Err(AuthFailure) && AuthFailure.Status() == 500
  {
  }

  /** A verified token naming no stored user gets 401 "User not found". */
  lemma UnknownUserRejected(header: Option<string>, verify: string -> VerifyResult,
                            users: map<UserId, User>, id: UserId)
    requires ExtractToken(header) != "" && verify(ExtractToken(header)) == Verified(id)
    requires id !in users
    ensures Authenticate(header, verify, users) == Err(UserNotFound)
    ensures UserNotFound.Status() == 401
  {
  }

  /** A verified token for an inactive account gets 403: the request never
      reaches `next()`. */
  lemma InactiveAccountRejected(header: Option<string>, verify: string -> VerifyResult,
                                users: map<UserId, User>, id: UserId)
    requires ExtractToken(header) != "" && verify(ExtractToken(header)) == Verified(id)
    requires id in users && users[id].status == Inactive
    ensures Authenticate(header, verify, users) == Err(AccountInactive)
    ensures AccountInactive.Status() == 403
  {
  }

  /** `isAdmin`: 403 for every role but 'admin'; an admin goes on unchanged. */
  function IsAdmin(principal: User): (r: Result<User, AuthError>)
    ensures r.Ok? <==> principal.role == Admin
    ensures r.Ok? ==> r.value == principal
    ensures r.Err? ==> r.error == NotAdmin && r.error.Status() == 403
  {
    if principal.role != Admin then Err(NotAdmin) else Ok(principal)
  }
}
