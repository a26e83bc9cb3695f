/**
 * The authentication dependency (src/core/deps.py): bearer token to stored
 * user, or a rejection. Token decoding (signature and expiry checks) is the
 * foreign `decode` function passed in; it yields the subject claim or None.
 */
module Deps {
  import opened Wrappers
  import opened UserModel
  import opened UserRepo

  const InvalidTokenDetail := "Invalid or expired token"
  const UserNotFoundDetail := "User not found"
  /** What the bearer extractor answers when there is no usable Authorization header. */
  const NotAuthenticatedDetail := "Not authenticated"

  datatype AuthOutcome =
    | Forbidden(detail: string)       // 403, raised by the bearer extractor
    | Unauthorized(detail: string)    // 401, raised by get_current_user
    | Authenticated(user: User)

  function StatusCode(o: AuthOutcome): int {
    match o
    case Forbidden(_) => 403
    case Unauthorized(_) => 401
    case Authenticated(_) => 200
  }

  /** Python truthiness of the decoded subject: None and "" are both false. */
  predicate IsTruthy(subject: Option<string>) {
    subject.Some? && subject.value != ""
  }

  /**
   * `get_current_user`: decode the token; a falsy subject is "Invalid or
   * expired token"; otherwise the user stored under that id, or "User not
   * found". Both rejections are 401. Nothing is written.
   */
  function GetCurrentUser(users: Users, decode: string -> Option<string>, token: string): (o: AuthOutcome)
    ensures !o.Forbidden?
    ensures StatusCode(o) == 401 <==> !o.Authenticated?
    ensures !IsTruthy(decode(token)) ==> o == Unauthorized(InvalidTokenDetail)
    ensures IsTruthy(decode(token)) ==>
      (o.Authenticated? <==> exists id :: id in users && UuidToString(id) == decode(token).value)
    ensures o.Authenticated? ==> Some(o.user) == GetUserByIdText(users, decode(token).value)
    ensures o.Unauthorized? ==> o.detail in {InvalidTokenDetail, UserNotFoundDetail}
    ensures IsTruthy(decode(token)) && !o.Authenticated? ==> o == Unauthorized(UserNotFoundDetail)
  {
    var subject := decode(token);
    if !IsTruthy(subject) then Unauthorized(InvalidTokenDetail)
    else match GetUserByIdText(users, subject.value)
      case None => Unauthorized(UserNotFoundDetail)
      case Some(user) => Authenticated(user)
  }

  /**
   * A protected route as a whole: the `HTTPBearer` extractor answers 403,
   * before the chain runs, when the request carries no usable bearer
   * credentials. `bearer` is None in every such case: no Authorization
   * header, a scheme other than Bearer (which `HTTPBearer` answers with
   * another detail text), or empty credentials. So `Some("")` never
   * reaches the chain.
   */
  function Authenticate(users: Users, decode: string -> Option<string>, bearer: Option<string>): (o: AuthOutcome)
    ensures bearer.None? <==> o.Forbidden?
    ensures bearer.Some? ==> o == GetCurrentUser(users, decode, bearer.value)
  {
    match bearer
    case None => Forbidden(NotAuthenticatedDetail)
    case Some(token) => GetCurrentUser(users, decode, token)
  }

  /** A token that decodes to no subject is rejected without regard to the store: no lookup happens. */
  lemma RejectedTokenIgnoresStore(users: Users, others: Users, decode: string -> Option<string>, token: string)
    requires !IsTruthy(decode(token))
    ensures GetCurrentUser(users, decode, token) == GetCurrentUser(others, decode, token)
    ensures StatusCode(GetCurrentUser(users, decode, token)) == 401
  {
  }

  /** A token whose subject is the text form of a stored id authenticates exactly that row. */
  lemma IssuedSubjectAuthenticates(users: Users, decode: string -> Option<string>, token: string, id: Uuid)
    requires id in users && decode(token) == Some(UuidToString(id))
    ensures GetCurrentUser(users, decode, token) == Authenticated(users[id])
  {
  }

  /** A subject that names no stored row is "User not found", also 401. */
  lemma UnknownSubjectIsUnauthorized(users: Users, decode: string -> Option<string>, token: string)
    requires IsTruthy(decode(token))
    requires forall id :: id in users ==> UuidToString(id) != decode(token).value
    ensures GetCurrentUser(users, decode, token) == Unauthorized(UserNotFoundDetail)
  {
  }

  /** Missing credentials are 403; a garbled token, which the decoder rejects, is 401. */
  lemma MissingHeaderVersusGarbledToken(users: Users, decode: string -> Option<string>, garbled: string)
    requires decode(garbled).None?
    ensures StatusCode(Authenticate(users, decode, None)) == 403
    ensures Authenticate(users, decode, Some(garbled)) == Unauthorized(InvalidTokenDetail)
  {
  }
}
