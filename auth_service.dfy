/**
 * Registration (src/services/auth_service.py): reject a taken email, else
 * hash the password, insert the row and issue a token for its id. Token
 * issuing (`create_access_token`, which reads the clock and signs) is the
 * foreign `issueToken` function passed in.
 */
module AuthService {
  import opened Wrappers
  import opened UserModel
  import opened UserRepo
  import opened Security
  import Deps

  datatype RegisterError =
    | EmailAlreadyExists               // mapped to 409 by the route
    | StoreFailure(cause: StoreError)  // a database error, propagated unchanged

  /**
   * `register_user`. The existence check comes first: a taken email fails
   * with `EmailAlreadyExists` and the table is untouched. Otherwise the row
   * holds `hash_password(password)`, and the token is issued for `str(id)`.
   */
  method RegisterUser(
    db: UserStore, scheme: Scheme, issueToken: string -> string,
    email: string, password: string, name: string,
    salt: Salt, newId: Uuid, now: Timestamp)
    returns (r: Result<(string, User), RegisterError>)
    requires db.Valid()
    modifies db
    ensures db.Valid()
    ensures EmailTaken(old(db.users), email) ==> r == Err(EmailAlreadyExists) && db.users == old(db.users)
    ensures r.Ok? ==>
      var user := NewUser(newId, email, HashPassword(scheme, password, salt), name, now);
      && r.value == (issueToken(UuidToString(newId)), user)
      && newId !in old(db.users)
      && db.users == old(db.users)[newId := user]
    ensures r.Err? ==> db.users == old(db.users)
    ensures !EmailTaken(old(db.users), email) ==>
      var row := NewUser(newId, email, HashPassword(scheme, password, salt), name, now);
      (r.Ok? <==> InsertError(old(db.users), row).None?)
      && (r.Err? ==> r.error == StoreFailure(InsertError(old(db.users), row).value))
  {
    var existing := GetUserByEmail(db.users, email);
    if existing.Some? {
      return Err(EmailAlreadyExists);
    }
    var passwordHash := HashPassword(scheme, password, salt);
    var created := db.CreateUser(email, passwordHash, name, newId, now);
    if created.Err? {
      return Err(StoreFailure(created.error));
    }
    var user := created.value;
    var token := issueToken(UuidToString(user.id));
    r := Ok((token, user));
  }

  /**
   * Two registrations with one email: when the first is accepted by the
   * database, the second fails with a conflict and leaves the table as the
   * first one left it.
   */
  method RegisterTwice(
    db: UserStore, scheme: Scheme, issueToken: string -> string, email: string,
    password1: string, name1: string, salt1: Salt, id1: Uuid, now1: Timestamp,
    password2: string, name2: string, salt2: Salt, id2: Uuid, now2: Timestamp)
    returns (first: Result<(string, User), RegisterError>, second: Result<(string, User), RegisterError>)
    requires db.Valid()
    requires InsertError(db.users, NewUser(id1, email, HashPassword(scheme, password1, salt1), name1, now1)).None?
    modifies db
    ensures first.Ok? && first.value.1.email == email
    ensures second == Err(EmailAlreadyExists)
    ensures db.users == old(db.users)[id1 := first.value.1]
  {
    first := RegisterUser(db, scheme, issueToken, email, password1, name1, salt1, id1, now1);
    assert id1 in db.users && db.users[id1].email == email;
    second := RegisterUser(db, scheme, issueToken, email, password2, name2, salt2, id2, now2);
  }

  /**
   * When the decoder gives back the subject a registration's token was
   * issued for, that token authenticates the new user. (No such law of
   * the decoder is assumed anywhere else.)
   */
  lemma RegisteredUserAuthenticates(users: Users, row: User, decode: string -> Option<string>, token: string)
    requires TableInvariant(users) && InsertError(users, row).None?
    requires decode(token) == Some(UuidToString(row.id))
    ensures Deps.GetCurrentUser(users[row.id := row], decode, token) == Deps.Authenticated(row)
  {
  }
}
