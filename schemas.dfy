/**
 * Request and response schemas (src/schemas/user.py): the length bounds a
 * registration must meet, and the public projection of a user.
 */
module Schemas {
  import opened Wrappers
  import UserModel
  import Security
  import Utf8

  const PasswordMinLength := 6
  const PasswordMaxLength := 64
  const NameMinLength := 2
  const NameMaxLength := 120
  const BearerTokenType := "bearer"

  /** A registration body that passed validation. */
  datatype RegisterRequest = RegisterRequest(email: string, password: string, name: string)

  datatype Field = EmailField | PasswordField | NameField

  /** pydantic reports every field that fails, not only the first. */
  datatype ValidationError = ValidationError(fields: set<Field>)

  predicate LengthWithin(s: string, min: nat, max: nat) {
    min <= |s| <= max
  }

  /**
   * `RegisterRequest` validation. The email is checked and rewritten by
   * pydantic's `EmailStr`, foreign code passed in as `emailStr`: None for an
   * address it rejects, else the address it keeps (whitespace stripped, a
   * `Name <addr>` form reduced to the address, the domain lower-cased).
   * The length bounds are 6 to 64 characters of password and 2 to 120 of
   * name, bounds included.
   */
  function ValidateRegisterRequest(emailStr: string -> Option<string>, email: string, password: string, name: string)
    : (r: Result<RegisterRequest, ValidationError>)
    ensures r.Ok? <==>
      emailStr(email).Some? && PasswordMinLength <= |password| <= PasswordMaxLength && NameMinLength <= |name| <= NameMaxLength
    ensures r.Ok? ==> r.value == RegisterRequest(emailStr(email).value, password, name)
    ensures r.Err? ==> (EmailField in r.error.fields <==> emailStr(email).None?)
    ensures r.Err? ==> (PasswordField in r.error.fields <==> !(PasswordMinLength <= |password| <= PasswordMaxLength))
    ensures r.Err? ==> (NameField in r.error.fields <==> !(NameMinLength <= |name| <= NameMaxLength))
  {
    var address := emailStr(email);
    var bad :=
      (if address.Some? then {} else {EmailField})
      + (if LengthWithin(password, PasswordMinLength, PasswordMaxLength) then {} else {PasswordField})
      + (if LengthWithin(name, NameMinLength, NameMaxLength) then {} else {NameField});
    if bad == {} then Ok(RegisterRequest(address.value, password, name)) else Err(ValidationError(bad))
  }

  /** "123" is too short a password, whatever the email. */
  lemma ShortPasswordRejected(emailStr: string -> Option<string>, email: string, name: string)
    ensures ValidateRegisterRequest(emailStr, email, "123", name).Err?
    ensures PasswordField in ValidateRegisterRequest(emailStr, email, "123", name).error.fields
  {
  }

  /** Every name that passes validation fits the `name` column. */
  lemma ValidNameFitsColumn(emailStr: string -> Option<string>, email: string, password: string, name: string)
    requires ValidateRegisterRequest(emailStr, email, password, name).Ok?
    ensures |ValidateRegisterRequest(emailStr, email, password, name).value.name| <= UserModel.NameMaxLength
  {
  }

  /** An ASCII password that passes validation is at most 64 bytes, so it is never pre-hashed. */
  lemma ValidAsciiPasswordNotPrehashed(
    scheme: Security.Scheme, emailStr: string -> Option<string>, email: string, password: string, name: string)
    requires ValidateRegisterRequest(emailStr, email, password, name).Ok?
    requires Utf8.IsAscii(password)
    ensures Security.NormalizePassword(scheme, password) == password
  {
    Utf8.AsciiEncodeLength(password);
  }

  /** The 64-character bound counts characters: a valid password of 37 'é' is 74 bytes and is pre-hashed. */
  lemma ValidPasswordMayBePrehashed(scheme: Security.Scheme, emailStr: string -> Option<string>, email: string)
    requires emailStr(email).Some?
    ensures var p := seq(37, _ => 'é');
      && ValidateRegisterRequest(emailStr, email, p, "A name").Ok?
      && Security.NormalizePassword(scheme, p) != p
  {
    Utf8.TwoByteEncodeLength(seq(37, _ => 'é'));
  }

  /** `UserPublic`: what a client sees of a user. */
  datatype UserPublic = UserPublic(
    id: UserModel.Uuid,
    email: string,
    name: string,
    createdAt: UserModel.Timestamp,
    updatedAt: UserModel.Timestamp)

  /** The projection onto `UserPublic`; the password hash has no field there. */
  function ToPublic(u: UserModel.User): (p: UserPublic)
    ensures p.id == u.id && p.email == u.email && p.name == u.name
    ensures p.createdAt == u.createdAt && p.updatedAt == u.updatedAt
  {
    UserPublic(u.id, u.email, u.name, u.createdAt, u.updatedAt)
  }

  /** Nothing of the password hash (nor, as the schema is written, of the bio) reaches the public view. */
  lemma PublicViewHidesHash(u: UserModel.User, otherHash: string, otherBio: Option<string>)
    ensures ToPublic(u.(passwordHash := otherHash, bio := otherBio)) == ToPublic(u)
  {
  }

  datatype RegisterResponse = RegisterResponse(accessToken: string, tokenType: string, user: UserPublic)

  /** A `RegisterResponse` built from a token and a user, with `token_type` left at its default. */
  function NewRegisterResponse(token: string, user: UserModel.User): (r: RegisterResponse)
    ensures r.tokenType == "bearer"
    ensures r.accessToken == token && r.user == ToPublic(user)
  {
    RegisterResponse(token, BearerTokenType, ToPublic(user))
  }
}
