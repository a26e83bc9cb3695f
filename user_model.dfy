/**
 * The `users` table (src/models/user.py): the `User` record with its column
 * constraints, and the `GUID` column type that stores a UUID natively on
 * PostgreSQL and as CHAR(36) text on every other dialect.
 */
module UserModel {
  import opened Wrappers
  import opened HexText

  /** A UUID as its 32 hexadecimal nibbles (128 bits). */
  type Uuid = u: seq<Nibble> | |u| == 32 witness seq(32, _ => 0)

  /** A point in time, as the database's `now()` reports it. */
  type Timestamp = int

  /** Declared lengths of the String columns. */
  const EmailMaxLength := 225
  const PasswordHashMaxLength := 255
  const NameMaxLength := 120
  const BioMaxLength := 500

  /** One row of `users`; only `bio` is nullable. */
  datatype User = User(
    id: Uuid,
    email: string,
    passwordHash: string,
    name: string,
    bio: Option<string>,
    createdAt: Timestamp,
    updatedAt: Timestamp)

  /** The row respects the declared column lengths. */
  predicate FitsColumns(u: User) {
    && |u.email| <= EmailMaxLength
    && |u.passwordHash| <= PasswordHashMaxLength
    && |u.name| <= NameMaxLength
    && (u.bio.Some? ==> |u.bio.value| <= BioMaxLength)
  }

  /** The canonical text form, `str(uuid)`: 8-4-4-4-12 lower-case digits. */
  function UuidToString(u: Uuid): (s: string)
    ensures |s| == 36
    ensures forall i :: 0 <= i < 36 ==> (s[i] == '-' <==> i in {8, 13, 18, 23})
    ensures forall i :: 0 <= i < 36 && s[i] != '-' ==> IsLowerHexChar(s[i])
  {
    Hex(u[..8]) + "-" + Hex(u[8..12]) + "-" + Hex(u[12..16]) + "-" + Hex(u[16..20]) + "-" + Hex(u[20..])
  }

  function WithoutDashes(s: string): (r: string)
    ensures |r| <= |s|
    ensures forall i :: 0 <= i < |r| ==> r[i] != '-'
  {
    if s == [] then [] else (if s[0] == '-' then [] else [s[0]]) + WithoutDashes(s[1..])
  }

  /**
   * `uuid.UUID(text)`: the dashes are dropped and exactly 32 hexadecimal
   * digits, of either case, must remain; anything else is a ValueError (None).
   */
  function ParseUuid(s: string): Option<Uuid> {
    var digits := WithoutDashes(s);
    if |digits| != 32 then None
    else match ParseHex(digits)
      case Some(ns) => Some(ns)
      case None => None
  }

  lemma {:induction false} WithoutDashesAppend(a: string, b: string)
    ensures WithoutDashes(a + b) == WithoutDashes(a) + WithoutDashes(b)
  {
    if a == [] {
      assert a + b == b;
    } else {
      assert (a + b)[0] == a[0] && (a + b)[1..] == a[1..] + b;
      WithoutDashesAppend(a[1..], b);
    }
  }

  lemma {:induction false} WithoutDashesOfHex(ns: seq<Nibble>)
    ensures WithoutDashes(Hex(ns)) == Hex(ns)
  {
    if ns != [] {
      var s := Hex(ns);
      assert s[1..] == Hex(ns[1..]);
      WithoutDashesOfHex(ns[1..]);
      assert [s[0]] + s[1..] == s;
    }
  }

  /** Parsing the canonical text form gives the UUID back. */
  lemma ParseUuidToString(u: Uuid)
    ensures ParseUuid(UuidToString(u)) == Some(u)
  {
    var a, b, c, d, e := Hex(u[..8]), Hex(u[8..12]), Hex(u[12..16]), Hex(u[16..20]), Hex(u[20..]);
    WithoutDashesAppend(a + "-" + b + "-" + c + "-" + d + "-", e);
    WithoutDashesAppend(a + "-" + b + "-" + c + "-" + d, "-");
    WithoutDashesAppend(a + "-" + b + "-" + c + "-", d);
    WithoutDashesAppend(a + "-" + b + "-" + c, "-");
    WithoutDashesAppend(a + "-" + b + "-", c);
    WithoutDashesAppend(a + "-" + b, "-");
    WithoutDashesAppend(a + "-", b);
    WithoutDashesAppend(a, "-");
    WithoutDashesOfHex(u[..8]);
    WithoutDashesOfHex(u[8..12]);
    WithoutDashesOfHex(u[12..16]);
    WithoutDashesOfHex(u[16..20]);
    WithoutDashesOfHex(u[20..]);
    HexAppend(u[..8], u[8..12]);
    HexAppend(u[..12], u[12..16]);
    HexAppend(u[..16], u[16..20]);
    HexAppend(u[..20], u[20..]);
    assert u[..8] + u[8..12] == u[..12];
    assert u[..12] + u[12..16] == u[..16];
    assert u[..16] + u[16..20] == u[..20];
    assert u[..20] + u[20..] == u;
    assert WithoutDashes(UuidToString(u)) == Hex(u);
    ParseHexOfHex(u);
  }

  /** Distinct UUIDs have distinct text forms. */
  lemma UuidToStringInjective(u: Uuid, v: Uuid)
    requires UuidToString(u) == UuidToString(v)
    ensures u == v
  {
    ParseUuidToString(u);
    ParseUuidToString(v);
  }

  /** The SQL dialect of the connection; only its name matters here. */
  datatype Dialect = Dialect(name: string)

  const PostgreSql := "postgresql"

  /** A value that crosses the `GUID` column: SQL NULL, a `uuid.UUID` object, or text. */
  datatype ColumnValue = Null | UuidValue(uuid: Uuid) | TextValue(text: string)

  /** `uuid.UUID(...)` failed: "badly formed hexadecimal UUID string". */
  datatype ValueError = BadlyFormedUuid

  /**
   * `GUID.process_bind_param`: NULL stays NULL; PostgreSQL takes the value
   * as it is; other dialects receive a UUID as its text form and any other
   * value unchanged.
   */
  function BindParam(value: ColumnValue, dialect: Dialect): (r: ColumnValue)
    ensures r.Null? <==> value.Null?
    ensures dialect.name == PostgreSql ==> r == value
    ensures dialect.name != PostgreSql ==> !r.UuidValue?
    ensures value.TextValue? ==> r == value
    ensures dialect.name != PostgreSql && value.UuidValue? ==> r == TextValue(UuidToString(value.uuid))
  {
    if value.Null? then value
    else if dialect.name == PostgreSql then value
    else match value
      case UuidValue(u) => TextValue(UuidToString(u))
      case _ => value
  }

  /**
   * `GUID.process_result_value`: NULL reads as None, a UUID object is
   * returned as it is, and text is parsed as a UUID.
   */
  function ResultValue(value: ColumnValue, dialect: Dialect): (r: Result<Option<Uuid>, ValueError>)
    ensures value.Null? ==> r == Ok(None)
    ensures value.UuidValue? ==> r == Ok(Some(value.uuid))
    ensures r.Err? ==> value.TextValue? && ParseUuid(value.text).None?
    ensures value.TextValue? ==> (r.Err? <==> ParseUuid(value.text).None?) && (r.Ok? ==> r.value == ParseUuid(value.text))
  {
    match value
    case Null => Ok(None)
    case UuidValue(u) => Ok(Some(u))
    case TextValue(t) =>
      match ParseUuid(t)
      case Some(u) => Ok(Some(u))
      case None => Err(BadlyFormedUuid)
  }

  /** A UUID written through the column reads back as itself, on every dialect. */
  lemma GuidRoundTrip(u: Uuid, dialect: Dialect)
    ensures ResultValue(BindParam(UuidValue(u), dialect), dialect) == Ok(Some(u))
  {
    if dialect.name != PostgreSql {
      ParseUuidToString(u);
    }
  }

  /** NULL is NULL in both directions, on every dialect. */
  lemma GuidNullRoundTrip(dialect: Dialect)
    ensures BindParam(Null, dialect) == Null
    ensures ResultValue(Null, dialect) == Ok(None)
  {
  }
}
