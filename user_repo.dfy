/**
 * The user repository (src/repositories/user_repo.py) over the `users`
 * table, held as a map from id to row. Queries are functions of the map;
 * inserts and updates are methods of `UserStore`, which owns the table.
 */
module UserRepo {
  import opened Wrappers
  import opened UserModel

  type Users = map<Uuid, User>

  /** Each row is stored under its own primary key. */
  predicate KeyedById(users: Users) {
    forall id :: id in users ==> users[id].id == id
  }

  /** The unique constraint on `email`. */
  predicate UniqueEmails(users: Users) {
    forall a, b :: a in users && b in users && users[a].email == users[b].email ==> a == b
  }

  /** What the database guarantees of every state of the table: primary key, unique email, column lengths. */
  predicate TableInvariant(users: Users)
    ensures TableInvariant(users) ==>
      forall a, b :: a in users && b in users && users[a].email == users[b].email ==> users[a] == users[b]
  {
    && KeyedById(users)
    && UniqueEmails(users)
    && forall id :: id in users ==> FitsColumns(users[id])
  }

  predicate EmailTaken(users: Users, email: string) {
    exists id :: id in users && users[id].email == email
  }

  /**
   * `get_user_by_email`: the row whose email equals the argument exactly
   * (case-sensitive), or None. The unique constraint makes it the only one.
   */
  function GetUserByEmail(users: Users, email: string): (r: Option<User>)
    requires UniqueEmails(users)
    ensures r.None? <==> !EmailTaken(users, email)
    ensures r.Some? ==> r.value.email == email
    ensures forall id :: id in users && users[id].email == email ==> r == Some(users[id])
  {
    if EmailTaken(users, email) then
      var id :| id in users && users[id].email == email;
      Some(users[id])
    else
      None
  }

  /**
   * Lookup by the text form of an id, as a subject claim carries it. The
   * text is bound as it is, so on the CHAR(36) column it matches a row
   * exactly when it is that row's canonical `str(uuid)`.
   */
  function GetUserByIdText(users: Users, idText: string): (r: Option<User>)
    ensures r.None? <==> forall id :: id in users ==> UuidToString(id) != idText
    ensures forall id :: id in users && UuidToString(id) == idText ==> r == Some(users[id])
  {
    TextNamesItsParse(idText);
    match ParseUuid(idText)
    case Some(id) => if id in users && UuidToString(id) == idText then Some(users[id]) else None
    case None => None
  }

  lemma TextNamesItsParse(idText: string)
    ensures forall id: Uuid :: UuidToString(id) == idText ==> ParseUuid(idText) == Some(id)
  {
    forall id: Uuid | UuidToString(id) == idText {
      ParseUuidToString(id);
    }
  }

  /** The database rejects a write: a constraint it enforces, or a row that is gone. */
  datatype StoreError = DuplicateId | DuplicateEmail | ValueTooLong | RowMissing

  /**
   * The row `create_user` builds: the given email, hash and name, no bio,
   * and both timestamps filled by the server's `now()`.
   */
  function NewUser(id: Uuid, email: string, passwordHash: string, name: string, now: Timestamp): (u: User)
    ensures u.bio.None? && u.createdAt == u.updatedAt == now
  {
    User(id, email, passwordHash, name, None, now, now)
  }

  /** The constraint an INSERT of `row` violates, if any. */
  function InsertError(users: Users, row: User): (e: Option<StoreError>)
    ensures e.None? <==> row.id !in users && !EmailTaken(users, row.email) && FitsColumns(row)
  {
    if row.id in users then Some(DuplicateId)
    else if EmailTaken(users, row.email) then Some(DuplicateEmail)
    else if !FitsColumns(row) then Some(ValueTooLong)
    else None
  }

  /** An insert the database accepts keeps the table's invariant and changes no other row. */
  lemma InsertKeepsInvariant(users: Users, row: User)
    requires TableInvariant(users) && InsertError(users, row).None?
    ensures TableInvariant(users[row.id := row])
    ensures |users[row.id := row]| == |users| + 1
    ensures forall id :: id in users ==> id in users[row.id := row] && users[row.id := row][id] == users[id]
  {
  }

  /** After an insert, looking up its email finds the new row. */
  lemma EmailLookupAfterInsert(users: Users, row: User)
    requires TableInvariant(users) && InsertError(users, row).None?
    ensures GetUserByEmail(users[row.id := row], row.email) == Some(row)
  {
    InsertKeepsInvariant(users, row);
    var after := users[row.id := row];
    assert row.id in after && after[row.id].email == row.email;
  }

  /** The constraint that writing `u` over its stored row violates, if any. */
  function UpdateError(users: Users, u: User): (e: Option<StoreError>)
    ensures e.None? <==>
      u.id in users && FitsColumns(u) && forall id :: id in users && users[id].email == u.email ==> id == u.id
  {
    if u.id !in users then Some(RowMissing)
    else if exists id :: id in users && users[id].email == u.email && id != u.id then Some(DuplicateEmail)
    else if !FitsColumns(u) then Some(ValueTooLong)
    else None
  }

  /**
   * The row after flushing `u` over `stored`: an UPDATE is issued, and
   * `updated_at` refreshed by `onupdate`, only when some column differs.
   */
  function Persisted(stored: User, u: User, now: Timestamp): (r: User)
    ensures r.id == u.id && r.email == u.email && r.passwordHash == u.passwordHash
    ensures r.name == u.name && r.bio == u.bio && r.createdAt == u.createdAt
    ensures u.(updatedAt := stored.updatedAt) == stored ==> r == stored
    ensures u.(updatedAt := stored.updatedAt) != stored ==> r.updatedAt == now
  {
    if u.(updatedAt := stored.updatedAt) == stored then stored else u.(updatedAt := now)
  }

  /** Persisting a row that was just persisted changes nothing, whatever the clock says. */
  lemma PersistTwice(stored: User, u: User, now: Timestamp, later: Timestamp)
    ensures Persisted(Persisted(stored, u, now), u, later) == Persisted(stored, u, now)
  {
  }

  /** An update the database accepts keeps the table's invariant and changes no other row. */
  lemma UpdateKeepsInvariant(users: Users, u: User, now: Timestamp)
    requires TableInvariant(users) && UpdateError(users, u).None?
    ensures var row := Persisted(users[u.id], u, now);
      TableInvariant(users[u.id := row]) && users[u.id := row].Keys == users.Keys
  {
  }

  /** The database's `users` table, changed in place by inserts and updates. */
  class UserStore {
    var users: Users

    predicate Valid()
      reads this
    {
      TableInvariant(users)
    }

    constructor ()
      ensures Valid() && users == map[]
    {
      users := map[];
    }

    /**
     * `create_user`: insert a row for the given email, hash and name under
     * the freshly drawn id `newId` (the `uuid.uuid4()` default), and return
     * it as read back. A violated constraint leaves the table as it was.
     */
    method CreateUser(email: string, passwordHash: string, name: string, newId: Uuid, now: Timestamp)
      returns (r: Result<User, StoreError>)
      requires Valid()
      modifies this
      ensures Valid()
      ensures r.Ok? <==> newId !in old(users) && !EmailTaken(old(users), email)
                         && FitsColumns(NewUser(newId, email, passwordHash, name, now))
      ensures r.Ok? ==> r.value == NewUser(newId, email, passwordHash, name, now)
                        && users == old(users)[newId := r.value]
      ensures r.Err? ==> Some(r.error) == InsertError(old(users), NewUser(newId, email, passwordHash, name, now))
                         && users == old(users)
    {
      var row := NewUser(newId, email, passwordHash, name, now);
      var e := InsertError(users, row);
      if e.Some? {
        return Err(e.value);
      }
      InsertKeepsInvariant(users, row);
      users := users[row.id := row];
      r := Ok(row);
    }

    /**
     * Persist `u` over the stored row with the same id and return the row
     * as read back. A refused write leaves the table as it was.
     */
    method UpdateUser(u: User, now: Timestamp) returns (r: Result<User, StoreError>)
      requires Valid()
      modifies this
      ensures Valid()
      ensures r.Ok? <==> UpdateError(old(users), u).None?
      ensures r.Ok? ==> r.value == Persisted(old(users)[u.id], u, now)
                        && users == old(users)[u.id := r.value]
      ensures r.Err? ==> Some(r.error) == UpdateError(old(users), u) && users == old(users)
    {
      var e := UpdateError(users, u);
      if e.Some? {
        return Err(e.value);
      }
      UpdateKeepsInvariant(users, u, now);
      var row := Persisted(users[u.id], u, now);
      users := users[u.id := row];
      r := Ok(row);
    }
  }
}
