/**
 * Profile update (src/services/profile_service.py): PATCH semantics over
 * the two editable fields, then the record is persisted.
 */
module ProfileService {
  import opened Wrappers
  import opened UserModel
  import opened UserRepo

  /** The editable fields; None means "not supplied". */
  datatype UpdateProfileRequest = UpdateProfileRequest(name: Option<string>, bio: Option<string>)

  /**
   * The record after the field assignments: a supplied field replaces the
   * old value, an absent one keeps it, and nothing but `name` and `bio` moves.
   */
  function Patched(user: User, updates: UpdateProfileRequest): (r: User)
    ensures r == user.(name := r.name, bio := r.bio)
    ensures updates.name.Some? ==> r.name == updates.name.value
    ensures updates.name.None? ==> r.name == user.name
    ensures updates.bio.Some? ==> r.bio == updates.bio
    ensures updates.bio.None? ==> r.bio == user.bio
  {
    var named := if updates.name.Some? then user.(name := updates.name.value) else user;
    if updates.bio.Some? then named.(bio := updates.bio) else named
  }

  /** Applying the same update twice gives the same record as applying it once. */
  lemma PatchIdempotent(user: User, updates: UpdateProfileRequest)
    ensures Patched(Patched(user, updates), updates) == Patched(user, updates)
  {
  }

  /** A set bio stays set: None means "not supplied", so this path cannot clear it. */
  lemma BioCannotBeCleared(user: User, updates: UpdateProfileRequest)
    requires user.bio.Some?
    ensures Patched(user, updates).bio.Some?
  {
  }

  /** A name-only update keeps the bio, and a bio-only update keeps the name. */
  lemma SingleFieldUpdates(user: User, name: string, bio: string)
    ensures Patched(user, UpdateProfileRequest(Some(name), None)) == user.(name := name)
    ensures Patched(user, UpdateProfileRequest(None, Some(bio))) == user.(bio := Some(bio))
  {
  }

  /**
   * An empty update of the stored row writes nothing at all: the row,
   * `updated_at` included, is as it was.
   */
  lemma EmptyUpdateChangesNothing(stored: User, now: Timestamp)
    ensures Persisted(stored, Patched(stored, UpdateProfileRequest(None, None)), now) == stored
  {
  }

  /**
   * Sending the same update in two requests, each starting from the row
   * as stored, leaves the row as the first request left it.
   */
  lemma UpdateTwiceIsUpdateOnce(stored: User, updates: UpdateProfileRequest, now: Timestamp, later: Timestamp)
    ensures var once := Persisted(stored, Patched(stored, updates), now);
      Persisted(once, Patched(once, updates), later) == once
  {
  }

  /**
   * `update_profile`: assign the supplied fields on the user record, then
   * persist it (`update_user`) and return the row as read back. Only the
   * row under `user.id` can change, and in it only `name`, `bio` and the
   * `updated_at` stamp. `user` is the row `get_current_user` loaded in the
   * same session, so it is the stored row when that row still exists.
   */
  method UpdateProfile(db: UserStore, user: User, updates: UpdateProfileRequest, now: Timestamp)
    returns (r: Result<User, StoreError>)
    requires db.Valid()
    requires user.id in db.users ==> db.users[user.id] == user
    modifies db
    ensures db.Valid()
    ensures r.Ok? <==> UpdateError(old(db.users), Patched(user, updates)).None?
    ensures r.Ok? ==>
      && r.value == Persisted(old(db.users)[user.id], Patched(user, updates), now)
      && db.users == old(db.users)[user.id := r.value]
    ensures r.Ok? ==> r.value.(name := user.name, bio := user.bio, updatedAt := user.updatedAt) == user
    ensures r.Ok? ==>
      var before := old(db.users)[user.id];
      && r.value.id == before.id && r.value.email == before.email
      && r.value.passwordHash == before.passwordHash && r.value.createdAt == before.createdAt
    ensures r.Err? ==> db.users == old(db.users)
  {
    var u := user;
    if updates.name.Some? {
      u := u.(name := updates.name.value);
    }
    if updates.bio.Some? {
      u := u.(bio := updates.bio);
    }
    r := db.UpdateUser(u, now);
  }
}
