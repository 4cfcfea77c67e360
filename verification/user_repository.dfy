/** The `users` table of internal/repository/user.go, as an abstract map from id to row.
    SQL text, the driver and the connection pool are not modelled; what the driver may
    do wrong to one statement is a `DbFault` parameter, and `time.Now()` is `now`. */
module UserRepository {
  import opened Results
  import opened Model

  /** The table: rows keyed by their AUTO_INCREMENT id, and the id the next INSERT receives. */
  datatype Table = Table(rows: map<int, User>, nextId: int)
  {
    /** Every row sits under its own id, and every id was issued before `nextId`. */
    ghost predicate Valid()
    {
      && nextId >= 1
      && forall id :: id in rows ==> 1 <= id < nextId && rows[id].id == id
    }
  }

  type Store = t: Table | t.Valid() witness Table(map[], 1)

  const EmptyStore: Store := Table(map[], 1)

  /** What the driver does with one statement: run it, fail to run it (`ExecContext` or
      `Scan` errors), or run it and then fail to report its result (`LastInsertId` or
      `RowsAffected` errors, after the write has taken effect). */
  datatype DbFault = NoFault | ExecFails(cause: string) | ResultFails(cause: string)

  /** The WHERE clause of a single-row SELECT. */
  datatype Column = IdIs(id: int) | UsernameIs(username: string) | EmailIs(email: string)

  predicate Selects(c: Column, u: User)
  {
    match c
    case IdIs(id) => u.id == id
    case UsernameIs(name) => u.username == name
    case EmailIs(email) => u.email == email
  }

  /** Two rows agree on every column `Create` writes from the caller's record. */
  predicate SameContent(a: User, b: User)
  {
    && a.username == b.username
    && a.nickname == b.nickname
    && a.email == b.email
    && a.password == b.password
    && a.avatar == b.avatar
    && a.description == b.description
    && a.facePhoto == b.facePhoto
    && a.role == b.role
  }

  /** The first row at or after id `from`, in primary-key order, that `c` selects. */
  function ScanFrom(s: Store, c: Column, from: int): (r: Option<User>)
    decreases s.nextId - from
    ensures r.Some? ==> from <= r.value.id && r.value.id in s.rows && s.rows[r.value.id] == r.value && Selects(c, r.value)
    ensures r.Some? ==> forall id :: from <= id < r.value.id && id in s.rows ==> !Selects(c, s.rows[id])
    ensures r.None? ==> forall id :: from <= id && id in s.rows ==> !Selects(c, s.rows[id])
  {
    if from >= s.nextId then None
    else if from in s.rows && Selects(c, s.rows[from]) then Some(s.rows[from])
    else ScanFrom(s, c, from + 1)
  }

  /** The row `QueryRowContext(...).Scan` yields: of the rows `c` selects, the one with
      the least id; `None` is `sql.ErrNoRows`. */
  function FirstRow(s: Store, c: Column): (r: Option<User>)
    ensures r.Some? ==> r.value.id in s.rows && s.rows[r.value.id] == r.value && Selects(c, r.value)
    ensures r.Some? ==> forall id :: id in s.rows && id < r.value.id ==> !Selects(c, s.rows[id])
    ensures r.None? <==> forall id :: id in s.rows ==> !Selects(c, s.rows[id])
  {
    ScanFrom(s, c, 1)
  }

  /** A lookup: no matching row is `Ok(None)`, the Go `(nil, nil)`, not an error. */
  function Lookup(s: Store, c: Column, fault: DbFault, context: string): Result<Option<User>>
  {
    if fault.NoFault? then Ok(FirstRow(s, c))
    else Err(context + fault.cause)
  }

  function GetByID(s: Store, id: int, fault: DbFault): (r: Result<Option<User>>)
    ensures fault.NoFault? ==> r == Ok(if id in s.rows then Some(s.rows[id]) else None)
    ensures !fault.NoFault? ==> r == Err("failed to get user by id: " + fault.cause)
  {
    Lookup(s, IdIs(id), fault, "failed to get user by id: ")
  }

  function GetByUsername(s: Store, username: string, fault: DbFault): (r: Result<Option<User>>)
    ensures r == Ok(None) <==> fault.NoFault? && forall id :: id in s.rows ==> s.rows[id].username != username
    ensures r.Ok? && r.value.Some? ==>
      var u := r.value.value;
      && u.id in s.rows && s.rows[u.id] == u && u.username == username
      && forall id :: id in s.rows && id < u.id ==> s.rows[id].username != username
    ensures r.Err? <==> !fault.NoFault?
    ensures !fault.NoFault? ==> r.message == "failed to get user by username: " + fault.cause
  {
    Lookup(s, UsernameIs(username), fault, "failed to get user by username: ")
  }

  function GetByEmail(s: Store, email: string, fault: DbFault): (r: Result<Option<User>>)
    ensures r == Ok(None) <==> fault.NoFault? && forall id :: id in s.rows ==> s.rows[id].email != email
    ensures r.Ok? && r.value.Some? ==>
      var u := r.value.value;
      && u.id in s.rows && s.rows[u.id] == u && u.email == email
      && forall id :: id in s.rows && id < u.id ==> s.rows[id].email != email
    ensures r.Err? <==> !fault.NoFault?
    ensures !fault.NoFault? ==> r.message == "failed to get user by email: " + fault.cause
  {
    Lookup(s, EmailIs(email), fault, "failed to get user by email: ")
  }

  /** INSERT of `u` (its own id is ignored); the row gets the next AUTO_INCREMENT id and
      both timestamps `now`. On success the issued id is returned, as Go writes it into
      `user.ID`. */
  function Create(s: Store, u: User, now: Time, fault: DbFault): (r: (Store, Result<int>))
    ensures fault.ExecFails? ==> r == (s, Err("failed to create user: " + fault.cause))
    ensures !fault.ExecFails? ==>
      var id := s.nextId;
      && id !in s.rows
      && r.0.rows.Keys == s.rows.Keys + {id}
      && r.0.rows[id].id == id
      && SameContent(r.0.rows[id], u)
      && r.0.rows[id].createdAt == now && r.0.rows[id].updatedAt == now
    ensures forall id :: id in s.rows ==> id in r.0.rows && r.0.rows[id] == s.rows[id]
    ensures fault.NoFault? ==> r.1 == Ok(s.nextId)
    ensures fault.ResultFails? ==> r.1 == Err("failed to get last insert id: " + fault.cause)
  {
    if fault.ExecFails? then (s, Err("failed to create user: " + fault.cause))
    else
      var id := s.nextId;
      var s': Store := Table(s.rows[id := u.(id := id, createdAt := now, updatedAt := now)], id + 1);
      if fault.ResultFails? then (s', Err("failed to get last insert id: " + fault.cause))
      else (s', Ok(id))
  }

  /** The SET clause of `Update` applied to the row `WHERE id = u.id`, if there is one. */
  function WriteProfile(s: Store, u: User, now: Time): Store
  {
    if u.id in s.rows then
      var prior := s.rows[u.id];
      var row := prior.(nickname := u.nickname, avatar := u.avatar, description := u.description,
                      facePhoto := u.facePhoto, updatedAt := now);
      Table(s.rows[u.id := row], s.nextId)
    else s
  }

  /** The SET clause of `UpdatePassword` applied to the row `WHERE id = userID`, if there is one. */
  function WritePassword(s: Store, userID: int, hashed: string, now: Time): Store
  {
    if userID in s.rows then
      var row := s.rows[userID].(password := hashed, updatedAt := now);
      Table(s.rows[userID := row], s.nextId)
    else s
  }

  /** `after` is `before` with only the profile columns rewritten from `u` and `updated_at` set. */
  predicate ProfileWritten(before: User, after: User, u: User, now: Time)
  {
    && after.nickname == u.nickname && after.avatar == u.avatar
    && after.description == u.description && after.facePhoto == u.facePhoto
    && after.updatedAt == now
    && after.id == before.id && after.username == before.username && after.email == before.email
    && after.password == before.password && after.role == before.role
    && after.createdAt == before.createdAt
  }

  function Update(s: Store, u: User, now: Time, fault: DbFault): (r: (Store, Result<()>))
    ensures r.0.rows.Keys == s.rows.Keys && r.0.nextId == s.nextId
    ensures forall id :: id in s.rows && id != u.id ==> r.0.rows[id] == s.rows[id]
    ensures !fault.ExecFails? && u.id in s.rows ==> ProfileWritten(s.rows[u.id], r.0.rows[u.id], u, now)
    ensures fault.ExecFails? || u.id !in s.rows ==> r.0 == s
    ensures fault.NoFault? ==> (r.1.Ok? <==> u.id in s.rows)
    ensures fault.NoFault? && u.id !in s.rows ==> r.1 == Err("user not found")
    ensures fault.ExecFails? ==> r.1 == Err("failed to update user: " + fault.cause)
    ensures fault.ResultFails? ==> r.1 == Err("failed to get rows affected: " + fault.cause)
  {
    if fault.ExecFails? then (s, Err("failed to update user: " + fault.cause))
    else
      var s' := WriteProfile(s, u, now);
      if fault.ResultFails? then (s', Err("failed to get rows affected: " + fault.cause))
      else if u.id !in s.rows then (s', Err("user not found"))
      else (s', Ok(()))
  }

  function UpdatePassword(s: Store, userID: int, hashed: string, now: Time, fault: DbFault): (r: (Store, Result<()>))
    ensures r.0.rows.Keys == s.rows.Keys && r.0.nextId == s.nextId
    ensures forall id :: id in s.rows && id != userID ==> r.0.rows[id] == s.rows[id]
    ensures !fault.ExecFails? && userID in s.rows ==>
      r.0.rows[userID] == s.rows[userID].(password := hashed, updatedAt := now)
    ensures fault.ExecFails? || userID !in s.rows ==> r.0 == s
    ensures fault.NoFault? ==> (r.1.Ok? <==> userID in s.rows)
    ensures fault.NoFault? && userID !in s.rows ==> r.1 == Err("user not found")
    ensures fault.ExecFails? ==> r.1 == Err("failed to update password: " + fault.cause)
    ensures fault.ResultFails? ==> r.1 == Err("failed to get rows affected: " + fault.cause)
  {
    if fault.ExecFails? then (s, Err("failed to update password: " + fault.cause))
    else
      var s' := WritePassword(s, userID, hashed, now);
      if fault.ResultFails? then (s', Err("failed to get rows affected: " + fault.cause))
      else if userID !in s.rows then (s', Err("user not found"))
      else (s', Ok(()))
  }
}
