/** Profile reading and editing of internal/service/user.go. The collection, status and
    submission listings of that file return constant empty envelopes and are not part
    of this model. */
module UserService {
  import opened Results
  import opened Model
  import opened UserRepository

  /** Go's `(*model.User, error)` when both halves may be set at once. */
  datatype Reply = Reply(user: Option<User>, error: Option<string>)

  /** How a call ended: normally, or by a nil-pointer dereference. */
  datatype Run<T> = Returned(value: T) | Panicked

  function GetProfile(s: Store, userID: int, fault: DbFault): (r: Result<Option<User>>)
    ensures fault.NoFault? ==> r == Ok(if userID in s.rows then Some(s.rows[userID]) else None)
    ensures !fault.NoFault? ==> r.Err?
  {
    GetByID(s, userID, fault)
  }

  /** A stored field after the merge: a non-empty request field wins. */
  function Pick(requested: string, stored: string): string
  {
    if requested != "" then requested else stored
  }

  /** The field-wise merge of `UpdateProfile`. */
  function Merge(u: User, req: UpdateProfileRequest): (r: User)
    ensures req.nickname != "" ==> r.nickname == req.nickname
    ensures req.nickname == "" ==> r.nickname == u.nickname
    ensures req.avatar != "" ==> r.avatar == req.avatar
    ensures req.avatar == "" ==> r.avatar == u.avatar
    ensures req.description != "" ==> r.description == req.description
    ensures req.description == "" ==> r.description == u.description
    ensures req.facePhoto != "" ==> r.facePhoto == req.facePhoto
    ensures req.facePhoto == "" ==> r.facePhoto == u.facePhoto
    ensures r.id == u.id && r.username == u.username && r.email == u.email
    ensures r.password == u.password && r.role == u.role
    ensures r.createdAt == u.createdAt && r.updatedAt == u.updatedAt
  {
    u.(nickname := Pick(req.nickname, u.nickname),
       avatar := Pick(req.avatar, u.avatar),
       description := Pick(req.description, u.description),
       facePhoto := Pick(req.facePhoto, u.facePhoto))
  }

  lemma MergeIdempotent(u: User, req: UpdateProfileRequest)
    ensures Merge(Merge(u, req), req) == Merge(u, req)
  {
  }

  lemma MergeEmptyRequest(u: User)
    ensures Merge(u, UpdateProfileRequest("", "", "", "")) == u
  {
  }

  /** `UpdateProfile` exactly as the source has it: a missing user makes `GetByID`
      return `(nil, nil)`, and the merge or the call to `Update` then dereferences nil. */
  function UpdateProfileAsWritten(s: Store, userID: int, req: UpdateProfileRequest, now: Time,
                                  get: DbFault, update: DbFault): (r: Run<(Store, Reply)>)
    ensures r.Panicked? <==> get.NoFault? && userID !in s.rows
  {
    var found := GetByID(s, userID, get);
    if found.Err? then Returned((s, Reply(None, Some(found.message))))
    else if found.value.None? then Panicked
    else
      var user := Merge(found.value.value, req);
      var (s', status) := Update(s, user, now, update);
      Returned((s', Reply(Some(user), if status.Ok? then None else Some(status.message))))
  }

  /** The nil dereference: any request for a user id without a row. */
  lemma UpdateProfileAsWrittenPanicsOnMissingUser(s: Store, req: UpdateProfileRequest, now: Time, update: DbFault)
    requires s == EmptyStore
    ensures UpdateProfileAsWritten(s, 7, req, now, NoFault, update) == Panicked
  {
  }

  /** `UpdateProfile` with the missing-user case reported as "user not found", the error
      `Update` itself gives for an id without a row. */
  function UpdateProfile(s: Store, userID: int, req: UpdateProfileRequest, now: Time,
                         get: DbFault, update: DbFault): (r: (Store, Reply))
    ensures !get.NoFault? ==> r == (s, Reply(None, Some("failed to get user by id: " + get.cause)))
    ensures get.NoFault? && userID !in s.rows ==> r == (s, Reply(None, Some("user not found")))
    ensures get.NoFault? && userID in s.rows ==>
      && r.1.user == Some(Merge(s.rows[userID], req))
      && r.1.error == (if update.NoFault? then None
                       else if update.ExecFails? then Some("failed to update user: " + update.cause)
                       else Some("failed to get rows affected: " + update.cause))
      && r.0.rows.Keys == s.rows.Keys && r.0.nextId == s.nextId
      && (forall id :: id in s.rows && id != userID ==> r.0.rows[id] == s.rows[id])
      && (update.ExecFails? ==> r.0 == s)
      && (!update.ExecFails? ==> r.0.rows[userID] == Merge(s.rows[userID], req).(updatedAt := now))
  {
    var found := GetByID(s, userID, get);
    if found.Err? then (s, Reply(None, Some(found.message)))
    else if found.value.None? then (s, Reply(None, Some("user not found")))
    else
      var user := Merge(found.value.value, req);
      var (s', status) := Update(s, user, now, update);
      (s', Reply(Some(user), if status.Ok? then None else Some(status.message)))
  }

  /** Wherever the source returns at all, the corrected operation returns the same. */
  lemma UpdateProfileAgreesWithSource(s: Store, userID: int, req: UpdateProfileRequest, now: Time,
                                      get: DbFault, update: DbFault)
    requires UpdateProfileAsWritten(s, userID, req, now, get, update).Returned?
    ensures UpdateProfileAsWritten(s, userID, req, now, get, update).value == UpdateProfile(s, userID, req, now, get, update)
  {
  }

  /** A successful profile update never touches identity or credentials, and a later
      `GetProfile` sees each non-empty request field and the old value of each empty one. */
  lemma ProfileAfterUpdate(s: Store, userID: int, req: UpdateProfileRequest, now: Time)
    requires userID in s.rows
    ensures
      var before := s.rows[userID];
      var after := GetProfile(UpdateProfile(s, userID, req, now, NoFault, NoFault).0, userID, NoFault);
      && after.Ok? && after.value.Some?
      && after.value.value == Merge(before, req).(updatedAt := now)
      && after.value.value.id == before.id && after.value.value.username == before.username
      && after.value.value.email == before.email && after.value.value.password == before.password
      && after.value.value.role == before.role
  {
  }

  /** Sending the same profile request twice stores what sending it once stores. */
  lemma UpdateProfileTwice(s: Store, userID: int, req: UpdateProfileRequest, t1: Time, t2: Time)
    ensures
      var once := UpdateProfile(s, userID, req, t2, NoFault, NoFault).0;
      var twice := UpdateProfile(UpdateProfile(s, userID, req, t1, NoFault, NoFault).0, userID, req, t2, NoFault, NoFault).0;
      twice == once
  {
    if userID in s.rows {
      var mid := UpdateProfile(s, userID, req, t1, NoFault, NoFault).0;
      MergeIdempotent(s.rows[userID], req);
      assert mid.rows[userID] == Merge(s.rows[userID], req).(updatedAt := t1);
      assert Merge(mid.rows[userID], req).(updatedAt := t2) == Merge(s.rows[userID], req).(updatedAt := t2);
    }
  }

  /** An all-empty request changes nothing but `updated_at`. */
  lemma EmptyProfileUpdate(s: Store, userID: int, now: Time)
    requires userID in s.rows
    ensures UpdateProfile(s, userID, UpdateProfileRequest("", "", "", ""), now, NoFault, NoFault).0.rows
         == s.rows[userID := s.rows[userID].(updatedAt := now)]
  {
    MergeEmptyRequest(s.rows[userID]);
  }

  /** Changing the e-mail address is not implemented: the current record comes back and
      nothing is written, whatever the new address and code. */
  function UpdateEmail(s: Store, userID: int, name: string, password: string, newEmail: string, code: string,
                       fault: DbFault): (r: Result<Option<User>>)
    ensures r == GetProfile(s, userID, fault)
    ensures r.Ok? && r.value.Some? ==> r.value.value.email == s.rows[userID].email
  {
    var found := GetByID(s, userID, fault);
    if found.Err? then Err(found.message) else found
  }

  /** Changing the password is not implemented either: the current record comes back
      with its old password hash. */
  function UpdatePassword(s: Store, userID: int, name: string, email: string, newPassword: string, code: string,
                          fault: DbFault): (r: Result<Option<User>>)
    ensures r == GetProfile(s, userID, fault)
    ensures r.Ok? && r.value.Some? ==> r.value.value.password == s.rows[userID].password
  {
    var found := GetByID(s, userID, fault);
    if found.Err? then Err(found.message) else found
  }

  /** The `manipulate` record of a status change. */
  datatype Manipulation = Manipulation(
    resourceId: string,
    resourceType: string,
    newStatus: string,
    oldStatus: string,
    operateTime: string,
    operator: string)

  datatype StatusReply = StatusReply(message: string, manipulate: Manipulation)

  /** Status changes are not implemented: the request is echoed back with a fixed
      previous status, time and operator, and nothing fails. */
  function UpdateResourceStatus(userID: int, resourceType: string, resourceID: string, action: string,
                                state: string): (r: Result<StatusReply>)
    ensures r.Ok? && r.value.message == "success"
    ensures r.value.manipulate.resourceId == resourceID && r.value.manipulate.resourceType == resourceType
    ensures r.value.manipulate.newStatus == action && r.value.manipulate.oldStatus == "published"
  {
    Ok(StatusReply("success", Manipulation(resourceID, resourceType, action, "published", "2023-12-01 10:00:00", "user")))
  }
}
