/** Registration, login and password reset of internal/service/auth.go, run over the
    user table. Hashing is a `Hasher` parameter; the verification-code checks are the
    always-true stubs of the source. */
module AuthService {
  import opened Results
  import opened Model
  import opened UserRepository

  /** utils.HashPassword and utils.CheckPasswordHash, which are not part of this model. */
  datatype Hasher = Hasher(hash: string -> Result<string>, check: (string, string) -> bool)

  /** The one fact relied on about hashing: a password checks against its own hash. */
  ghost predicate Sound(h: Hasher)
  {
    forall p :: h.hash(p).Ok? ==> h.check(p, h.hash(p).value)
  }

  ghost predicate UsernameTaken(s: Store, username: string)
  {
    exists id :: id in s.rows && s.rows[id].username == username
  }

  ghost predicate EmailTaken(s: Store, email: string)
  {
    exists id :: id in s.rows && s.rows[id].email == email
  }

  /** No two rows share a username, and no two share an e-mail address. */
  ghost predicate UniqueLogins(s: Store)
  {
    forall a, b :: a in s.rows && b in s.rows && a != b ==>
      s.rows[a].username != s.rows[b].username && s.rows[a].email != s.rows[b].email
  }

  // The three code checks are stubs that accept every code.

  predicate ValidateEmailCode(email: string, code: string) { true }

  predicate ValidateCertifyCode(code: string) { true }

  predicate ValidateResetCode(email: string, code: string) { true }

  /** `sub` occurs in `s` starting at index `i`. */
  predicate OccursAt(s: string, sub: string, i: int)
  {
    0 <= i && i + |sub| <= |s| && s[i..i + |sub|] == sub
  }

  /** The reference meaning of `contains(s, sub)`. */
  predicate Occurs(s: string, sub: string)
  {
    exists i | 0 <= i <= |s| - |sub| :: OccursAt(s, sub, i)
  }

  /** The hand-written substring search: try every start index from 0 to |s| - |sub|. */
  method Contains(s: string, sub: string) returns (found: bool)
    ensures found <==> Occurs(s, sub)
    ensures |sub| == 0 ==> found
    ensures |sub| > |s| ==> !found
  {
    if |sub| == 0 {
      assert OccursAt(s, sub, 0);
    }
    var i := 0;
    while i <= |s| - |sub|
      invariant 0 <= i
      invariant |sub| <= |s| ==> i <= |s| - |sub| + 1
      invariant |sub| > |s| ==> i == 0
      invariant forall j :: 0 <= j < i ==> !OccursAt(s, sub, j)
      decreases |s| - |sub| - i
    {
      if s[i..i + |sub|] == sub {
        assert OccursAt(s, sub, i);
        return true;
      }
      i := i + 1;
    }
    return false;
  }

  /** For a one-character pattern, `contains` is plain membership. */
  lemma OccursSingleton(s: string, c: char)
    ensures Occurs(s, [c]) <==> c in s
  {
    if c in s {
      var i :| 0 <= i < |s| && s[i] == c;
      assert OccursAt(s, [c], i);
    }
    if Occurs(s, [c]) {
      var i :| 0 <= i <= |s| - 1 && OccursAt(s, [c], i);
      assert s[i] == s[i..i + 1][0];
    }
  }

  /** The record `Register` inserts: nickname defaults to the username, role to "user",
      the other profile fields stay empty. */
  function NewUser(req: RegisterRequest, hashed: string): User
  {
    User(0, req.username, req.username, req.email, hashed, "", "", "", "user", ZeroTime, ZeroTime)
  }

  /** Lookup errors are discarded: only a found row counts as "taken". */
  predicate Found(lookup: Result<Option<User>>)
  {
    lookup.Ok? && lookup.value.Some?
  }

  function Register(s: Store, req: RegisterRequest, h: Hasher, now: Time,
                    byName: DbFault, byEmail: DbFault, create: DbFault): (r: (Store, Result<User>))
    ensures byName.NoFault? && UsernameTaken(s, req.username) ==> r == (s, Err("username already exists"))
    ensures (byName.NoFault? ==> !UsernameTaken(s, req.username)) && byEmail.NoFault? && EmailTaken(s, req.email) ==>
      r == (s, Err("email already exists"))
    ensures r.0 != s ==>
      && (byName.NoFault? ==> !UsernameTaken(s, req.username))
      && (byEmail.NoFault? ==> !EmailTaken(s, req.email))
      && h.hash(req.password).Ok?
    ensures (byName.NoFault? ==> !UsernameTaken(s, req.username)) && (byEmail.NoFault? ==> !EmailTaken(s, req.email)) ==>
      && (h.hash(req.password).Err? ==> r == (s, Err(h.hash(req.password).message)))
      && (h.hash(req.password).Ok? && create.ExecFails? ==> r.1 == Err("failed to create user: " + create.cause))
      && (h.hash(req.password).Ok? && create.ResultFails? ==> r.1 == Err("failed to get last insert id: " + create.cause))
    ensures r.1.Ok? <==>
      && (byName.NoFault? ==> !UsernameTaken(s, req.username))
      && (byEmail.NoFault? ==> !EmailTaken(s, req.email))
      && h.hash(req.password).Ok?
      && create.NoFault?
    ensures r.1.Ok? ==>
      var u := r.1.value;
      && u.id == s.nextId && u.id !in s.rows
      && r.0.rows.Keys == s.rows.Keys + {u.id}
      && SameContent(r.0.rows[u.id], u)
      && u.username == req.username && u.nickname == req.username && u.email == req.email
      && u.role == "user" && Ok(u.password) == h.hash(req.password)
      && u.avatar == "" && u.description == "" && u.facePhoto == ""
    ensures forall id :: id in s.rows ==> id in r.0.rows && r.0.rows[id] == s.rows[id]
    ensures r.0 != s ==> !create.ExecFails? && r.0.rows.Keys == s.rows.Keys + {s.nextId}
  {
    var existingUser := GetByUsername(s, req.username, byName);
    if Found(existingUser) then (s, Err("username already exists"))
    else
      var existingEmail := GetByEmail(s, req.email, byEmail);
      if Found(existingEmail) then (s, Err("email already exists"))
      else if !ValidateEmailCode(req.email, req.emailPassword) then (s, Err("invalid email verification code"))
      else if !ValidateCertifyCode(req.certifyPassword) then (s, Err("invalid invitation code"))
      else
        var hashed := h.hash(req.password);
        if hashed.Err? then (s, Err(hashed.message))
        else
          var user := NewUser(req, hashed.value);
          var (s', created) := Create(s, user, now, create);
          if created.Err? then (s', Err(created.message))
          else (s', Ok(user.(id := created.value)))
  }

  /** With its two lookups answered, `Register` never inserts a second holder of a
      username or an e-mail address. */
  lemma RegisterPreservesUniqueness(s: Store, req: RegisterRequest, h: Hasher, now: Time, create: DbFault)
    requires UniqueLogins(s)
    ensures UniqueLogins(Register(s, req, h, now, NoFault, NoFault, create).0)
  {
    var s' := Register(s, req, h, now, NoFault, NoFault, create).0;
    if s' != s {
      var id := s.nextId;
      var hashed := h.hash(req.password);
      assert !UsernameTaken(s, req.username) && !EmailTaken(s, req.email);
      assert s' == Create(s, NewUser(req, hashed.value), now, create).0;
      assert s'.rows[id].username == req.username && s'.rows[id].email == req.email;
      forall a, b | a in s'.rows && b in s'.rows && a != b
        ensures s'.rows[a].username != s'.rows[b].username && s'.rows[a].email != s'.rows[b].email
      {
        if a == id {
          assert b in s.rows;
        } else if b == id {
          assert a in s.rows;
        }
      }
    }
  }

  /** Registration requests applied one after another, every statement succeeding. */
  function RegisterAll(s: Store, reqs: seq<RegisterRequest>, h: Hasher, now: Time): Store
    decreases |reqs|
  {
    if |reqs| == 0 then s
    else RegisterAll(Register(s, reqs[0], h, now, NoFault, NoFault, NoFault).0, reqs[1..], h, now)
  }

  lemma {:induction false} RegisterAllPreservesUniqueness(s: Store, reqs: seq<RegisterRequest>, h: Hasher, now: Time)
    requires UniqueLogins(s)
    ensures UniqueLogins(RegisterAll(s, reqs, h, now))
    decreases |reqs|
  {
    if |reqs| > 0 {
      RegisterPreservesUniqueness(s, reqs[0], h, now, NoFault);
      RegisterAllPreservesUniqueness(Register(s, reqs[0], h, now, NoFault, NoFault, NoFault).0, reqs[1..], h, now);
    }
  }

  /** Because lookup errors are discarded, a failed username lookup lets a second
      holder of a taken username in, in a table without UNIQUE keys. */
  lemma RegisterLookupFaultAdmitsDuplicate(s: Store, req: RegisterRequest, h: Hasher, now: Time, cause: string)
    requires UsernameTaken(s, req.username) && !EmailTaken(s, req.email) && h.hash(req.password).Ok?
    ensures Register(s, req, h, now, ExecFails(cause), NoFault, NoFault).1.Ok?
    ensures !UniqueLogins(Register(s, req, h, now, ExecFails(cause), NoFault, NoFault).0)
  {
  }

  /** The row `Login` authenticates against: by e-mail when the identifier contains '@'. */
  ghost predicate IdentifiedBy(u: User, identifier: string)
  {
    if '@' in identifier then u.email == identifier else u.username == identifier
  }

  function Login(s: Store, req: LoginRequest, h: Hasher, fault: DbFault): (r: Result<User>)
    ensures r.Err? ==> r.message == "invalid credentials"
    ensures r.Ok? ==>
      && fault.NoFault?
      && r.value.id in s.rows && s.rows[r.value.id] == r.value
      && IdentifiedBy(r.value, req.usernameOrEmail)
      && h.check(req.password, r.value.password)
    ensures UniqueLogins(s) ==>
      (r.Ok? <==> fault.NoFault? && exists id :: id in s.rows && IdentifiedBy(s.rows[id], req.usernameOrEmail)
                                              && h.check(req.password, s.rows[id].password))
  {
    OccursSingleton(req.usernameOrEmail, '@');
    var found :=
      if Occurs(req.usernameOrEmail, "@") then GetByEmail(s, req.usernameOrEmail, fault)
      else GetByUsername(s, req.usernameOrEmail, fault);
    if found.Err? || found.value.None? then Err("invalid credentials")
    else if !h.check(req.password, found.value.value.password) then Err("invalid credentials")
    else Ok(found.value.value)
  }

  /** A user registered with fault-free statements can log in with the username and
      password given at registration, provided the username has no '@'. */
  lemma RegisterThenLoginByUsername(s: Store, req: RegisterRequest, h: Hasher, now: Time)
    requires Sound(h)
    requires '@' !in req.username
    requires Register(s, req, h, now, NoFault, NoFault, NoFault).1.Ok?
    ensures
      var (s', reg) := Register(s, req, h, now, NoFault, NoFault, NoFault);
      var r := Login(s', LoginRequest(req.username, req.password), h, NoFault);
      r.Ok? && r.value.id == reg.value.id && SameContent(r.value, reg.value)
  {
    var (s', reg) := Register(s, req, h, now, NoFault, NoFault, NoFault);
    var id := reg.value.id;
    forall j | j in s'.rows && j != id
      ensures s'.rows[j].username != req.username
    {
      assert j in s.rows;
    }
    var found := GetByUsername(s', req.username, NoFault);
    assert found.Ok? && found.value.Some? && found.value.value.id == id;
    assert h.check(req.password, s'.rows[id].password);
    OccursSingleton(req.username, '@');
    assert Login(s', LoginRequest(req.username, req.password), h, NoFault) == Ok(s'.rows[id]);
  }

  /** The same through the e-mail address. */
  lemma RegisterThenLoginByEmail(s: Store, req: RegisterRequest, h: Hasher, now: Time)
    requires Sound(h)
    requires '@' in req.email
    requires Register(s, req, h, now, NoFault, NoFault, NoFault).1.Ok?
    ensures
      var (s', reg) := Register(s, req, h, now, NoFault, NoFault, NoFault);
      var r := Login(s', LoginRequest(req.email, req.password), h, NoFault);
      r.Ok? && r.value.id == reg.value.id && SameContent(r.value, reg.value)
  {
    var (s', reg) := Register(s, req, h, now, NoFault, NoFault, NoFault);
    var id := reg.value.id;
    forall j | j in s'.rows && j != id
      ensures s'.rows[j].email != req.email
    {
      assert j in s.rows;
    }
    var found := GetByEmail(s', req.email, NoFault);
    assert found.Ok? && found.value.Some? && found.value.value.id == id;
    assert h.check(req.password, s'.rows[id].password);
    OccursSingleton(req.email, '@');
    assert Login(s', LoginRequest(req.email, req.password), h, NoFault) == Ok(s'.rows[id]);
  }

  function ForgotPassword(s: Store, email: string, newPassword: string, code: string, h: Hasher, now: Time,
                          lookup: DbFault, update: DbFault): (r: (Store, Result<()>))
    ensures !lookup.NoFault? || !EmailTaken(s, email) ==> r == (s, Err("user not found"))
    ensures r.1.Ok? <==> lookup.NoFault? && EmailTaken(s, email) && h.hash(newPassword).Ok? && update.NoFault?
    ensures r.0 == s || (
      && h.hash(newPassword).Ok?
      && exists id :: id in s.rows && s.rows[id].email == email &&
           r.0 == Table(s.rows[id := s.rows[id].(password := h.hash(newPassword).value, updatedAt := now)], s.nextId))
    ensures update.ExecFails? ==> r.0 == s
    ensures lookup.NoFault? && EmailTaken(s, email) ==>
      && (h.hash(newPassword).Err? ==> r == (s, Err(h.hash(newPassword).message)))
      && (h.hash(newPassword).Ok? && update.ExecFails? ==> r.1 == Err("failed to update password: " + update.cause))
      && (h.hash(newPassword).Ok? && update.ResultFails? ==> r.1 == Err("failed to get rows affected: " + update.cause))
    ensures lookup.NoFault? && EmailTaken(s, email) && h.hash(newPassword).Ok? && !update.ExecFails? ==>
      var id := FirstRow(s, EmailIs(email)).value.id;
      r.0 == Table(s.rows[id := s.rows[id].(password := h.hash(newPassword).value, updatedAt := now)], s.nextId)
  {
    if !ValidateResetCode(email, code) then (s, Err("invalid reset code"))
    else
      var found := GetByEmail(s, email, lookup);
      if found.Err? || found.value.None? then (s, Err("user not found"))
      else
        var hashed := h.hash(newPassword);
        if hashed.Err? then (s, Err(hashed.message))
        else UpdatePassword(s, found.value.value.id, hashed.value, now, update)
  }

  /** The verification codes are never checked: the outcome of a registration does not
      depend on them. */
  lemma RegisterIgnoresCodes(s: Store, req: RegisterRequest, emailCode: string, inviteCode: string, h: Hasher,
                             now: Time, byName: DbFault, byEmail: DbFault, create: DbFault)
    ensures Register(s, req.(emailPassword := emailCode, certifyPassword := inviteCode), h, now, byName, byEmail, create)
         == Register(s, req, h, now, byName, byEmail, create)
  {
  }

  /** Nor is the reset code. */
  lemma ForgotPasswordIgnoresCode(s: Store, email: string, newPassword: string, code1: string, code2: string,
                                  h: Hasher, now: Time, lookup: DbFault, update: DbFault)
    ensures ForgotPassword(s, email, newPassword, code1, h, now, lookup, update)
         == ForgotPassword(s, email, newPassword, code2, h, now, lookup, update)
  {
  }

  /** After a fault-free reset, the new password logs in through the e-mail address. */
  lemma ForgotPasswordThenLogin(s: Store, email: string, newPassword: string, code: string, h: Hasher, now: Time)
    requires Sound(h)
    requires '@' in email
    requires ForgotPassword(s, email, newPassword, code, h, now, NoFault, NoFault).1.Ok?
    ensures
      var s' := ForgotPassword(s, email, newPassword, code, h, now, NoFault, NoFault).0;
      Login(s', LoginRequest(email, newPassword), h, NoFault).Ok?
  {
    var s' := ForgotPassword(s, email, newPassword, code, h, now, NoFault, NoFault).0;
    var id := FirstRow(s, EmailIs(email)).value.id;
    OccursSingleton(email, '@');
    var found := GetByEmail(s', email, NoFault);
    assert s'.rows[id].email == email;
    assert found.Ok? && found.value.Some? && found.value.value.id == id;
    assert h.check(newPassword, s'.rows[id].password);
  }
}
