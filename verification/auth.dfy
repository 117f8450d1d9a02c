/** Registration and login. Password hashing and token signing are opaque:
    the model receives them as function values, and assumes only that a
    password always matches a hash made from it. Hashing is salted, so the
    salt is an input and nothing assumes two hashes of one password agree. */
module Auth {
  import opened Enums
  import opened Outcomes
  import opened Records
  import opened Tables
  import opened Invariants

  type Salt = nat

  /** The claims a login token carries */
  datatype TokenPayload = TokenPayload(sub: int, role: Role)

  /** The hashing and signing services the code calls */
  datatype Crypto = Crypto(
    hash: (string, Salt) -> string,
    compare: (string, string) -> bool,
    sign: TokenPayload -> string)

  /** The one fact relied on: a password matches any hash made from it */
  ghost predicate HashVerifies(c: Crypto) {
    forall password: string, salt: Salt {:trigger c.hash(password, salt)} ::
      c.compare(password, c.hash(password, salt))
  }

  /** What registration returns: the new user without its password hash */
  datatype PublicUser = PublicUser(id: int, email: string, role: Role)

  datatype LoginReply = LoginReply(accessToken: string)

  /** Registers a user: a taken email is refused first, then (after hashing)
      the ADMIN role; otherwise one user is inserted with the hashed password */
  function Register(db: Db, crypto: Crypto, salt: Salt, email: string, password: string, role: Role)
    : (r: Result<Committed<PublicUser>>)
    ensures email in Keys(db.users, UserEmail) ==> r == Err(BadRequest(MsgEmailTaken))
    ensures email !in Keys(db.users, UserEmail) && role == ADMIN ==> r == Err(BadRequest(MsgInvalidRole))
    ensures r.Ok? <==> email !in Keys(db.users, UserEmail) && role != ADMIN
    ensures r.Ok? ==>
              && r.value.item == PublicUser(db.nextUserId, email, role)
              && r.value.store == db.(users := db.users + [User(db.nextUserId, email, crypto.hash(password, salt), role)],
                                      nextUserId := db.nextUserId + 1)
  {
    if Lookup(db.users, UserEmail, email).Some? then Err(BadRequest(MsgEmailTaken))
    else
      var passwordHash := crypto.hash(password, salt);
      if role == ADMIN then Err(BadRequest(MsgInvalidRole))
      else
        var user := User(db.nextUserId, email, passwordHash, role);
        Ok(Committed(db.(users := db.users + [user], nextUserId := db.nextUserId + 1), PublicUser(user.id, user.email, user.role)))
  }

  /** Logs in: an unknown email and a wrong password are refused alike;
      otherwise the token signs the user's id and role */
  function Login(db: Db, crypto: Crypto, email: string, password: string): (r: Result<LoginReply>)
    ensures email !in Keys(db.users, UserEmail) ==> r == Err(Unauthorized(MsgInvalidCredentials))
    ensures r.Err? ==> r.error == Unauthorized(MsgInvalidCredentials)
    ensures UniqueBy(db.users, UserEmail) ==>
              forall i :: 0 <= i < |db.users| && db.users[i].email == email ==>
                if crypto.compare(password, db.users[i].passwordHash)
                then r == Ok(LoginReply(crypto.sign(TokenPayload(db.users[i].id, db.users[i].role))))
                else r == Err(Unauthorized(MsgInvalidCredentials))
  {
    match Lookup(db.users, UserEmail, email)
    case None => Err(Unauthorized(MsgInvalidCredentials))
    case Some(user) =>
      if !crypto.compare(password, user.passwordHash) then Err(Unauthorized(MsgInvalidCredentials))
      else Ok(LoginReply(crypto.sign(TokenPayload(user.id, user.role))))
  }

  /** Registration keeps ids and emails unique and touches no other table */
  lemma RegisterPreservesWf(db: Db, crypto: Crypto, salt: Salt, email: string, password: string, role: Role)
    requires Wf(db)
    requires Register(db, crypto, salt, email, password, role).Ok?
    ensures Wf(Register(db, crypto, salt, email, password, role).value.store)
  {
    var user := User(db.nextUserId, email, crypto.hash(password, salt), role);
    AppendFromCounter(db.users, UserId, user, db.nextUserId);
    AppendUnique(db.users, UserId, user);
    AppendUnique(db.users, UserEmail, user);
  }

  /** A user who has just registered can log in with the same password, and
      the token names the new id and the registered role */
  lemma RegisterThenLogin(db: Db, crypto: Crypto, salt: Salt, email: string, password: string, role: Role)
    requires Wf(db) && HashVerifies(crypto)
    requires Register(db, crypto, salt, email, password, role).Ok?
    ensures Login(Register(db, crypto, salt, email, password, role).value.store, crypto, email, password)
            == Ok(LoginReply(crypto.sign(TokenPayload(db.nextUserId, role))))
  {
    RegisterPreservesWf(db, crypto, salt, email, password, role);
    var db1 := Register(db, crypto, salt, email, password, role).value.store;
    var n := |db.users|;
    assert db1.users[n].email == email;
    assert crypto.compare(password, db1.users[n].passwordHash);
  }
}
