/** Accounts and sessions: registration, login (which stores a refresh
    token) and refresh. Password hashing and token signing are foreign
    calls and enter as the functions of a `Crypto` value. */
module AuthService {

  import opened Wrappers
  import opened Store

  /** The foreign calls: `hash` and `compare` for passwords, `signAccess`
      over (id, email, roles), `signRefresh` over the user id,
      `refreshExpiry` for the `exp` claim a refresh token carries (in
      milliseconds), and `verifyRefresh` for the signature and expiry
      check against the current clock. */
  datatype Crypto = Crypto(
    hash: string -> string,
    compare: (string, string) -> bool,
    signAccess: (string, string, seq<string>) -> string,
    signRefresh: string -> string,
    refreshExpiry: string -> int,
    verifyRefresh: string -> bool)

  const Taken: Error := Err(409, "EMAIL_OR_USERNAME_TAKEN", None)
  const InvalidCredentials: Error := Err(401, "INVALID_CREDENTIALS", None)
  const Unauthorized: Error := Err(401, "UNAUTHORIZED", None)

  /** No two users share an email or a username. */
  predicate UniqueLogins(users: map<string, User>) {
    forall a, b :: a in users && b in users && a != b ==>
      users[a].email != users[b].email && users[a].username != users[b].username
  }

  /** `OR: [{ email }, { username }]`. */
  predicate Clashes(u: User, email: string, username: string) {
    u.email == email || u.username == username
  }

  /** The row registerUser inserts: the password is kept only as its hash;
      the account starts active, without roles or a login time. */
  function NewUser(id: string, name: string, username: string, email: string, password: string,
                   crypto: Crypto, now: int): (u: User)
    ensures u.passwordHash == crypto.hash(password)
    ensures u.email == email && u.username == username && u.id == id
    ensures u.lastLoginAt.None? && u.roles == []
  {
    User(id, name, username, email, crypto.hash(password), true, None, [], now)
  }

  /** registerUser: 409 when any user has the email or the username;
      otherwise one user is inserted. */
  method RegisterUser(db: Db, id: string, name: string, username: string, email: string, password: string,
                      crypto: Crypto, now: int)
    returns (r: Result<User>)
    modifies db`users
    ensures (exists k :: k in old(db.users) && Clashes(old(db.users)[k], email, username)) ==>
      r == Fail(Taken)
    ensures r.Fail? ==> db.users == old(db.users)
    ensures r.Ok? <==>
      (forall k :: k in old(db.users) ==> !Clashes(old(db.users)[k], email, username)) && id !in old(db.users)
    ensures r.Ok? ==>
      && r.value == NewUser(id, name, username, email, password, crypto, now)
      && db.users == old(db.users)[id := r.value]
  {
    if k :| k in db.users && Clashes(db.users[k], email, username) {
      return Fail(Taken);
    }
    if id in db.users {
      return Fail(Crash);
    }
    var u := NewUser(id, name, username, email, password, crypto, now);
    db.users := db.users[id := u];
    return Ok(u);
  }

  /** A registration that passes the check keeps emails and usernames
      unique. */
  lemma RegisterKeepsUnique(users: map<string, User>, u: User)
    requires UniqueLogins(users)
    requires u.id !in users
    requires forall k :: k in users ==> !Clashes(users[k], u.email, u.username)
    ensures UniqueLogins(users[u.id := u])
  {
  }

  /** What loginUser answers. */
  datatype Session = Session(user: User, accessToken: string, refreshToken: string, roles: seq<string>)

  /** The identifier names the user by email or by username. */
  predicate Identifies(u: User, identifier: string) {
    u.email == identifier || u.username == identifier
  }

  /** The refresh-token row a login stores. */
  function RefreshRow(tokenId: string, u: User, crypto: Crypto): (t: AuthToken)
    ensures t.userId == u.id && t.tokenType == "REFRESH" && !t.isRevoked
    ensures t.token == crypto.signRefresh(u.id)
  {
    var raw := crypto.signRefresh(u.id);
    AuthToken(tokenId, u.id, raw, "REFRESH", crypto.refreshExpiry(raw), false)
  }

  /** loginUser: an unknown identifier and a wrong password give the same
      401. On success one REFRESH row is stored, then the user's
      `lastLoginAt` is set; the answer carries the user as read before that
      update. The account's `isActive` flag is not consulted. */
  method LoginUser(db: Db, tokenId: string, identifier: string, password: string, crypto: Crypto, now: int)
    returns (r: Result<Session>)
    modifies db`users, db`authTokens
    ensures (forall k :: k in old(db.users) ==> !Identifies(old(db.users)[k], identifier)) ==>
      r == Fail(InvalidCredentials)
    ensures (forall k :: k in old(db.users) && Identifies(old(db.users)[k], identifier) ==>
               !crypto.compare(password, old(db.users)[k].passwordHash)) ==>
      r == Fail(InvalidCredentials)
    ensures ((exists k :: k in old(db.users) && Identifies(old(db.users)[k], identifier)) &&
             (forall k :: k in old(db.users) && Identifies(old(db.users)[k], identifier) ==>
                crypto.compare(password, old(db.users)[k].passwordHash)) &&
             tokenId !in old(db.authTokens)) ==> r.Ok?
    ensures r.Fail? ==> r.error in {InvalidCredentials, Crash}
    ensures r.Fail? ==> db.users == old(db.users) && db.authTokens == old(db.authTokens)
    ensures r.Ok? ==>
      && Identifies(r.value.user, identifier)
      && crypto.compare(password, r.value.user.passwordHash)
      && r.value.roles == r.value.user.roles
      && r.value.accessToken == crypto.signAccess(r.value.user.id, r.value.user.email, r.value.user.roles)
      && r.value.refreshToken == crypto.signRefresh(r.value.user.id)
      && tokenId !in old(db.authTokens)
      && db.authTokens == old(db.authTokens)[tokenId := RefreshRow(tokenId, r.value.user, crypto)]
      && (exists k :: k in old(db.users) && old(db.users)[k] == r.value.user &&
            db.users == old(db.users)[k := r.value.user.(lastLoginAt := Some(now))])
  {
    if k :| k in db.users && Identifies(db.users[k], identifier) {
      var u := db.users[k];
      if !crypto.compare(password, u.passwordHash) {
        return Fail(InvalidCredentials);
      }
      var access := crypto.signAccess(u.id, u.email, u.roles);
      var row := RefreshRow(tokenId, u, crypto);
      if tokenId in db.authTokens {
        return Fail(Crash);
      }
      db.authTokens := db.authTokens[tokenId := row];
      db.users := db.users[k := u.(lastLoginAt := Some(now))];
      r := Ok(Session(u, access, row.token, u.roles));
      assert k in old(db.users) && old(db.users)[k] == r.value.user;
    } else {
      return Fail(InvalidCredentials);
    }
  }

  /** A login changes only the login time, so uniqueness is kept. */
  lemma LoginKeepsUnique(users: map<string, User>, k: string, now: int)
    requires UniqueLogins(users) && k in users
    ensures UniqueLogins(users[k := users[k].(lastLoginAt := Some(now))])
  {
    var after := users[k := users[k].(lastLoginAt := Some(now))];
    forall a, b | a in after && b in after && a != b
      ensures after[a].email != after[b].email && after[a].username != after[b].username
    {
      assert after[a].email == users[a].email && after[a].username == users[a].username;
      assert after[b].email == users[b].email && after[b].username == users[b].username;
    }
  }

  /** A stored, unrevoked REFRESH row holds the token. */
  ghost predicate Stored(authTokens: map<string, AuthToken>, token: string) {
    exists k :: k in authTokens && Live(authTokens[k], token)
  }

  predicate Live(t: AuthToken, token: string) {
    t.token == token && t.tokenType == "REFRESH" && !t.isRevoked
  }

  /** What refreshToken answers. */
  datatype Refreshed = Refreshed(user: User, accessToken: string)

  /** refreshToken: 401 unless a live REFRESH row holds the token and the
      token verifies; the new access token carries the roles the store has
      now, not those of the old token. Nothing is written. */
  method RefreshToken(db: Db, token: string, crypto: Crypto) returns (r: Result<Refreshed>)
    ensures !Stored(db.authTokens, token) ==> r == Fail(Unauthorized)
    ensures Stored(db.authTokens, token) && !crypto.verifyRefresh(token) ==> r == Fail(Unauthorized)
    ensures r.Fail? ==> r.error in {Unauthorized, Crash}
    ensures r.Ok? ==>
      && Stored(db.authTokens, token) && crypto.verifyRefresh(token)
      && (exists k :: k in db.authTokens && Live(db.authTokens[k], token) &&
            db.authTokens[k].userId in db.users && r.value.user == db.users[db.authTokens[k].userId])
      && r.value.accessToken == crypto.signAccess(r.value.user.id, r.value.user.email, r.value.user.roles)
    ensures (Stored(db.authTokens, token) && crypto.verifyRefresh(token) &&
             forall k :: k in db.authTokens && Live(db.authTokens[k], token) ==> db.authTokens[k].userId in db.users)
      ==> r.Ok?
  {
    if k :| k in db.authTokens && Live(db.authTokens[k], token) {
      if !crypto.verifyRefresh(token) {
        return Fail(Unauthorized);
      }
      var uid := db.authTokens[k].userId;
      if uid !in db.users {
        return Fail(Crash);
      }
      var u := db.users[uid];
      return Ok(Refreshed(u, crypto.signAccess(u.id, u.email, u.roles)));
    } else {
      return Fail(Unauthorized);
    }
  }

  /** The refresh token a login hands out is one refreshToken accepts as
      stored, until it is revoked. */
  lemma LoginTokenIsStored(authTokens: map<string, AuthToken>, tokenId: string, u: User, crypto: Crypto)
    ensures Stored(authTokens[tokenId := RefreshRow(tokenId, u, crypto)], crypto.signRefresh(u.id))
  {
    var after := authTokens[tokenId := RefreshRow(tokenId, u, crypto)];
    assert tokenId in after && Live(after[tokenId], crypto.signRefresh(u.id));
  }
}
