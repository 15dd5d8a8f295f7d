/** The request guards: `authRequired` and `authOptional` read a Bearer
    token from the Authorization header and set the request's user;
    `requireRole` admits a user holding a role. */
module AuthMiddleware {

  import opened Wrappers
  import Response

  /** The text before the first space. */
  function UpToSpace(s: string): (r: string)
    ensures |r| <= |s| && r == s[..|r|]
    ensures ' ' !in r
    ensures |r| < |s| ==> s[|r|] == ' '
    ensures ' ' in s ==> |r| < |s|
  {
    if s == [] || s[0] == ' ' then [] else [s[0]] + UpToSpace(s[1..])
  }

  /** `s.split(' ')`: the fields between single spaces, empty ones
      included. */
  function Split(s: string): (r: seq<string>)
    ensures |r| >= 1
    decreases |s|
  {
    if ' ' !in s then [s]
    else
      var head := UpToSpace(s);
      [head] + Split(s[|head| + 1..])
  }

  /** `header.startsWith('Bearer ')`. */
  predicate IsBearer(h: string) {
    |h| >= 7 && h[..7] == "Bearer "
  }

  /** `req.headers.authorization || ''`. */
  function HeaderText(authorization: Option<string>): string {
    if authorization.Some? then authorization.value else ""
  }

  /** The token `authHeader.split(' ')[1]`, or `None` when the header is not
      a Bearer header. */
  function BearerToken(authorization: Option<string>): Option<string> {
    var h := HeaderText(authorization);
    if !IsBearer(h) then None
    else
      var fields := Split(h);
      if |fields| > 1 then Some(fields[1]) else None
  }

  /** The token is the text after `"Bearer "` up to the next space: it holds
      no space and the header starts with `"Bearer "` followed by it. */
  lemma {:induction false} BearerTokenShape(authorization: Option<string>)
    ensures var h := HeaderText(authorization);
      && (BearerToken(authorization).Some? <==> IsBearer(h))
      && (IsBearer(h) ==> BearerToken(authorization) == Some(UpToSpace(h[7..])))
  {
    var h := HeaderText(authorization);
    if IsBearer(h) {
      assert h[6] == ' ' && ' ' in h;
      var head := UpToSpace(h);
      assert head == "Bearer" by {
        assert h[..6] == "Bearer";
        assert forall i :: 0 <= i < 6 ==> h[i] != ' ';
        UpToSpacePrefix(h, 6);
      }
      var rest := h[7..];
      assert Split(h) == [head] + Split(rest);
      if ' ' in rest {
        assert Split(rest)[0] == UpToSpace(rest);
      } else {
        assert UpToSpace(rest) == rest;
        assert Split(rest) == [rest];
      }
    }
  }

  /** A prefix of `n` non-space characters followed by a space is exactly
      what `UpToSpace` returns. */
  lemma {:induction false} UpToSpacePrefix(s: string, n: nat)
    requires n < |s| && s[n] == ' '
    requires forall i :: 0 <= i < n ==> s[i] != ' '
    ensures UpToSpace(s) == s[..n]
    decreases n
  {
    if n > 0 {
      UpToSpacePrefix(s[1..], n - 1);
      assert s[..n] == [s[0]] + s[1..][..n - 1];
    }
  }

  /** The `roles` claim: missing (or falsy), a list of names, or some other
      truthy value. */
  datatype RoleClaim = NoRoles | Names(names: seq<string>) | NotAList

  /** What a verified access token decodes to. */
  datatype Claims = Claims(id: string, email: string, roles: RoleClaim)

  /** `req.user`. */
  datatype AuthUser = AuthUser(id: string, email: string, roles: RoleClaim)

  /** `{ id, email, roles: decoded.roles || [] }`. */
  function UserOf(c: Claims): (u: AuthUser)
    ensures u.id == c.id && u.email == c.email
    ensures c.roles.NoRoles? ==> u.roles == Names([])
    ensures !c.roles.NoRoles? ==> u.roles == c.roles
  {
    AuthUser(c.id, c.email, if c.roles.NoRoles? then Names([]) else c.roles)
  }

  /** The user a header authenticates: a Bearer token the verifier accepts.
      `verify` is the access-token check, `None` when it throws. */
  function Authenticate(authorization: Option<string>, verify: string -> Option<Claims>): (u: Option<AuthUser>)
    ensures u.Some? <==> BearerToken(authorization).Some? && verify(BearerToken(authorization).value).Some?
    ensures u.Some? ==> u.value == UserOf(verify(BearerToken(authorization).value).value)
  {
    var token := BearerToken(authorization);
    if token.None? then None
    else
      var claims := verify(token.value);
      if claims.None? then None else Some(UserOf(claims.value))
  }

  /** An incoming request: its Authorization header and the user a guard
      attaches. */
  class Request {
    const authorization: Option<string>
    var user: Option<AuthUser>

    constructor (authorization: Option<string>)
      ensures this.authorization == authorization && user.None?
    {
      this.authorization := authorization;
      user := None;
    }
  }

  /** A guard either passes the request on or answers it. */
  datatype Outcome = Next | Halt(reply: Response.Reply<()>)

  function Reject(code: int, errorCode: string): (o: Outcome)
    ensures o.Halt? && o.reply.status == code && o.reply.body.ErrorBody? && o.reply.body.errorCode == errorCode
  {
    Halt(Response.ErrorResponse(Some(code), None, Some(errorCode), None))
  }

  /** authRequired: 401 UNAUTHORIZED, with the request untouched, unless the
      header authenticates; then the user is attached and the request goes
      on. */
  method AuthRequired(req: Request, verify: string -> Option<Claims>) returns (o: Outcome)
    modifies req`user
    ensures o == Next <==> Authenticate(req.authorization, verify).Some?
    ensures o == Next ==> req.user == Authenticate(req.authorization, verify)
    ensures o != Next ==> o == Reject(401, "UNAUTHORIZED") && req.user == old(req.user)
  {
    var u := Authenticate(req.authorization, verify);
    if u.None? {
      return Reject(401, "UNAUTHORIZED");
    }
    req.user := u;
    return Next;
  }

  /** authOptional: never answers; the user is the authenticated one or
      null. */
  method AuthOptional(req: Request, verify: string -> Option<Claims>) returns (o: Outcome)
    modifies req`user
    ensures o == Next
    ensures req.user == Authenticate(req.authorization, verify)
  {
    req.user := Authenticate(req.authorization, verify);
    return Next;
  }

  /** requireRole: 403 FORBIDDEN without a user, with a `roles` that is not
      a list, or without the role. */
  function RequireRole(user: Option<AuthUser>, roleName: string): (o: Outcome)
    ensures o == Next <==> user.Some? && user.value.roles.Names? && roleName in user.value.roles.names
    ensures o != Next ==> o == Reject(403, "FORBIDDEN")
  {
    if user.None? || !user.value.roles.Names? then Reject(403, "FORBIDDEN")
    else if roleName !in user.value.roles.names then Reject(403, "FORBIDDEN")
    else Next
  }

  /** Behind authRequired the role gate passes exactly when the verified
      token lists the role; a token without roles never passes it, and
      without a Bearer token neither guard lets a role-gated request
      through. */
  lemma RoleGateAfterAuth(authorization: Option<string>, verify: string -> Option<Claims>, roleName: string)
    ensures var u := Authenticate(authorization, verify);
      RequireRole(u, roleName) == Next <==>
        && BearerToken(authorization).Some?
        && verify(BearerToken(authorization).value).Some?
        && verify(BearerToken(authorization).value).value.roles.Names?
        && roleName in verify(BearerToken(authorization).value).value.roles.names
  {
  }
}
