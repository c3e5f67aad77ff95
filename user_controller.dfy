/**
 * UserController: role parsing, registration, login (which issues a token),
 * logout (which revokes one) and the `me` check of a token. Responses are
 * modelled as a status, an optional `Location` and a body; an exception that
 * escapes a handler is a `Failure`.
 */
module UserController {
  import opened Wrappers
  import opened JavaLang
  import opened Exceptions
  import opened Models
  import opened Repositories
  import opened TokenBlacklist
  import opened Jwt
  import opened JwtFilter
  import opened UserService

  /** What a response shows of a user (`UserMapper.toDto` is not part of this model). */
  datatype UserView = UserView(id: int, username: Option<string>, role: Option<Role>)

  datatype Body =
    | NoBody
    | UserBody(user: UserView)
    | LoginBody(user: UserView, token: string, tokenType: string)
    | ErrorBody(error: string)
    | MeBody(username: string, role: string)

  datatype Response = Response(status: int, location: Option<string>, body: Body)

  datatype RegisterRequest = RegisterRequest(username: Option<string>, password: Option<string>, role: Option<string>)

  datatype LoginRequest = LoginRequest(username: Option<string>, password: Option<string>)

  function Unauthorized(message: string): Response {
    Response(401, None, ErrorBody(message))
  }

  /**
   * `parseRoleOrThrow`: nothing or blank means USER; otherwise the trimmed,
   * upper-cased text must name a role exactly.
   */
  function ParseRole(incoming: Option<string>): (r: Result<Role, Exception>)
    ensures incoming.None? || IsBlank(incoming.value) ==> r == Success(USER)
    ensures incoming.Some? && !IsBlank(incoming.value) && r.Success? ==>
              RoleName(r.value) == ToUpperCase(Trim(incoming.value))
    ensures r.Failure? <==> incoming.Some? && !IsBlank(incoming.value)
                            && ToUpperCase(Trim(incoming.value)) != "ADMIN" && ToUpperCase(Trim(incoming.value)) != "USER"
    ensures r.Failure? ==> r.error == InvalidRole
  {
    if incoming.None? || IsBlank(incoming.value) then Success(USER)
    else
      match RoleValueOf(ToUpperCase(Trim(incoming.value)))
      case Some(role) => Success(role)
      case None => Failure(InvalidRole)
  }

  /** A role name in any case, padded with blanks, parses to that role. */
  lemma ParseRoleAnyCasePadded(role: Role, before: string, s: string, after: string)
    requires AllTrimmable(before) && AllTrimmable(after)
    requires ToUpperCase(s) == RoleName(role)
    ensures ParseRole(Some(before + s + after)) == Success(role)
  {
    assert |s| == |RoleName(role)| && UpperChar(s[0]) == RoleName(role)[0];
    assert UpperChar(s[|s| - 1]) == RoleName(role)[|s| - 1];
    var text := before + s + after;
    assert text[|before|] == s[0];
    assert !IsBlank(text) by {
      assert !IsWhitespace(text[|before|]);
    }
    TrimPadded(before, s, after);
    RoleNameRoundTrip(role);
  }

  /** Whether a raw password matches the stored one; BCrypt refuses a missing hash. */
  predicate PasswordMatches(encoder: PasswordEncoder, raw: string, stored: Option<string>) {
    stored.Some? && encoder.matches(raw, stored.value)
  }

  /** The credential `me` checks and `logout` revokes: after a case-sensitive `Bearer `, trimmed, quotes kept. */
  function BearerCredential(header: Option<string>): (r: Option<string>)
    ensures r.Some? <==> header.Some? && StartsWith(header.value, BearerPrefix)
    ensures r.Some? ==> IsTrimmed(r.value)
  {
    if header.Some? && StartsWith(header.value, BearerPrefix) then Some(Trim(header.value[|BearerPrefix|..])) else None
  }

  /** The response of `me` for this header. */
  function MeResponse(key: Result<SigningKey, Exception>, codec: Codec, revoked: set<string>,
                      header: Option<string>, now: nat): (r: Result<Response, Exception>)
    ensures BearerCredential(header).None? ==> r == Success(Unauthorized("Missing bearer token"))
    ensures BearerCredential(header).Some? && !IsValid(key, codec, revoked, BearerCredential(header).value, now) ==>
              r == Success(Unauthorized("Invalid or expired token"))
    ensures r.Success? && r.value.status == 200 ==>
              BearerCredential(header).Some? && r.value.body.MeBody?
              && IsValid(key, codec, revoked, BearerCredential(header).value, now)
              && UsernameOf(key, codec, BearerCredential(header).value, now) == Some(r.value.body.username)
              && RoleOf(key, codec, BearerCredential(header).value, now).Some?
              && r.value.body.role == RoleName(RoleOf(key, codec, BearerCredential(header).value, now).value)
    ensures r.Failure? ==> r.error == NullPointer
  {
    match BearerCredential(header)
    case None => Success(Unauthorized("Missing bearer token"))
    case Some(token) =>
      if !IsValid(key, codec, revoked, token, now) then Success(Unauthorized("Invalid or expired token"))
      else
        match (UsernameOf(key, codec, token, now), RoleOf(key, codec, token, now))
        case (Some(u), Some(role)) => Success(Response(200, None, MeBody(u, RoleName(role))))
        case _ => Failure(NullPointer)
  }

  /**
   * A token issued for a named user, sent back to `me` as `Bearer <token>` before
   * it expires and while it is not revoked, is answered with that name and role.
   */
  lemma IssuedTokenPassesMe(codec: Codec, secret: string, revoked: set<string>,
                            username: string, role: Role, issuedAt: nat, ttl: nat, now: nat)
    requires Sound(codec) && KeyFor(secret).Success?
    requires codec.sign(KeyFor(secret).value, IssuedClaims(Some(username), role, issuedAt, ttl)) !in revoked
    requires now < ValidUntil(issuedAt, ttl)
    ensures var token := codec.sign(KeyFor(secret).value, IssuedClaims(Some(username), role, issuedAt, ttl));
            MeResponse(KeyFor(secret), codec, revoked, Some(BearerPrefix + token), now)
            == Success(Response(200, None, MeBody(username, RoleName(role))))
  {
    var token := codec.sign(KeyFor(secret).value, IssuedClaims(Some(username), role, issuedAt, ttl));
    var header := BearerPrefix + token;
    assert header[|BearerPrefix|..] == token;
    assert BearerCredential(Some(header)) == Some(token);
    IssuedTokenAccepted(codec, secret, revoked, Some(username), role, issuedAt, ttl, now);
  }

  /**
   * What `login` answers once the name has found the user stored under `id`:
   * a wrong password is 401, a user without a role fails as `role.name()` would,
   * and otherwise the body carries the user, a fresh token and the scheme name.
   */
  function LoginAnswer(encoder: PasswordEncoder, key: Result<SigningKey, Exception>, codec: Codec, ttl: nat,
                       id: int, name: string, stored: Option<string>, role: Option<Role>,
                       raw: string, now: nat): (r: Result<Response, Exception>)
    ensures !PasswordMatches(encoder, raw, stored) ==> r == Success(Unauthorized("Invalid credentials"))
    ensures r.Success? && r.value.status == 200 ==>
              PasswordMatches(encoder, raw, stored) && key.Success? && role.Some? && r.value.body.LoginBody?
              && r.value.body.user == UserView(id, Some(name), role) && r.value.body.tokenType == "Bearer"
    ensures r.Failure? && role.None? ==> r.error == NullPointer
    ensures r.Failure? && role.Some? ==> key.Failure? && r.error == key.error
  {
    if !PasswordMatches(encoder, raw, stored) then Success(Unauthorized("Invalid credentials"))
    else if role.None? then Failure(NullPointer)
    else
      match key
      case Failure(e) => Failure(e)
      case Success(k) =>
        Success(Response(200, None, LoginBody(UserView(id, Some(name), role),
                                              codec.sign(k, IssuedClaims(Some(name), role.value, now, ttl)), "Bearer")))
  }

  /**
   * The token a successful login hands out, sent back as `Bearer <token>`,
   * authenticates the user who logged in, with that user's role, until it
   * expires or is revoked.
   */
  lemma LoginTokenAuthenticates(encoder: PasswordEncoder, secret: string, codec: Codec, ttl: nat,
                                id: int, name: string, stored: Option<string>, role: Option<Role>,
                                raw: string, issuedAt: nat, revoked: set<string>, now: nat)
    requires Sound(codec)
    requires var r := LoginAnswer(encoder, KeyFor(secret), codec, ttl, id, name, stored, role, raw, issuedAt);
             r.Success? && r.value.status == 200 && r.value.body.token !in revoked
    requires now < ValidUntil(issuedAt, ttl)
    ensures var r := LoginAnswer(encoder, KeyFor(secret), codec, ttl, id, name, stored, role, raw, issuedAt);
            AuthenticationFor(KeyFor(secret), codec, revoked, Some(BearerPrefix + r.value.body.token), now)
            == Some(Authentication(name, [Authority(role.value)]))
  {
    IssuedTokenAuthenticates(codec, secret, revoked, name, role.value, issuedAt, ttl, now);
  }

  /**
   * How a registration that got as far as `create` ends: refused with the first
   * rule broken, or 201 pointing at the new identifier, with the user stored
   * there holding the password kept or encoded.
   */
  ghost predicate Registered(users0: map<int, User>, nextId0: int, users: map<int, User>,
                             name: Option<string>, password: Option<string>, role: Role,
                             nameTaken: bool, adminCount: nat, encoder: PasswordEncoder, r: Result<Response, Exception>)
    reads users.Values`password
  {
    var rejection := CreateRejection(name, password, Some(role), nameTaken, adminCount);
    (rejection.Some? ==> r == Failure(rejection.value) && users == users0)
    && (rejection.None? ==>
          r == Success(Response(201, Some("/api/users/" + LongToString(nextId0)), UserBody(UserView(nextId0, name, Some(role)))))
          && nextId0 !in users0 && nextId0 in users && users == users0[nextId0 := users[nextId0]]
          && users[nextId0].password == Some(StoredPassword(password.value, encoder)))
  }

  class UserController {
    const db: Store
    const jwtUtil: JwtUtil
    const encoder: PasswordEncoder
    const tokenBlacklistService: TokenBlacklistService

    /** The controller and the token utility share the one blacklist bean. */
    ghost predicate Valid()
      reads this, jwtUtil
    {
      jwtUtil.blacklist == tokenBlacklistService && jwtUtil.Valid()
    }

    constructor (db: Store, jwtUtil: JwtUtil, encoder: PasswordEncoder, tokenBlacklistService: TokenBlacklistService)
      requires jwtUtil.Valid() && jwtUtil.blacklist == tokenBlacklistService
      ensures Valid() && this.db == db && this.jwtUtil == jwtUtil
      ensures this.encoder == encoder && this.tokenBlacklistService == tokenBlacklistService
    {
      this.db := db;
      this.jwtUtil := jwtUtil;
      this.encoder := encoder;
      this.tokenBlacklistService := tokenBlacklistService;
    }

    /** `new User()` with the name, password and role set, as `registerUser` builds it. */
    method NewUser(username: Option<string>, password: Option<string>, role: Role) returns (user: User)
      ensures fresh(user) && user.id == 0 && user.username == username && user.password == password
      ensures user.role == Some(role) && user.cart == null
    {
      user := new User();
      user.username := username;
      user.password := password;
      user.role := Some(role);
    }

    /**
     * `registerUser`: a missing name throws before anything else, then the role is
     * parsed, then `create` decides; a created user is answered with 201 and its
     * location.
     */
    method RegisterUser(request: RegisterRequest) returns (r: Result<Response, Exception>)
      requires db.Valid() && UsersConsistent(db)
      modifies db
      ensures db.Valid() && UsersConsistent(db)
      ensures request.username.None? ==> r == Failure(NullPointer) && unchanged(db)
      ensures request.username.Some? && ParseRole(request.role).Failure? ==> r == Failure(InvalidRole) && unchanged(db)
      ensures request.username.Some? && ParseRole(request.role).Success? ==>
                Registered(old(db.users), old(db.nextId), db.users, Some(Trim(request.username.value)), request.password,
                           ParseRole(request.role).value, old(db.ExistsByUsername(Some(Trim(request.username.value)))),
                           old(db.CountByRole(ADMIN)), encoder, r)
                && (r.Failure? ==> unchanged(db))
    {
      if request.username.None? {
        return Failure(NullPointer);
      }
      var role := ParseRole(request.role);
      if role.Failure? {
        return Failure(role.error);
      }
      r := RegisterParsed(Some(Trim(request.username.value)), request.password, role.value);
    }

    /** The part of `registerUser` after the request has been read: build the user and create it. */
    method RegisterParsed(name: Option<string>, password: Option<string>, role: Role) returns (r: Result<Response, Exception>)
      requires db.Valid() && UsersConsistent(db)
      modifies db
      ensures db.Valid() && UsersConsistent(db)
      ensures Registered(old(db.users), old(db.nextId), db.users, name, password, role,
                         old(db.ExistsByUsername(name)), old(db.CountByRole(ADMIN)), encoder, r)
      ensures r.Failure? ==> unchanged(db)
    {
      ghost var taken := db.ExistsByUsername(name);
      ghost var admins := db.CountByRole(ADMIN);
      var user := NewUser(name, password, role);
      var created := Create(db, user, encoder);
      if created.Failure? {
        return Failure(created.error);
      }
      r := Success(Response(201, Some("/api/users/" + LongToString(user.id)), UserBody(UserView(user.id, user.username, user.role))));
    }

    /**
     * `login`: missing fields read as empty text and the name is trimmed. An
     * unknown name is 401; a known one is answered by `LoginAnswer` for the user
     * stored under it.
     */
    method Login(request: LoginRequest, now: nat) returns (r: Result<Response, Exception>)
      requires Valid() && UsersConsistent(db)
      modifies jwtUtil`cachedKey, jwtUtil`derivations
      ensures Valid()
      ensures var name := Trim(request.username.GetOr(""));
              !db.ExistsByUsername(Some(name)) ==> r == Success(Unauthorized("Invalid credentials"))
      ensures var name := Trim(request.username.GetOr(""));
              forall k | k in db.users && db.users[k].username == Some(name) ::
                r == LoginAnswer(encoder, KeyFor(jwtUtil.secret), jwtUtil.codec, jwtUtil.tokenTtlMs, k, name,
                                 db.users[k].password, db.users[k].role, request.password.GetOr(""), now)
    {
      var name := Trim(request.username.GetOr(""));
      var raw := request.password.GetOr("");
      var found, j := db.FindByUsername(name);
      if found.None? {
        return Success(Unauthorized("Invalid credentials"));
      }
      var u := found.value;
      assert Rows(db.users)[j].id == j;
      r := LoginFound(u, name, raw, now);
      forall k | k in db.users && db.users[k].username == Some(name)
        ensures r == LoginAnswer(encoder, KeyFor(jwtUtil.secret), jwtUtil.codec, jwtUtil.tokenTtlMs, k, name,
                                 db.users[k].password, db.users[k].role, raw, now)
      {
        assert Rows(db.users)[k].username == Rows(db.users)[j].username;
      }
    }

    /** The part of `login` after the name has found user `u`. */
    method LoginFound(u: User, name: string, raw: string, now: nat) returns (r: Result<Response, Exception>)
      requires Valid() && u.username == Some(name)
      modifies jwtUtil`cachedKey, jwtUtil`derivations
      ensures Valid()
      ensures r == LoginAnswer(encoder, KeyFor(jwtUtil.secret), jwtUtil.codec, jwtUtil.tokenTtlMs, u.id, name,
                               u.password, u.role, raw, now)
    {
      if !PasswordMatches(encoder, raw, u.password) {
        return Success(Unauthorized("Invalid credentials"));
      }
      if u.role.None? {
        return Failure(NullPointer);
      }
      var token := jwtUtil.GenerateToken(u.username, u.role.value, now);
      match token
      case Failure(e) =>
        r := Failure(e);
      case Success(t) =>
        r := Success(Response(200, None, LoginBody(UserView(u.id, u.username, u.role), t, "Bearer")));
    }

    /** `logout` as written: revokes what follows a case-sensitive `Bearer `, trimmed; always 200. */
    method Logout(authHeader: Option<string>) returns (r: Response)
      modifies tokenBlacklistService
      ensures r == Response(200, None, NoBody)
      ensures BearerCredential(authHeader).None? ==> tokenBlacklistService.invalidated == old(tokenBlacklistService.invalidated)
      ensures BearerCredential(authHeader).Some? ==>
                tokenBlacklistService.invalidated == old(tokenBlacklistService.invalidated) + {BearerCredential(authHeader).value}
    {
      if authHeader.Some? && StartsWith(authHeader.value, BearerPrefix) {
        var token := Trim(authHeader.value[|BearerPrefix|..]);
        tokenBlacklistService.InvalidateToken(token);
      }
      r := Response(200, None, NoBody);
    }

    /**
     * Logout reading the header the way the authentication filter does, so that
     * whatever credential the filter would accept is the one revoked.
     */
    method LogoutCorrected(authHeader: Option<string>) returns (r: Response)
      modifies tokenBlacklistService
      ensures r == Response(200, None, NoBody)
      ensures ExtractBearer(authHeader).None? ==>
                tokenBlacklistService.invalidated == old(tokenBlacklistService.invalidated)
      ensures ExtractBearer(authHeader).Some? ==>
                tokenBlacklistService.invalidated == old(tokenBlacklistService.invalidated) + {ExtractBearer(authHeader).value}
    {
      var token := ExtractBearer(authHeader);
      if token.Some? {
        tokenBlacklistService.InvalidateToken(token.value);
      }
      r := Response(200, None, NoBody);
    }

    /** `me`: 401 without a case-sensitive bearer header or a valid token, else the token's name and role. */
    method Me(authHeader: Option<string>, now: nat) returns (r: Result<Response, Exception>)
      requires Valid()
      modifies jwtUtil`cachedKey, jwtUtil`derivations
      ensures Valid()
      ensures r == MeResponse(KeyFor(jwtUtil.secret), jwtUtil.codec, tokenBlacklistService.invalidated, authHeader, now)
    {
      if authHeader.None? || !StartsWith(authHeader.value, BearerPrefix) {
        return Success(Unauthorized("Missing bearer token"));
      }
      var token := Trim(authHeader.value[|BearerPrefix|..]);
      var valid := jwtUtil.ValidateToken(token, now);
      if !valid {
        return Success(Unauthorized("Invalid or expired token"));
      }
      var username := jwtUtil.GetUsernameFromToken(token, now);
      var role := jwtUtil.GetRoleFromToken(token, now);
      if username.None? || role.None? {
        return Failure(NullPointer);
      }
      r := Success(Response(200, None, MeBody(username.value, RoleName(role.value))));
    }
  }

  /** What the corrected logout revokes is exactly what the filter would have accepted. */
  lemma CorrectedLogoutDisarmsHeader(key: Result<SigningKey, Exception>, codec: Codec, revoked: set<string>,
                                     header: Option<string>, now: nat)
    requires ExtractBearer(header).Some? ==> ExtractBearer(header).value in revoked
    ensures AuthenticationFor(key, codec, revoked, header, now).None?
  {
  }

  /**
   * Logout as written misses a scheme written in lower case: the header
   * `bearer <token>` revokes nothing, yet the filter still authenticates it.
   */
  lemma LogoutMissesLowerCaseScheme(codec: Codec, secret: string, revoked: set<string>,
                                    username: string, role: Role, issuedAt: nat, ttl: nat, now: nat)
    requires Sound(codec) && KeyFor(secret).Success?
    requires codec.sign(KeyFor(secret).value, IssuedClaims(Some(username), role, issuedAt, ttl)) !in revoked
    requires now < ValidUntil(issuedAt, ttl)
    ensures var token := codec.sign(KeyFor(secret).value, IssuedClaims(Some(username), role, issuedAt, ttl));
            var header := Some("bearer " + token);
            BearerCredential(header).None?
            && AuthenticationFor(KeyFor(secret), codec, revoked, header, now) == Some(Authentication(username, [Authority(role)]))
  {
    var token := codec.sign(KeyFor(secret).value, IssuedClaims(Some(username), role, issuedAt, ttl));
    var scheme := "bearer ";
    assert !StartsWith(scheme + token, BearerPrefix) by {
      assert (scheme + token)[0] == 'b';
    }
    LowerCaseSchemeAccepted(token);
    ExtractedTokenAuthenticates(codec, secret, revoked, username, role, issuedAt, ttl, now, Some(scheme + token));
  }

  lemma LowerCaseSchemeAccepted(token: string)
    requires IsCompact(token)
    ensures ExtractBearer(Some("bearer " + token)) == Some(token)
  {
    LowerCaseSchemeMatches();
    CompactIsPlain(token);
    ExtractBearerAfterScheme("bearer ", token);
    UnquoteRecovers(token, false);
  }

  /** `regionMatches(true, ...)` equates the lower-case scheme with `Bearer `. */
  lemma LowerCaseSchemeMatches()
    ensures StartsWithIgnoreCase("bearer ", BearerPrefix)
  {
    assert UpperChar('b') == 'B';
  }

  /**
   * Logout as written revokes a quoted credential with its quotes, which is not
   * the token the filter extracts: `Bearer "<token>"` stays usable after logout.
   */
  lemma LogoutKeepsQuotes(codec: Codec, secret: string, revoked: set<string>,
                          username: string, role: Role, issuedAt: nat, ttl: nat, now: nat)
    requires Sound(codec) && KeyFor(secret).Success?
    requires codec.sign(KeyFor(secret).value, IssuedClaims(Some(username), role, issuedAt, ttl)) !in revoked
    requires now < ValidUntil(issuedAt, ttl)
    ensures var token := codec.sign(KeyFor(secret).value, IssuedClaims(Some(username), role, issuedAt, ttl));
            var header := Some(BearerPrefix + "\"" + token + "\"");
            BearerCredential(header) == Some("\"" + token + "\"")
            && AuthenticationFor(KeyFor(secret), codec, revoked + {BearerCredential(header).value}, header, now)
               == Some(Authentication(username, [Authority(role)]))
  {
    var token := codec.sign(KeyFor(secret).value, IssuedClaims(Some(username), role, issuedAt, ttl));
    var quoted := "\"" + token + "\"";
    var h := BearerPrefix + "\"" + token + "\"";
    QuotedCredentialRecovered(token);
    assert token !in revoked + {quoted} && ExtractBearer(Some(h)) == Some(token);
    ExtractedTokenAuthenticates(codec, secret, revoked + {quoted}, username, role, issuedAt, ttl, now, Some(h));
  }

  lemma QuotedCredentialRecovered(token: string)
    requires IsCompact(token)
    ensures var h := BearerPrefix + "\"" + token + "\"";
            BearerCredential(Some(h)) == Some("\"" + token + "\"") && ExtractBearer(Some(h)) == Some(token)
    ensures "\"" + token + "\"" != token
  {
    QuotedBearerCredential(token);
    QuotedExtractBearer(token);
  }

  /** Logout keeps the quotes: the whole quoted text is already trimmed. */
  lemma QuotedBearerCredential(token: string)
    ensures BearerCredential(Some(BearerPrefix + "\"" + token + "\"")) == Some("\"" + token + "\"")
  {
    var quoted := "\"" + token + "\"";
    var h := BearerPrefix + "\"" + token + "\"";
    assert h == BearerPrefix + quoted;
    assert h[..|BearerPrefix|] == BearerPrefix;
    assert h[|BearerPrefix|..] == quoted;
    assert quoted[0] == '"' && quoted[|quoted| - 1] == '"';
    assert IsTrimmed(quoted);
  }

  /** The filter strips the quotes and gets the token back. */
  lemma QuotedExtractBearer(token: string)
    requires IsCompact(token)
    ensures ExtractBearer(Some(BearerPrefix + "\"" + token + "\"")) == Some(token)
  {
    CompactIsPlain(token);
    StartsWithIgnoresCase(BearerPrefix, BearerPrefix);
    QuotedAfterScheme(BearerPrefix, token);
  }

  lemma QuotedAfterScheme(scheme: string, token: string)
    requires |scheme| == |BearerPrefix| && StartsWithIgnoreCase(scheme, BearerPrefix) && IsPlainCredential(token)
    ensures ExtractBearer(Some(scheme + "\"" + token + "\"")) == Some(token)
  {
    var body := "\"" + token + "\"";
    assert scheme + "\"" + token + "\"" == scheme + body;
    ExtractBearerAfterScheme(scheme, body);
    assert body[0] == '"' && body[|body| - 1] == '"';
    assert Trim(body) == body;
    UnquoteRecovers(token, true);
  }

}
