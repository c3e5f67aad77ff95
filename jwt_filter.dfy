/**
 * JwtAuthenticationFilter: once per request, turn an `Authorization: Bearer`
 * header into an authenticated principal with a single `ROLE_` authority, or
 * leave the request anonymous. The security context and the filter chain are
 * small classes standing for Spring's.
 */
module JwtFilter {
  import opened Wrappers
  import opened JavaLang
  import opened Exceptions
  import opened Models
  import opened TokenBlacklist
  import opened Jwt

  /** The authentication scheme prefix (section 2.1 of RFC 6750), matched without regard to case. */
  const BearerPrefix: string := "Bearer "

  /** `extractBearer`: the credential after a case-insensitive `Bearer `, trimmed and unquoted once. */
  function ExtractBearer(header: Option<string>): (r: Option<string>)
    ensures header.None? ==> r.None?
    ensures header.Some? && !StartsWithIgnoreCase(header.value, BearerPrefix) ==> r.None?
    ensures r.Some? ==> r.value != [] && IsTrimmed(r.value)
  {
    match header
    case None => None
    case Some(h) =>
      if !StartsWithIgnoreCase(h, BearerPrefix) then None
      else
        var u := Unquote(Trim(h[|BearerPrefix|..]));
        if u == [] then None else Some(u)
  }

  /** One pair of surrounding double quotes is dropped, and what was inside trimmed again. */
  function Unquote(t: string): string {
    if StartsWith(t, "\"") && EndsWith(t, "\"") && |t| >= 2 then Trim(t[1..|t| - 1]) else t
  }

  /** A credential as a client writes it: non-empty, not padded, not wrapped in quotes. */
  predicate IsPlainCredential(t: string) {
    t != [] && IsTrimmed(t) && !(t[0] == '"' && t[|t| - 1] == '"')
  }

  /**
   * Whatever the case of the scheme, the padding around the credential and whether
   * it is quoted, the filter recovers exactly the credential the client sent.
   */
  lemma ExtractBearerRecoversCredential(scheme: string, before: string, t: string, after: string, quoted: bool)
    requires |scheme| == |BearerPrefix| && StartsWithIgnoreCase(scheme, BearerPrefix)
    requires AllTrimmable(before) && AllTrimmable(after) && IsPlainCredential(t)
    ensures ExtractBearer(Some(scheme + before + (if quoted then "\"" + t + "\"" else t) + after)) == Some(t)
  {
    var body := if quoted then "\"" + t + "\"" else t;
    var rest := before + body + after;
    assert scheme + before + body + after == scheme + rest;
    ExtractBearerAfterScheme(scheme, rest);
    TrimPadded(before, body, after);
    UnquoteRecovers(t, quoted);
    assert Unquote(Trim(rest)) == t;
  }

  /** Past an accepted scheme, extraction looks only at the rest of the header. */
  lemma ExtractBearerAfterScheme(scheme: string, rest: string)
    requires |scheme| == |BearerPrefix| && StartsWithIgnoreCase(scheme, BearerPrefix)
    ensures var u := Unquote(Trim(rest));
            ExtractBearer(Some(scheme + rest)) == if u == [] then None else Some(u)
  {
    var h := scheme + rest;
    assert h[..|scheme|] == scheme;
    assert h[|BearerPrefix|..] == rest;
  }

  lemma UnquoteRecovers(t: string, quoted: bool)
    requires IsPlainCredential(t)
    ensures Unquote(if quoted then "\"" + t + "\"" else t) == t
  {
    if quoted {
      var body := "\"" + t + "\"";
      assert body[1..|body| - 1] == t;
      assert StartsWith(body, "\"") && EndsWith(body, "\"");
    } else {
      assert !(StartsWith(t, "\"") && EndsWith(t, "\""));
    }
  }

  /** A compact token is a plain credential. */
  lemma CompactIsPlain(token: string)
    requires IsCompact(token)
    ensures IsPlainCredential(token)
  {
    assert IsCompactChar(token[0]) && IsCompactChar(token[|token| - 1]);
  }

  /** A Spring `UsernamePasswordAuthenticationToken`: principal and granted authorities. */
  datatype Authentication = Authentication(principal: string, authorities: seq<string>)

  /** The authority granted for a role. */
  function Authority(role: Role): string {
    "ROLE_" + RoleName(role)
  }

  /** The authentication a request with this header earns, if any. */
  function AuthenticationFor(key: Result<SigningKey, Exception>, codec: Codec, revoked: set<string>,
                             header: Option<string>, now: nat): (r: Option<Authentication>)
    ensures r.Some? ==> ExtractBearer(header).Some?
                        && ExtractBearer(header).value !in revoked
                        && IsValid(key, codec, revoked, ExtractBearer(header).value, now)
    ensures r.Some? ==> Some(r.value.principal) == UsernameOf(key, codec, ExtractBearer(header).value, now)
                        && RoleOf(key, codec, ExtractBearer(header).value, now).Some?
                        && r.value.authorities == [Authority(RoleOf(key, codec, ExtractBearer(header).value, now).value)]
  {
    match ExtractBearer(header)
    case None => None
    case Some(token) =>
      if token in revoked then None
      else if !IsValid(key, codec, revoked, token, now) then None
      else
        match (UsernameOf(key, codec, token, now), RoleOf(key, codec, token, now))
        case (Some(u), Some(role)) => Some(Authentication(u, [Authority(role)]))
        case _ => None
  }

  /**
   * End to end: a token issued for a named user and sent as `Bearer <token>`
   * authenticates that user with the authority of the role it was issued for,
   * until it expires or is revoked.
   */
  lemma IssuedTokenAuthenticates(codec: Codec, secret: string, revoked: set<string>,
                                 username: string, role: Role, issuedAt: nat, ttl: nat, now: nat)
    requires Sound(codec) && KeyFor(secret).Success?
    requires codec.sign(KeyFor(secret).value, IssuedClaims(Some(username), role, issuedAt, ttl)) !in revoked
    requires now < ValidUntil(issuedAt, ttl)
    ensures var token := codec.sign(KeyFor(secret).value, IssuedClaims(Some(username), role, issuedAt, ttl));
            AuthenticationFor(KeyFor(secret), codec, revoked, Some(BearerPrefix + token), now)
            == Some(Authentication(username, [Authority(role)]))
  {
    var token := codec.sign(KeyFor(secret).value, IssuedClaims(Some(username), role, issuedAt, ttl));
    BearerCompactRecovered(token);
    ExtractedTokenAuthenticates(codec, secret, revoked, username, role, issuedAt, ttl, now, Some(BearerPrefix + token));
  }

  /** Any header from which the filter extracts an issued, live, unrevoked token authenticates its user. */
  lemma ExtractedTokenAuthenticates(codec: Codec, secret: string, revoked: set<string>,
                                    username: string, role: Role, issuedAt: nat, ttl: nat, now: nat,
                                    header: Option<string>)
    requires Sound(codec) && KeyFor(secret).Success?
    requires codec.sign(KeyFor(secret).value, IssuedClaims(Some(username), role, issuedAt, ttl)) !in revoked
    requires now < ValidUntil(issuedAt, ttl)
    requires ExtractBearer(header) == Some(codec.sign(KeyFor(secret).value, IssuedClaims(Some(username), role, issuedAt, ttl)))
    ensures AuthenticationFor(KeyFor(secret), codec, revoked, header, now) == Some(Authentication(username, [Authority(role)]))
  {
    IssuedTokenAccepted(codec, secret, revoked, Some(username), role, issuedAt, ttl, now);
  }

  /** A compact token sent as `Bearer <token>` is extracted unchanged. */
  lemma BearerCompactRecovered(token: string)
    requires IsCompact(token)
    ensures ExtractBearer(Some(BearerPrefix + token)) == Some(token)
  {
    CompactIsPlain(token);
    assert StartsWith(BearerPrefix, BearerPrefix);
    StartsWithIgnoresCase(BearerPrefix, BearerPrefix);
    ExtractBearerAfterScheme(BearerPrefix, token);
    TrimPadded([], token, []);
    assert [] + token + [] == token;
    UnquoteRecovers(token, false);
  }

  /** `SecurityContextHolder`'s context for the current request. */
  class SecurityContext {
    var authentication: Option<Authentication>

    constructor ()
      ensures authentication == None
    {
      authentication := None;
    }
  }

  /** The rest of the filter chain; the model only counts how often it is entered. */
  class FilterChain {
    var invocations: nat

    constructor ()
      ensures invocations == 0
    {
      invocations := 0;
    }

    method DoFilter()
      modifies this
      ensures invocations == old(invocations) + 1
    {
      invocations := invocations + 1;
    }
  }

  class JwtAuthenticationFilter {
    const jwtUtil: JwtUtil
    const tokenBlacklistService: TokenBlacklistService

    /** The filter and the token utility share the one blacklist bean. */
    ghost predicate Valid()
      reads this, jwtUtil
    {
      jwtUtil.blacklist == tokenBlacklistService && jwtUtil.Valid()
    }

    constructor (jwtUtil: JwtUtil, tokenBlacklistService: TokenBlacklistService)
      requires jwtUtil.Valid() && jwtUtil.blacklist == tokenBlacklistService
      ensures Valid() && this.jwtUtil == jwtUtil && this.tokenBlacklistService == tokenBlacklistService
    {
      this.jwtUtil := jwtUtil;
      this.tokenBlacklistService := tokenBlacklistService;
    }

    /**
     * `doFilterInternal`: an already authenticated request passes untouched;
     * otherwise the context ends up holding exactly the authentication the header
     * earns. Either way the rest of the chain runs once.
     */
    method DoFilterInternal(context: SecurityContext, authHeader: Option<string>, chain: FilterChain, now: nat)
      requires Valid()
      modifies context, chain, jwtUtil`cachedKey, jwtUtil`derivations
      ensures Valid()
      ensures chain.invocations == old(chain.invocations) + 1
      ensures old(context.authentication).Some? ==>
                context.authentication == old(context.authentication)
                && jwtUtil.cachedKey == old(jwtUtil.cachedKey)
      ensures old(context.authentication).None? ==>
                context.authentication
                == AuthenticationFor(KeyFor(jwtUtil.secret), jwtUtil.codec, tokenBlacklistService.invalidated, authHeader, now)
    {
      if context.authentication.Some? {
        chain.DoFilter();
        return;
      }
      var token := ExtractBearer(authHeader);
      if token.Some? {
        if tokenBlacklistService.EsteInvalid(token.value) {
          context.authentication := None;
        } else {
          var valid := jwtUtil.ValidateToken(token.value, now);
          if valid {
            var username := jwtUtil.GetUsernameFromToken(token.value, now);
            var role := jwtUtil.GetRoleFromToken(token.value, now);
            if username.Some? && role.Some? {
              context.authentication := Some(Authentication(username.value, [Authority(role.value)]));
            } else {
              context.authentication := None;
            }
          } else {
            context.authentication := None;
          }
        }
      }
      chain.DoFilter();
    }
  }
}
