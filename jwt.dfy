/**
 * JwtUtil: issuing and checking the HS256-signed JSON Web Tokens the shop uses
 * as bearer credentials. The signing library itself is a parameter (`Codec`);
 * what the model relies on about it is stated once, in `Sound`. Instants are
 * milliseconds since the epoch, supplied by the caller instead of read from the
 * clock.
 */
module Jwt {
  import opened Wrappers
  import opened JavaLang
  import opened Exceptions
  import opened Models
  import opened TokenBlacklist

  /** The default of `jwt.ttl-ms`: ten hours. */
  const DefaultTtlMs: nat := 36_000_000

  /** An HMAC-SHA-256 key needs at least 256 bits (section 3.2 of RFC 7518). */
  const MinKeyBytes: nat := 32

  /** The claims the shop reads and writes: `sub`, `role`, `iat` and `exp`. */
  datatype Claims = Claims(subject: Option<string>, role: Option<string>, issuedAt: Option<nat>, expiration: Option<nat>)

  /** `Keys.hmacShaKeyFor(secret.getBytes(UTF_8))`: the raw secret is the key. */
  datatype SigningKey = HmacShaKey(secret: string)

  /** The signing library: compact serialisation, and verified parsing at an instant (`None` when it throws). */
  datatype Codec = Codec(sign: (SigningKey, Claims) -> string, parse: (SigningKey, string, nat) -> Option<Claims>)

  /** A NumericDate (section 2 of RFC 7519) counts whole seconds, so a millisecond instant loses its fraction. */
  function WholeSeconds(ms: nat): (r: nat)
    ensures r <= ms < r + 1000
    ensures r % 1000 == 0
  {
    ms / 1000 * 1000
  }

  function DateClaim(d: Option<nat>): Option<nat> {
    match d
    case None => None
    case Some(ms) => Some(WholeSeconds(ms))
  }

  /** The claims as they come back from a serialised token. */
  function Serialised(c: Claims): Claims {
    c.(issuedAt := DateClaim(c.issuedAt), expiration := DateClaim(c.expiration))
  }

  /** The library rejects a token only once the current instant is after its `exp`. */
  predicate NotExpired(c: Claims, now: nat) {
    c.expiration.None? || now <= c.expiration.value
  }

  /** The JWS compact serialisation (section 7.1 of RFC 7515): base64url parts joined by dots. */
  predicate IsCompactChar(c: char) {
    ('A' <= c <= 'Z') || ('a' <= c <= 'z') || ('0' <= c <= '9') || c == '-' || c == '_' || c == '.'
  }

  predicate IsCompact(token: string) {
    token != [] && forall i :: 0 <= i < |token| ==> IsCompactChar(token[i])
  }

  /**
   * What the model assumes of the library: a token it signed is compact text and
   * parses back, under the same key, to the serialised claims as long as they have
   * not expired, and is refused once they have; and no parse ever yields expired claims.
   */
  ghost predicate Sound(codec: Codec) {
    (forall key, claims :: IsCompact(codec.sign(key, claims)))
    && (forall key, claims, now ::
       codec.parse(key, codec.sign(key, claims), now)
       == if NotExpired(Serialised(claims), now) then Some(Serialised(claims)) else None)
    && (forall key, token, now | codec.parse(key, token, now).Some? ::
          NotExpired(codec.parse(key, token, now).value, now))
  }

  /** `signingKey()` without the cache: a secret shorter than 32 UTF-8 bytes is refused. */
  function KeyFor(secret: string): Result<SigningKey, Exception> {
    if Utf8Length(secret) < MinKeyBytes then Failure(IllegalState) else Success(HmacShaKey(secret))
  }

  /** The claims `generateToken` signs at instant `now`. */
  function IssuedClaims(username: Option<string>, role: Role, now: nat, ttl: nat): Claims {
    Claims(username, Some(RoleName(role)), Some(now), Some(now + ttl))
  }

  /** `parseClaims`, with every exception (including a refused secret) as `None`. */
  function ParsedClaims(key: Result<SigningKey, Exception>, codec: Codec, token: string, now: nat): Option<Claims> {
    match key
    case Failure(_) => None
    case Success(k) => codec.parse(k, token, now)
  }

  /** `validateToken`: not revoked, parses, and carries an expiry strictly after `now`. */
  function IsValid(key: Result<SigningKey, Exception>, codec: Codec, revoked: set<string>, token: string, now: nat): (r: bool)
    ensures token in revoked ==> !r
    ensures key.Failure? ==> !r
    ensures r ==> ParsedClaims(key, codec, token, now).Some?
                  && ParsedClaims(key, codec, token, now).value.expiration.Some?
                  && now < ParsedClaims(key, codec, token, now).value.expiration.value
  {
    if token in revoked then false
    else
      match ParsedClaims(key, codec, token, now)
      case None => false
      case Some(c) => c.expiration.Some? && now < c.expiration.value
  }

  /** `getUsernameFromToken`: the subject, or null on any failure. */
  function UsernameOf(key: Result<SigningKey, Exception>, codec: Codec, token: string, now: nat): (r: Option<string>)
    ensures key.Failure? ==> r.None?
  {
    match ParsedClaims(key, codec, token, now)
    case None => None
    case Some(c) => c.subject
  }

  /** `getRoleFromToken`: the `role` claim looked up by exact name, or null on any failure. */
  function RoleOf(key: Result<SigningKey, Exception>, codec: Codec, token: string, now: nat): (r: Option<Role>)
    ensures key.Failure? ==> r.None?
    ensures r.Some? ==> ParsedClaims(key, codec, token, now).Some?
                        && ParsedClaims(key, codec, token, now).value.role == Some(RoleName(r.value))
  {
    match ParsedClaims(key, codec, token, now)
    case None => None
    case Some(c) =>
      match c.role
      case None => None
      case Some(v) => RoleValueOf(v)
  }

  /** The last instant, exclusive, at which a token issued at `issuedAt` is still accepted. */
  function ValidUntil(issuedAt: nat, ttl: nat): nat {
    WholeSeconds(issuedAt + ttl)
  }

  /**
   * A token issued at `issuedAt` and not revoked is valid, and yields back its
   * user name and role, at every instant before its expiry rounded down to the second.
   */
  lemma IssuedTokenAccepted(codec: Codec, secret: string, revoked: set<string>,
                            username: Option<string>, role: Role, issuedAt: nat, ttl: nat, now: nat)
    requires Sound(codec) && KeyFor(secret).Success?
    requires codec.sign(KeyFor(secret).value, IssuedClaims(username, role, issuedAt, ttl)) !in revoked
    requires now < ValidUntil(issuedAt, ttl)
    ensures var token := codec.sign(KeyFor(secret).value, IssuedClaims(username, role, issuedAt, ttl));
            IsValid(KeyFor(secret), codec, revoked, token, now)
            && UsernameOf(KeyFor(secret), codec, token, now) == username
            && RoleOf(KeyFor(secret), codec, token, now) == Some(role)
  {
    var claims := IssuedClaims(username, role, issuedAt, ttl);
    var key := KeyFor(secret).value;
    assert NotExpired(Serialised(claims), now);
    assert codec.parse(key, codec.sign(key, claims), now)
           == if NotExpired(Serialised(claims), now) then Some(Serialised(claims)) else None;
    RoleNameRoundTrip(role);
  }

  /** From its rounded-down expiry on, a token is never valid again. */
  lemma IssuedTokenExpires(codec: Codec, secret: string, revoked: set<string>,
                           username: Option<string>, role: Role, issuedAt: nat, ttl: nat, now: nat)
    requires Sound(codec)
    requires ValidUntil(issuedAt, ttl) <= now
    ensures !IsValid(KeyFor(secret), codec, revoked,
                     codec.sign(HmacShaKey(secret), IssuedClaims(username, role, issuedAt, ttl)), now)
  {
    var claims := IssuedClaims(username, role, issuedAt, ttl);
    var key := HmacShaKey(secret);
    if KeyFor(secret).Success? {
      assert ParsedClaims(KeyFor(secret), codec, codec.sign(key, claims), now)
             == if NotExpired(Serialised(claims), now) then Some(Serialised(claims)) else None;
    }
  }

  /** A token lives at most its time-to-live, and loses under a second of it. */
  lemma LifetimeBounds(issuedAt: nat, ttl: nat)
    ensures ValidUntil(issuedAt, ttl) <= issuedAt + ttl < ValidUntil(issuedAt, ttl) + 1000
  {
  }

  class JwtUtil {
    const blacklist: TokenBlacklistService
    const secret: string
    const tokenTtlMs: nat
    const codec: Codec
    var cachedKey: Option<SigningKey>
    /** How many times the key has been derived from the secret. */
    ghost var derivations: nat

    /** The key is derived at most once, and the cached key is the one the secret gives. */
    ghost predicate Valid()
      reads this
    {
      derivations <= 1
      && (cachedKey.Some? <==> derivations == 1)
      && (cachedKey.Some? ==> KeyFor(secret) == Success(cachedKey.value))
    }

    constructor (blacklist: TokenBlacklistService, secret: string, tokenTtlMs: nat, codec: Codec)
      ensures Valid() && cachedKey == None
      ensures this.blacklist == blacklist && this.secret == secret
      ensures this.tokenTtlMs == tokenTtlMs && this.codec == codec
    {
      this.blacklist := blacklist;
      this.secret := secret;
      this.tokenTtlMs := tokenTtlMs;
      this.codec := codec;
      cachedKey := None;
      derivations := 0;
    }

    /** `signingKey()`: derive and cache the key on first use; a short secret throws every time. */
    method SigningKey() returns (r: Result<SigningKey, Exception>)
      requires Valid()
      modifies this`cachedKey, this`derivations
      ensures Valid()
      ensures r == KeyFor(secret)
      ensures cachedKey.Some? <==> r.Success?
      ensures old(cachedKey).Some? ==> cachedKey == old(cachedKey) && derivations == old(derivations)
    {
      if cachedKey.Some? {
        return Success(cachedKey.value);
      }
      var keyBytes := Utf8Length(secret);
      if keyBytes < MinKeyBytes {
        return Failure(IllegalState);
      }
      var k := HmacShaKey(secret);
      cachedKey := Some(k);
      derivations := derivations + 1;
      r := Success(k);
    }

    /** `generateToken`: sign subject, role name, `iat` = now and `exp` = now + ttl. */
    method GenerateToken(username: Option<string>, role: Role, now: nat) returns (r: Result<string, Exception>)
      requires Valid()
      modifies this`cachedKey, this`derivations
      ensures Valid()
      ensures KeyFor(secret).Failure? ==> r == Failure(IllegalState)
      ensures KeyFor(secret).Success? ==>
                r == Success(codec.sign(KeyFor(secret).value, IssuedClaims(username, role, now, tokenTtlMs)))
    {
      var claims := IssuedClaims(username, role, now, tokenTtlMs);
      var key := SigningKey();
      match key
      case Failure(e) => r := Failure(e);
      case Success(k) => r := Success(codec.sign(k, claims));
    }

    /** `parseClaims` inside the callers' catch-all: any failure is `None`. */
    method ParseClaims(token: string, now: nat) returns (r: Option<Claims>)
      requires Valid()
      modifies this`cachedKey, this`derivations
      ensures Valid()
      ensures r == ParsedClaims(KeyFor(secret), codec, token, now)
    {
      var key := SigningKey();
      match key
      case Failure(_) => r := None;
      case Success(k) => r := codec.parse(k, token, now);
    }

    /** `getUsernameFromToken`. */
    method GetUsernameFromToken(token: string, now: nat) returns (r: Option<string>)
      requires Valid()
      modifies this`cachedKey, this`derivations
      ensures Valid()
      ensures r == UsernameOf(KeyFor(secret), codec, token, now)
    {
      var claims := ParseClaims(token, now);
      r := if claims.Some? then claims.value.subject else None;
    }

    /** `getRoleFromToken`. */
    method GetRoleFromToken(token: string, now: nat) returns (r: Option<Role>)
      requires Valid()
      modifies this`cachedKey, this`derivations
      ensures Valid()
      ensures r == RoleOf(KeyFor(secret), codec, token, now)
    {
      var claims := ParseClaims(token, now);
      if claims.Some? && claims.value.role.Some? {
        r := RoleValueOf(claims.value.role.value);
      } else {
        r := None;
      }
    }

    /** `isTokenBlacklisted`. */
    method IsTokenBlacklisted(token: string) returns (b: bool)
      ensures b <==> token in blacklist.invalidated
    {
      b := blacklist.EsteInvalid(token);
    }

    /** `validateToken`: a revoked token is refused before the key is even looked at. */
    method ValidateToken(token: string, now: nat) returns (valid: bool)
      requires Valid()
      modifies this`cachedKey, this`derivations
      ensures Valid()
      ensures valid == IsValid(KeyFor(secret), codec, blacklist.invalidated, token, now)
      ensures token in blacklist.invalidated ==> cachedKey == old(cachedKey) && derivations == old(derivations)
    {
      var revoked := IsTokenBlacklisted(token);
      if revoked {
        return false;
      }
      var claims := ParseClaims(token, now);
      valid := claims.Some? && claims.value.expiration.Some? && now < claims.value.expiration.value;
    }
  }
}
