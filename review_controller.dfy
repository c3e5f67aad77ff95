/**
 * `ReviewController.create`: the author is the user named by the bearer token,
 * if any; a rating outside 1 to 5 is refused with 400 before anything is
 * saved; otherwise the review is added and answered with 201 and its location.
 */
module ReviewController {
  import opened Wrappers
  import opened Http
  import opened JavaLang
  import opened Exceptions
  import opened Models
  import opened Repositories
  import opened Jwt
  import opened JwtFilter
  import opened ReviewService

  /**
   * The token `create` reads: what follows a case-sensitive `Bearer `, neither
   * trimmed nor unquoted; none without that prefix.
   */
  function BearerToken(auth: Option<string>): (t: Option<string>)
    ensures t.Some? <==> auth.Some? && StartsWith(auth.value, BearerPrefix)
    ensures t.Some? ==> auth.value == BearerPrefix + t.value
  {
    if auth.Some? && StartsWith(auth.value, BearerPrefix) then Some(auth.value[|BearerPrefix|..]) else None
  }

  /** Whatever follows the exact scheme is the token, untouched. */
  lemma BearerTokenRoundTrip(t: string)
    ensures BearerToken(Some(BearerPrefix + t)) == Some(t)
  {
    assert (BearerPrefix + t)[..|BearerPrefix|] == BearerPrefix;
    assert (BearerPrefix + t)[|BearerPrefix|..] == t;
  }

  /** The scheme written in lower case gives no token, so the review has no author. */
  lemma LowerCaseSchemeGivesNoToken(t: string)
    ensures BearerToken(Some("bearer " + t)) == None
  {
    assert ("bearer " + t)[0] == 'b';
  }

  /** The review's author name: the subject of the token, none without a token or when it does not parse. */
  function AuthorName(key: Result<SigningKey, Exception>, codec: Codec, auth: Option<string>, now: nat): (r: Option<string>)
    ensures BearerToken(auth).None? ==> r.None?
    ensures BearerToken(auth).Some? ==> r == UsernameOf(key, codec, BearerToken(auth).value, now)
  {
    match BearerToken(auth)
    case None => None
    case Some(t) => UsernameOf(key, codec, t, now)
  }

  /** The rating check of `create`. */
  predicate RatingInRange(rating: int) {
    !(rating < 1 || rating > 5)
  }

  /** `"/api/cakes/" + cakeId + "/reviews/" + saved.getId()`. */
  function ReviewLocation(cakeId: int, reviewId: int): (s: string)
    ensures StartsWith(s, "/api/cakes/")
    ensures EndsWith(s, "/reviews/" + LongToString(reviewId))
  {
    var id := "/reviews/" + LongToString(reviewId);
    var s := "/api/cakes/" + LongToString(cakeId) + id;
    assert s[..|"/api/cakes/"|] == "/api/cakes/";
    assert s[|s| - |id|..] == id;
    s
  }

  class ReviewController {
    const db: Store
    const jwtUtil: JwtUtil

    ghost predicate Valid()
      reads this, jwtUtil
    {
      jwtUtil.Valid()
    }

    constructor (db: Store, jwtUtil: JwtUtil)
      requires jwtUtil.Valid()
      ensures Valid() && this.db == db && this.jwtUtil == jwtUtil
    {
      this.db := db;
      this.jwtUtil := jwtUtil;
    }

    /**
     * `create`: the token is read before the rating is checked. A rating out
     * of range is 400 and the store is untouched; an unknown cake throws
     * `IllegalArgument`; otherwise the review with exactly that cake, rating
     * and comment, by the token's user if that user is stored, is saved and
     * answered with 201 at its location.
     */
    method Create(cakeId: int, auth: Option<string>, rating: int, comment: Option<string>, now: nat)
      returns (r: Result<Reply<Review>, Exception>)
      requires Valid() && db.Valid()
      modifies db, jwtUtil`cachedKey, jwtUtil`derivations
      ensures Valid() && db.Valid()
      ensures !RatingInRange(rating) ==> r == Success(Status(400)) && unchanged(db)
      ensures RatingInRange(rating) && cakeId !in old(db.cakes) ==> r == Failure(IllegalArgument) && unchanged(db)
      ensures RatingInRange(rating) && cakeId in old(db.cakes) ==>
                r.Success? && r.value.Created?
                && var v := r.value.body;
                   var author := AuthorName(KeyFor(jwtUtil.secret), jwtUtil.codec, auth, now);
                   r.value.location == ReviewLocation(cakeId, v.id)
                   && v.id == old(db.nextId) && db.reviews == old(db.reviews)[v.id := v]
                   && v.cake == old(db.cakes)[cakeId] && v.rating == rating && v.comment == comment && v.createdAt == now
                   && (v.user == null <==> author.None? || !old(db.ExistsByUsername(author)))
                   && (v.user != null ==> v.user.username == author)
      ensures db.users == old(db.users) && db.carts == old(db.carts) && db.cakes == old(db.cakes)
      ensures db.categories == old(db.categories) && db.orders == old(db.orders) && db.sales == old(db.sales)
      ensures db.chefs == old(db.chefs)
    {
      var token := BearerToken(auth);
      var username: Option<string> := None;
      if token.Some? {
        username := jwtUtil.GetUsernameFromToken(token.value, now);
      }
      if !RatingInRange(rating) {
        return Success(Status(400));
      }
      var saved := Add(db, cakeId, username, rating, comment, now);
      if saved.Failure? {
        return Failure(saved.error);
      }
      r := Success(Created(ReviewLocation(cakeId, saved.value.id), saved.value));
    }
  }
}
