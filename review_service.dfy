/**
 * `ReviewService`: reviews are added to a stored cake, by a known user or by
 * nobody, and listed per cake. The service itself does not look at the rating.
 */
module ReviewService {
  import opened Wrappers
  import opened Exceptions
  import opened Models
  import opened Repositories

  /** The cakes the stored reviews are about, whose identifiers the listing reads. */
  function ReviewedCakes(reviews: map<int, Review>): set<Cake> {
    set k | k in reviews :: reviews[k].cake
  }

  /** `getByCake`, without its order: the stored reviews of the cake with identifier `cakeId`. */
  function ByCake(reviews: map<int, Review>, cakeId: int): (r: set<Review>)
    reads ReviewedCakes(reviews)
    ensures r <= reviews.Values
    ensures forall k | k in reviews && reviews[k].cake.id == cakeId :: reviews[k] in r
    ensures forall v | v in r :: v.cake.id == cakeId
  {
    set k | k in reviews && reviews[k].cake.id == cakeId :: reviews[k]
  }

  /**
   * `add`: an unknown cake is `IllegalArgument`. Otherwise a review of the
   * stored cake with exactly the given rating and comment is stored under a
   * fresh identifier; its user is the stored user with that name, or none
   * when the name is absent or unknown. The rating is not checked here.
   */
  method Add(db: Store, cakeId: int, username: Option<string>, rating: int, comment: Option<string>, now: int)
    returns (r: Result<Review, Exception>)
    requires db.Valid()
    modifies db
    ensures db.Valid()
    ensures cakeId !in old(db.cakes) <==> r.Failure?
    ensures r.Failure? ==> r.error == IllegalArgument && unchanged(db)
    ensures r.Success? ==>
              var v := r.value;
              v.id == old(db.nextId) && v.id !in old(db.reviews) && db.reviews == old(db.reviews)[v.id := v]
              && v.cake == old(db.cakes)[cakeId] && v.rating == rating && v.comment == comment && v.createdAt == now
              && (v.user == null <==> username.None? || !old(db.ExistsByUsername(username)))
              && (v.user != null ==> v.user in db.users.Values && v.user.username == username)
    ensures db.users == old(db.users) && db.carts == old(db.carts) && db.cakes == old(db.cakes)
    ensures db.categories == old(db.categories) && db.orders == old(db.orders) && db.sales == old(db.sales)
    ensures db.chefs == old(db.chefs)
  {
    if cakeId !in db.cakes {
      return Failure(IllegalArgument);
    }
    var cake := db.cakes[cakeId];
    var user: User? := null;
    if username.Some? {
      var found, key := db.FindByUsername(username.value);
      if found.Some? {
        user := found.value;
      }
    }
    var saved := db.SaveNewReview(Review(0, cake, user, rating, comment, now));
    r := Success(saved);
  }

  /**
   * A review stored under a fresh key joins the listing of its own cake and
   * of no other: every other cake's reviews stay as they were.
   */
  lemma {:induction false} AddedReviewListedUnderItsCake(reviews: map<int, Review>, id: int, v: Review, cakeId: int)
    requires id !in reviews
    ensures ByCake(reviews[id := v], cakeId) == if v.cake.id == cakeId then ByCake(reviews, cakeId) + {v}
                                                else ByCake(reviews, cakeId)
  {
    var after := reviews[id := v];
    forall w | w in ByCake(after, cakeId)
      ensures w in ByCake(reviews, cakeId) || (w == v && v.cake.id == cakeId)
    {
      var k :| k in after && after[k].cake.id == cakeId && after[k] == w;
      if k != id {
        assert reviews[k] == w;
      }
    }
    forall w | w in ByCake(reviews, cakeId)
      ensures w in ByCake(after, cakeId)
    {
      var k :| k in reviews && reviews[k].cake.id == cakeId && reviews[k] == w;
      assert after[k] == w;
    }
    if v.cake.id == cakeId {
      assert after[id] == v;
    }
  }
}
