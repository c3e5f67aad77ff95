/**
 * `CartService`: a user's cart and the cakes in it. Every operation looks the
 * cart up first and fails with `CartNotFound` when it is missing; adding a cake
 * goes through three more checks, in a fixed order, before the cart changes.
 */
module CartService {
  import opened Wrappers
  import opened Exceptions
  import opened Models
  import opened Repositories
  import OrderService

  /** `CartRepository.existsCakeInCart`: the cart holds a cake with that identifier. */
  predicate HoldsCake(cart: Cart, cakeId: int)
    reads cart, cart.cakes
  {
    exists c :: c in cart.cakes && c.id == cakeId
  }

  /**
   * The first check of `addCakeToCart` that fails, from what the repositories
   * answer: whether the cart exists, whether it already holds the cake, and the
   * stock of the cake if the cake exists.
   */
  function AddCakeRejection(cartFound: bool, alreadyInCart: bool, cakeId: int, stock: Option<int>): (r: Option<Exception>)
    ensures r.None? <==> cartFound && !alreadyInCart && stock.Some? && stock.value > 0
    ensures r == Some(CartNotFound) <==> !cartFound
    ensures r == Some(CakeAlreadyInCart) <==> cartFound && alreadyInCart
    ensures r == Some(CakeNotFound(cakeId)) <==> cartFound && !alreadyInCart && stock.None?
    ensures r == Some(OutOfStock) <==> cartFound && !alreadyInCart && stock.Some? && stock.value <= 0
  {
    if !cartFound then Some(CartNotFound)
    else if alreadyInCart then Some(CakeAlreadyInCart)
    else if stock.None? then Some(CakeNotFound(cakeId))
    else if stock.value <= 0 then Some(OutOfStock)
    else None
  }

  /** The stock of the cake stored under `cakeId`, if there is one. */
  function StockOf(cakes: map<int, Cake>, cakeId: int): (r: Option<int>)
    reads cakes.Values`stock
    ensures r.Some? <==> cakeId in cakes
    ensures r.Some? ==> r.value == cakes[cakeId].stock
  {
    if cakeId in cakes then Some(cakes[cakeId].stock) else None
  }

  /** Every cart is stored under its own identifier, as `save` leaves it. */
  ghost predicate CartsKeyed(db: Store)
    reads db, db.carts.Values
  {
    forall k | k in db.carts :: db.carts[k].id == k
  }

  /** The outcome of `addCakeToCart` in the store's current state. */
  ghost function AddCakeOutcome(db: Store, cartId: int, cakeId: int): Option<Exception>
    reads db, db.cakes.Values`stock, if cartId in db.carts then {db.carts[cartId]} else {}
    reads if cartId in db.carts then db.carts[cartId].cakes else {}
  {
    AddCakeRejection(cartId in db.carts, cartId in db.carts && HoldsCake(db.carts[cartId], cakeId),
                     cakeId, StockOf(db.cakes, cakeId))
  }

  /**
   * `createCartForUser`: an unknown user is rejected; otherwise a cart for the
   * stored user is saved, unless a cart for that user already exists, which the
   * unique `user_id` column refuses.
   */
  method CreateCartForUser(db: Store, userId: int) returns (r: Result<Cart, Exception>)
    requires db.Valid()
    modifies db
    ensures db.Valid()
    ensures userId !in old(db.users) ==> r == Failure(UserNotFound) && unchanged(db)
    ensures userId in old(db.users) && (exists k :: old(db.IsCartOf(k, userId))) ==>
              r == Failure(DataIntegrityViolation) && unchanged(db)
    ensures userId in old(db.users) && !(exists k :: old(db.IsCartOf(k, userId))) ==> r.Success?
    ensures r.Success? ==>
              userId in old(db.users) && fresh(r.value) && r.value.user == old(db.users)[userId] && r.value.cakes == {}
              && r.value.id == old(db.nextId) && db.carts == old(db.carts)[r.value.id := r.value]
              && db.users == old(db.users) && db.cakes == old(db.cakes)
  {
    if userId !in db.users {
      return Failure(UserNotFound);
    }
    if exists k :: k in db.carts && db.IsCartOf(k, userId) {
      return Failure(DataIntegrityViolation);
    }
    var cart := new Cart.ForUser(db.users[userId]);
    db.SaveNewCart(cart);
    r := Success(cart);
  }

  /** `getCartByUserId`: a cart of that user, or `CartNotFound`; never an empty answer. */
  method GetCartByUserId(db: Store, userId: int) returns (r: Result<Cart, Exception>, ghost key: int)
    ensures r.Failure? <==> !exists k :: db.IsCartOf(k, userId)
    ensures r.Failure? ==> r.error == CartNotFound
    ensures r.Success? ==> db.IsCartOf(key, userId) && db.carts[key] == r.value
  {
    key := 0;
    if k :| k in db.carts && db.IsCartOf(k, userId) {
      r, key := Success(db.carts[k]), k;
    } else {
      r := Failure(CartNotFound);
    }
  }

  /**
   * `addCakeToCart`: the first failing check decides; on success exactly the
   * stored cake is added to exactly that cart, and no cart changes otherwise.
   */
  method AddCakeToCart(db: Store, cartId: int, cakeId: int) returns (r: Outcome<Exception>)
    modifies if cartId in db.carts then {db.carts[cartId]} else {}
    ensures var rejection := old(AddCakeOutcome(db, cartId, cakeId));
            (rejection.Some? ==> r == Fail(rejection.value)) && (rejection.None? ==> r == Pass)
    ensures r.Fail? ==> cartId in db.carts ==> db.carts[cartId].cakes == old(db.carts[cartId].cakes)
    ensures r.Pass? ==> db.carts[cartId].cakes == old(db.carts[cartId].cakes) + {db.cakes[cakeId]}
    ensures cartId in db.carts ==> db.carts[cartId].id == old(db.carts[cartId].id)
                                   && db.carts[cartId].user == old(db.carts[cartId].user)
  {
    if cartId !in db.carts {
      return Fail(CartNotFound);
    }
    var cart := db.carts[cartId];
    if exists c :: c in cart.cakes && c.id == cakeId {
      return Fail(CakeAlreadyInCart);
    }
    if cakeId !in db.cakes {
      return Fail(CakeNotFound(cakeId));
    }
    var cake := db.cakes[cakeId];
    if cake.stock <= 0 {
      return Fail(OutOfStock);
    }
    cart.AddCake(cake);
    r := Pass;
  }

  /**
   * Adding is not repeatable: once a cake stored under its own identifier is in
   * the cart, a second attempt is refused as already in the cart.
   */
  lemma AddedCakeIsRefusedAgain(cart: Cart, cake: Cake, cakeId: int)
    requires cake in cart.cakes && cake.id == cakeId
    ensures AddCakeRejection(true, HoldsCake(cart, cakeId), cakeId, Some(cake.stock)) == Some(CakeAlreadyInCart)
  {
  }

  /** `clearCart`: the cart is left with no cakes; its identifier and user stay. */
  method ClearCart(db: Store, cartId: int) returns (r: Outcome<Exception>)
    modifies if cartId in db.carts then {db.carts[cartId]} else {}
    ensures cartId !in db.carts ==> r == Fail(CartNotFound)
    ensures cartId in db.carts ==> r == Pass && db.carts[cartId].cakes == {}
    ensures cartId in db.carts ==> db.carts[cartId].id == old(db.carts[cartId].id)
                                   && db.carts[cartId].user == old(db.carts[cartId].user)
  {
    if cartId !in db.carts {
      return Fail(CartNotFound);
    }
    var cart := db.carts[cartId];
    cart.cakes := {};
    r := Pass;
  }

  /** `getCakesInCart`: the cakes of an existing cart. */
  method GetCakesInCart(db: Store, cartId: int) returns (r: Result<set<Cake>, Exception>)
    ensures cartId !in db.carts <==> r == Failure(CartNotFound)
    ensures r.Success? ==> r.value == db.carts[cartId].cakes
  {
    if cartId !in db.carts {
      return Failure(CartNotFound);
    }
    r := Success(db.carts[cartId].cakes);
  }

  /**
   * `calculateTotalPrice`: the existence check, then `SUM(ca.price)` over the
   * cart's cakes. Over a cart with no cakes the sum is SQL null, which the
   * proxy cannot return as a primitive `double`, so the call throws.
   */
  method CalculateTotalPrice(db: Store, cartId: int) returns (r: Result<real, Exception>)
    ensures cartId !in db.carts <==> r == Failure(CartNotFound)
    ensures cartId in db.carts && db.carts[cartId].cakes == {} ==> r == Failure(AopInvocation)
    ensures cartId in db.carts && db.carts[cartId].cakes != {} ==>
              r == Success(OrderService.Total(db.carts[cartId].cakes, None))
  {
    if cartId !in db.carts {
      return Failure(CartNotFound);
    }
    var cakes := db.carts[cartId].cakes;
    if cakes == {} {
      return Failure(AopInvocation);
    }
    var sum := OrderService.SumCharges(cakes, None);
    r := Success(sum);
  }

  /** The total `calculateTotalPrice` reports grows by exactly the price of a cake added to the cart. */
  lemma AddedCakeRaisesTotal(cakes: set<Cake>, c: Cake)
    requires c !in cakes
    ensures OrderService.Total(cakes + {c}, None) == OrderService.Total(cakes, None) + c.price
  {
    OrderService.TotalWithoutSale(cakes + {c}, c);
    assert cakes + {c} - {c} == cakes;
  }
}
