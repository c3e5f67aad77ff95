/**
 * `CakeOrderController`: checkout of the caller's cart, the caller's order
 * history and the administrators' list of all orders. The caller is the user
 * named by the bearer token; the scheme is matched case-sensitively and the
 * rest of the header is the token, untrimmed.
 */
module CakeOrderController {
  import opened Wrappers
  import opened Http
  import opened JavaLang
  import opened Exceptions
  import opened Models
  import opened Repositories
  import opened Jwt
  import opened JwtFilter
  import opened CartService
  import opened OrderService

  /** `OrderRequestDTO`: the optional sale to apply. */
  datatype OrderRequest = OrderRequest(discountId: Option<int>)

  /** `request != null ? request.getDiscountId() : null`: no body asks for no sale. */
  function DiscountId(request: Option<OrderRequest>): (id: Option<int>)
    ensures request.None? ==> id.None?
    ensures request.Some? ==> id == request.value.discountId
  {
    match request
    case None => None
    case Some(body) => body.discountId
  }

  /**
   * The outcome of the service's `createOrder` for the cakes with identifiers
   * `ids`, from the tables `t0` as they were before: an unknown user, then an
   * empty list, then an unknown cake are refused; otherwise the sale step
   * decides (`Priced`), and a saved order belongs to the user, is dated `now`
   * and holds exactly the cakes named.
   */
  ghost predicate Ordered(t0: Tables, orders: map<int, Order>, userId: int, ids: set<int>,
                          saleId: Option<int>, now: int, r: Result<Order, Exception>)
    reads t0.orders.Values`sale
    reads if r.Success? then {r.value} else {}, if r.Success? then r.value.cakes else {}
    reads if r.Success? && r.value.sale != null then {r.value.sale} else {}
  {
    (userId !in t0.users ==> r == Failure(UserNotFound))
    && (userId in t0.users && ids == {} ==> r == Failure(EmptyCart))
    && (userId in t0.users && ids != {} && !(ids <= t0.cakes.Keys) ==>
          r.Failure? && r.error.CakeNotFound? && r.error.cakeId in ids && r.error.cakeId !in t0.cakes)
    && (userId in t0.users && ids != {} && ids <= t0.cakes.Keys ==>
          Priced(t0.orders, t0.nextId, t0.sales, orders, saleId, r)
          && (r.Success? ==> r.value.user == t0.users[userId] && r.value.orderDate == now
                             && r.value.cakes == CakesOf(t0.cakes, ids)))
  }

  /**
   * The outcome of checking out the cart of user `userId`, from whether the
   * user had a cart and the identifiers of its cakes: no cart is
   * `CartNotFound`, an empty cart `IllegalState`, and otherwise the order is
   * `createOrder`'s for exactly those cakes.
   */
  ghost predicate CheckedOut(hasCart: bool, cartIds: set<int>, t0: Tables, orders: map<int, Order>, userId: int,
                             saleId: Option<int>, now: int, r: Result<Order, Exception>)
    reads t0.orders.Values`sale
    reads if r.Success? then {r.value} else {}, if r.Success? then r.value.cakes else {}
    reads if r.Success? && r.value.sale != null then {r.value.sale} else {}
  {
    (!hasCart ==> r == Failure(CartNotFound))
    && (hasCart && cartIds == {} ==> r == Failure(IllegalState))
    && (hasCart && cartIds != {} ==> Ordered(t0, orders, userId, cartIds, saleId, now, r))
  }

  /** The user has a cart (`findByUserId` finds one). */
  ghost predicate HasCart(db: Store, userId: int)
    reads db, db.carts.Values, set c | c in db.carts.Values && c.user != null :: c.user
  {
    exists k :: db.IsCartOf(k, userId)
  }

  /** The identifiers of the cakes in the cart stored under `cartKey`, none when there is no such cart. */
  ghost function CartCakeIds(db: Store, cartKey: int): set<int>
    reads db, db.carts.Values, if cartKey in db.carts then db.carts[cartKey].cakes else {}
  {
    if cartKey in db.carts then CakeIds(db.carts[cartKey].cakes) else {}
  }

  /** The identifiers of a set of cakes. */
  function CakeIds(cakes: set<Cake>): set<int>
    reads cakes`id
  {
    set c | c in cakes :: c.id
  }

  /** `cart.getCakes().stream().map(Cake::getId).collect(toList())`: one identifier per cake, in iteration order. */
  method CakeIdsOf(cakes: set<Cake>) returns (ids: seq<int>)
    ensures |ids| == |cakes|
    ensures Elems(ids) == CakeIds(cakes)
  {
    ids := [];
    var remaining := cakes;
    while remaining != {}
      invariant remaining <= cakes
      invariant |ids| + |remaining| == |cakes|
      invariant Elems(ids) + CakeIds(remaining) == CakeIds(cakes)
      decreases |remaining|
    {
      ghost var w := Element(remaining);
      var c :| c in remaining;
      assert Elems(ids + [c.id]) == Elems(ids) + {c.id} by {
        assert (ids + [c.id])[|ids|] == c.id;
      }
      CakeIdsRemove(remaining, c);
      ids := ids + [c.id];
      remaining := remaining - {c};
    }
  }

  lemma CakeIdsRemove(cakes: set<Cake>, c: Cake)
    requires c in cakes
    ensures CakeIds(cakes) == CakeIds(cakes - {c}) + {c.id}
  {
    forall i | i in CakeIds(cakes)
      ensures i in CakeIds(cakes - {c}) + {c.id}
    {
      var d :| d in cakes && d.id == i;
      if d != c {
        assert d in cakes - {c};
      }
    }
  }

  /**
   * The part of `createOrder` after the caller is known: the caller's cart must
   * exist and hold cakes, and is then ordered.
   */
  method Checkout(db: Store, user: User, request: Option<OrderRequest>, now: int)
    returns (r: Result<Order, Exception>, ghost cartKey: int)
    requires db.Valid() && CartsKeyed(db)
    modifies db, db.carts.Values
    ensures db.Valid() && CartsKeyed(db) && db.carts == old(db.carts) && db.users == old(db.users)
    ensures old(HasCart(db, user.id)) ==> old(db.IsCartOf(cartKey, user.id))
    ensures CheckedOut(old(HasCart(db, user.id)), old(CartCakeIds(db, cartKey)), old(db.Snapshot()), db.orders,
                       user.id, DiscountId(request), now, r)
    ensures r.Failure? ==> unchanged(db) && unchanged(old(db.carts).Values)
    ensures r.Success? ==>
              old(db.IsCartOf(cartKey, user.id)) && old(db.carts[cartKey].cakes) != {}
              && db.carts[cartKey].cakes == {}
              && old(CakeIds(db.carts[cartKey].cakes)) <= old(db.cakes.Keys)
              && r.value.cakes == CakesOf(old(db.cakes), old(CakeIds(db.carts[cartKey].cakes)))
  {
    var cart;
    cart, cartKey := GetCartByUserId(db, user.id);
    if cart.Failure? {
      forall k
        ensures !old(db.IsCartOf(k, user.id))
      {
        assert !db.IsCartOf(k, user.id);
      }
      return Failure(cart.error), cartKey;
    }
    if cart.value.cakes == {} {
      return Failure(IllegalState), cartKey;
    }
    ghost var ids := CakeIds(cart.value.cakes);
    assert ids != {} by {
      var c :| c in cart.value.cakes;
      assert c.id in ids;
    }
    assert HasCart(db, user.id) && CartCakeIds(db, cartKey) == ids;
    r := OrderCart(db, user.id, cart.value, cartKey, request, now);
  }

  /**
   * The order built from a non-empty cart. The cart is emptied only once the
   * order has been saved, so a failed order leaves the cart as it was.
   */
  method OrderCart(db: Store, userId: int, cart: Cart, ghost cartKey: int, request: Option<OrderRequest>, now: int)
    returns (r: Result<Order, Exception>)
    requires db.Valid() && CartsKeyed(db) && cartKey in db.carts && db.carts[cartKey] == cart
    modifies db, cart
    ensures db.Valid() && CartsKeyed(db) && db.carts == old(db.carts) && db.users == old(db.users)
    ensures r.Failure? ==> unchanged(db) && unchanged(cart)
    ensures Ordered(old(db.Snapshot()), db.orders, userId, old(CakeIds(cart.cakes)), DiscountId(request), now, r)
    ensures r.Success? ==>
              cart.cakes == {} && old(CakeIds(cart.cakes)) <= old(db.cakes.Keys)
              && r.value.cakes == CakesOf(old(db.cakes), old(CakeIds(cart.cakes)))
  {
    assert cart.id == cartKey;
    r := PlaceOrder(db, userId, cart.cakes, request, now);
    if r.Success? {
      assert cart.id in db.carts;
      var cleared := ClearCart(db, cart.id);
    }
  }

  /** `createOrder` of the service on the identifiers of exactly the given cakes and the requested sale. */
  method PlaceOrder(db: Store, userId: int, cakes: set<Cake>, request: Option<OrderRequest>, now: int)
    returns (r: Result<Order, Exception>)
    requires db.Valid()
    modifies db
    ensures db.Valid() && db.carts == old(db.carts) && db.users == old(db.users)
    ensures r.Failure? ==> unchanged(db)
    ensures Ordered(old(db.Snapshot()), db.orders, userId, old(CakeIds(cakes)), DiscountId(request), now, r)
    ensures r.Success? ==>
              old(CakeIds(cakes)) <= old(db.cakes.Keys) && r.value.cakes == CakesOf(old(db.cakes), old(CakeIds(cakes)))
  {
    ghost var stored := db.cakes;
    var ids := CakeIdsOf(cakes);
    assert ids == [] <==> CakeIds(cakes) == {} by {
      if ids != [] {
        assert ids[0] in Elems(ids);
      }
    }
    r := OrderService.CreateOrder(db, userId, ids, DiscountId(request), now);
    if r.Success? {
      assert FirstMissing(ids, stored.Keys).None?;
    }
  }

  /** `ResponseEntity.ok(...)` of a created order; a thrown exception propagates. */
  function AsReply(outcome: Result<Order, Exception>): (r: Result<Reply<Order>, Exception>)
    ensures outcome.Success? <==> r.Success?
    ensures outcome.Success? ==> r == Success(Ok(outcome.value))
    ensures outcome.Failure? ==> r == Failure(outcome.error)
  {
    match outcome
    case Success(order) => Success(Ok(order))
    case Failure(e) => Failure(e)
  }

  /** The part of `createOrder` after the caller is known, answered with 200 and the order. */
  method OrderReply(db: Store, user: User, request: Option<OrderRequest>, now: int)
    returns (r: Result<Reply<Order>, Exception>, ghost outcome: Result<Order, Exception>, ghost cartKey: int)
    requires db.Valid() && CartsKeyed(db)
    modifies db, db.carts.Values
    ensures db.Valid() && CartsKeyed(db) && db.carts == old(db.carts) && db.users == old(db.users)
    ensures r == AsReply(outcome)
    ensures old(HasCart(db, user.id)) ==> old(db.IsCartOf(cartKey, user.id))
    ensures CheckedOut(old(HasCart(db, user.id)), old(CartCakeIds(db, cartKey)), old(db.Snapshot()), db.orders,
                       user.id, DiscountId(request), now, outcome)
    ensures r.Failure? ==> unchanged(db) && unchanged(old(db.carts).Values)
    ensures r.Success? ==>
              old(db.IsCartOf(cartKey, user.id)) && old(db.carts[cartKey].cakes) != {}
              && db.carts[cartKey].cakes == {}
              && r.value.body.cakes == CakesOf(old(db.cakes), old(CakeIds(db.carts[cartKey].cakes)))
  {
    var placed;
    placed, cartKey := Checkout(db, user, request, now);
    outcome := placed;
    r := AsReply(placed);
  }

  class CakeOrderController {
    const db: Store
    const jwtUtil: JwtUtil

    ghost predicate Valid()
      reads this, jwtUtil
    {
      jwtUtil.Valid()
    }

    constructor (db: Store, jwtUtil: JwtUtil)
      requires jwtUtil.Valid()
      ensures Valid() && this.db == db && this.jwtUtil == jwtUtil
    {
      this.db := db;
      this.jwtUtil := jwtUtil;
    }

    /** The caller named by the token after the bearer scheme: `findByUsername(getUsernameFromToken(token))`. */
    method Caller(authHeader: string, now: nat) returns (r: Option<User>, ghost key: int)
      requires Valid() && StartsWith(authHeader, BearerPrefix)
      modifies jwtUtil`cachedKey, jwtUtil`derivations
      ensures Valid()
      ensures var name := UsernameOf(KeyFor(jwtUtil.secret), jwtUtil.codec, authHeader[|BearerPrefix|..], now);
              (r.Some? <==> name.Some? && db.ExistsByUsername(name))
              && (r.Some? ==> key in db.users && db.users[key] == r.value && r.value.username == name)
    {
      var token := authHeader[|BearerPrefix|..];
      var username := jwtUtil.GetUsernameFromToken(token, now);
      key := 0;
      if username.None? {
        return None, key;
      }
      r, key := db.FindByUsername(username.value);
    }

    /**
     * `createOrder`: 401 without the case-sensitive bearer scheme; an unknown
     * caller is `UserNotFound`; otherwise the checkout of the caller's cart
     * (`CheckedOut`), answered with 200 and the order.
     */
    method CreateOrder(authHeader: string, request: Option<OrderRequest>, now: nat)
      returns (r: Result<Reply<Order>, Exception>, ghost userKey: int, ghost outcome: Result<Order, Exception>,
               ghost cartKey: int)
      requires Valid() && db.Valid() && CartsKeyed(db)
      modifies db, db.carts.Values, jwtUtil`cachedKey, jwtUtil`derivations
      ensures Valid() && db.Valid() && CartsKeyed(db)
      ensures !StartsWith(authHeader, BearerPrefix) ==> r == Success(Status(401))
      ensures StartsWith(authHeader, BearerPrefix) ==>
                var name := UsernameOf(KeyFor(jwtUtil.secret), jwtUtil.codec, authHeader[|BearerPrefix|..], now);
                (name.None? || !old(db.ExistsByUsername(name))) ==> r == Failure(UserNotFound)
      ensures db.carts == old(db.carts) && db.users == old(db.users)
      ensures StartsWith(authHeader, BearerPrefix) ==>
                var name := UsernameOf(KeyFor(jwtUtil.secret), jwtUtil.codec, authHeader[|BearerPrefix|..], now);
                name.Some? && old(db.ExistsByUsername(name)) ==>
                  userKey in old(db.users) && old(db.users[userKey].username) == name
                  && r == AsReply(outcome)
                  && CheckedOut(old(HasCart(db, db.users[userKey].id)), old(CartCakeIds(db, cartKey)), old(db.Snapshot()),
                                db.orders, old(db.users[userKey].id), DiscountId(request), now, outcome)
      ensures r.Failure? || r == Success(Status(401)) ==> unchanged(db) && unchanged(old(db.carts).Values)
      ensures r.Success? && r.value.Ok? ==>
                userKey in db.users && old(db.IsCartOf(cartKey, db.users[userKey].id))
                && old(db.carts[cartKey].cakes) != {} && db.carts[cartKey].cakes == {}
                && r.value.body.cakes == CakesOf(old(db.cakes), old(CakeIds(db.carts[cartKey].cakes)))
    {
      cartKey := 0;
      outcome := Failure(UserNotFound);
      if !StartsWith(authHeader, BearerPrefix) {
        return Success(Status(401)), 0, outcome, cartKey;
      }
      var user;
      user, userKey := Caller(authHeader, now);
      if user.None? {
        return Failure(UserNotFound), userKey, outcome, cartKey;
      }
      label Known:
      r, outcome, cartKey := OrderReply(db, user.value, request, now);
      assert old@Known(HasCart(db, user.value.id)) == old(HasCart(db, user.value.id));
      assert old@Known(CartCakeIds(db, cartKey)) == old(CartCakeIds(db, cartKey));
      assert old@Known(db.Snapshot()) == old(db.Snapshot());
    }

    /** `getUserOrderHistory`: 401, `UserNotFound`, 204 for no orders, else the caller's orders. */
    method GetUserOrderHistory(authHeader: string, now: nat) returns (r: Result<Reply<set<Order>>, Exception>)
      requires Valid()
      modifies jwtUtil`cachedKey, jwtUtil`derivations
      ensures Valid()
      ensures !StartsWith(authHeader, BearerPrefix) ==> r == Success(Status(401))
      ensures StartsWith(authHeader, BearerPrefix) ==>
                var name := UsernameOf(KeyFor(jwtUtil.secret), jwtUtil.codec, authHeader[|BearerPrefix|..], now);
                && ((name.None? || !db.ExistsByUsername(name)) <==> r == Failure(UserNotFound))
                && (r.Failure? ==> r == Failure(UserNotFound))
                && (r.Success? ==>
                      exists k :: k in db.users && db.users[k].username == name
                                  && var orders := OrdersOfUser(db.orders, db.users[k].id);
                                     r.value == if orders == {} then Status(204) else Ok(orders))
    {
      if !StartsWith(authHeader, BearerPrefix) {
        return Success(Status(401));
      }
      var user, key := Caller(authHeader, now);
      if user.None? {
        return Failure(UserNotFound);
      }
      var orders := OrderService.GetUserOrderHistory(db, user.value);
      r := if orders.value == {} then Success(Status(204)) else Success(Ok(orders.value));
    }

    /** `getAllOrders`: 204 when there are no orders, else all of them. */
    method GetAllOrders() returns (r: Reply<set<Order>>)
      ensures db.orders.Values == {} <==> r == Status(204)
      ensures r.Ok? ==> r.body == db.orders.Values
    {
      var orders := OrderService.GetAllOrders(db);
      if orders == {} {
        return Status(204);
      }
      r := Ok(orders);
    }
  }
}
