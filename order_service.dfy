/**
 * `OrderService`: orders built from cake identifiers. An order holds a set of
 * cakes, so an identifier listed twice counts once; its total is the sum over
 * that set of each cake's charge, reduced by the sale's percentage for cakes
 * whose category the sale covers. Prices are reals: the model states totals
 * exactly, without `double` rounding.
 */
module OrderService {
  import opened Wrappers
  import opened JavaLang
  import opened Exceptions
  import opened Models
  import opened Repositories

  // ------------------------------------------------------------ totals

  /** A sale as an order sees it: its percentage and the categories it covers. */
  datatype Discount = Discount(percentage: real, categories: seq<Category>)

  /** What one cake adds to an order's total. */
  function Charge(cake: Cake, discount: Option<Discount>): (r: real)
    reads cake
    ensures discount.None? ==> r == cake.price
    ensures discount.Some? && (cake.category == null || cake.category !in discount.value.categories) ==> r == cake.price
    ensures discount.Some? && cake.category != null && cake.category in discount.value.categories ==>
              r == cake.price * (1.0 - discount.value.percentage / 100.0)
  {
    match discount
    case None => cake.price
    case Some(d) =>
      if cake.category != null && cake.category in d.categories then cake.price * (1.0 - d.percentage / 100.0)
      else cake.price
  }

  /** The sum of the charges of a set of cakes, in no particular order. */
  ghost function Total(cakes: set<Cake>, discount: Option<Discount>): real
    reads cakes
  {
    if cakes == {} then 0.0
    else
      var c :| c in cakes;
      Charge(c, discount) + Total(cakes - {c}, discount)
  }

  /** Any cake may be taken out first: the total does not depend on the order of iteration. */
  lemma {:induction false} TotalRemove(cakes: set<Cake>, c: Cake, discount: Option<Discount>)
    requires c in cakes
    ensures Total(cakes, discount) == Charge(c, discount) + Total(cakes - {c}, discount)
    decreases |cakes|
  {
    var d :| d in cakes && Total(cakes, discount) == Charge(d, discount) + Total(cakes - {d}, discount);
    if d != c {
      TotalRemove(cakes - {d}, c, discount);
      TotalRemove(cakes - {c}, d, discount);
      assert cakes - {d} - {c} == cakes - {c} - {d};
    }
  }

  /** A total without a sale is the sum of the prices. */
  lemma {:induction false} TotalWithoutSale(cakes: set<Cake>, c: Cake)
    requires c in cakes
    ensures Total(cakes, None) == c.price + Total(cakes - {c}, None)
  {
    TotalRemove(cakes, c, None);
  }

  /** A sale covering none of the cakes' categories leaves the total at full price. */
  lemma {:induction false} UncoveredSaleChangesNothing(cakes: set<Cake>, d: Discount)
    requires forall c :: c in cakes ==> c.category == null || c.category !in d.categories
    ensures Total(cakes, Some(d)) == Total(cakes, None)
    decreases |cakes|
  {
    if cakes != {} {
      var c :| c in cakes;
      TotalRemove(cakes, c, Some(d));
      TotalRemove(cakes, c, None);
      UncoveredSaleChangesNothing(cakes - {c}, d);
    }
  }

  /** With non-negative prices and a percentage between 0 and 100, a sale never raises the total. */
  lemma {:induction false} SaleNeverRaisesTotal(cakes: set<Cake>, d: Discount)
    requires 0.0 <= d.percentage <= 100.0
    requires forall c :: c in cakes ==> c.price >= 0.0
    ensures 0.0 <= Total(cakes, Some(d)) <= Total(cakes, None)
    decreases |cakes|
  {
    if cakes != {} {
      var c :| c in cakes;
      TotalRemove(cakes, c, Some(d));
      TotalRemove(cakes, c, None);
      SaleNeverRaisesTotal(cakes - {c}, d);
      ChargeBounds(c, d);
    }
  }

  lemma ChargeBounds(c: Cake, d: Discount)
    requires 0.0 <= d.percentage <= 100.0 && c.price >= 0.0
    ensures 0.0 <= Charge(c, Some(d)) <= Charge(c, None)
  {
    var f := 1.0 - d.percentage / 100.0;
    MulBounds(c.price, f);
  }

  lemma MulBounds(a: real, f: real)
    requires a >= 0.0 && 0.0 <= f <= 1.0
    ensures 0.0 <= a * f <= a
  {
    assert a - a * f == a * (1.0 - f);
  }

  /** The loop of `createOrder` that adds up the charges, one cake of the set at a time. */
  method SumCharges(cakes: set<Cake>, discount: Option<Discount>) returns (total: real)
    ensures total == Total(cakes, discount)
  {
    total := 0.0;
    var remaining := cakes;
    while remaining != {}
      invariant remaining <= cakes
      invariant total + Total(remaining, discount) == Total(cakes, discount)
      decreases |remaining|
    {
      var c :| c in remaining;
      TotalRemove(remaining, c, discount);
      total := total + Charge(c, discount);
      remaining := remaining - {c};
    }
  }

  // ------------------------------------------------------------ cake lookups

  /** The first identifier of `ids` with no stored cake, if any. */
  function FirstMissing(ids: seq<int>, known: set<int>): (r: Option<int>)
    ensures r.None? <==> forall i :: 0 <= i < |ids| ==> ids[i] in known
    ensures r.Some? ==> exists j :: 0 <= j < |ids| && ids[j] == r.value && r.value !in known
                                    && forall i :: 0 <= i < j ==> ids[i] in known
  {
    if ids == [] then None
    else if ids[0] !in known then Some(ids[0])
    else
      var rest := FirstMissing(ids[1..], known);
      if rest.Some? then
        var j :| 0 <= j < |ids[1..]| && ids[1..][j] == rest.value && rest.value !in known
                 && forall i :: 0 <= i < j ==> ids[1..][i] in known;
        assert ids[j + 1] == rest.value;
        rest
      else rest
  }

  /** The cakes stored under the given identifiers: a set, so repeated identifiers count once. */
  function CakesOf(cakes: map<int, Cake>, ids: set<int>): (r: set<Cake>)
    requires ids <= cakes.Keys
    ensures forall i :: i in ids ==> cakes[i] in r
    ensures forall c :: c in r ==> exists i :: i in ids && cakes[i] == c
  {
    set i | i in ids :: cakes[i]
  }

  /**
   * The cake loop of `createOrder`: each listed identifier in turn is looked up,
   * the first unknown one stops the loop, and the order collects the found cakes.
   */
  method CollectCakes(db: Store, ids: seq<int>, order: Order)
    returns (missing: Option<int>)
    modifies order`cakes
    ensures missing == FirstMissing(ids, db.cakes.Keys)
    ensures missing.None? ==> order.cakes == old(order.cakes) + CakesOf(db.cakes, Elems(ids))
  {
    var n := 0;
    while n < |ids|
      invariant 0 <= n <= |ids|
      invariant forall i :: 0 <= i < n ==> ids[i] in db.cakes
      invariant order.cakes == old(order.cakes) + CakesOf(db.cakes, Elems(ids[..n]))
    {
      if ids[n] !in db.cakes {
        FirstMissingAt(ids, db.cakes.Keys, n);
        return Some(ids[n]);
      }
      order.AddCake(db.cakes[ids[n]]);
      assert ids[..n + 1] == ids[..n] + [ids[n]];
      assert Elems(ids[..n + 1]) == Elems(ids[..n]) + {ids[n]};
      n := n + 1;
    }
    assert ids[..n] == ids;
    missing := None;
  }

  lemma {:induction false} FirstMissingAt(ids: seq<int>, known: set<int>, n: int)
    requires 0 <= n < |ids| && ids[n] !in known
    requires forall i :: 0 <= i < n ==> ids[i] in known
    ensures FirstMissing(ids, known) == Some(ids[n])
    decreases n
  {
    if n > 0 {
      FirstMissingAt(ids[1..], known, n - 1);
    }
  }

  // ------------------------------------------------------------ operations

  /** The outcome `createOrder` reaches before it touches the sale. */
  function CreateOrderRejection(userFound: bool, ids: seq<int>, missing: Option<int>): (r: Option<Exception>)
    ensures r.None? <==> userFound && ids != [] && missing.None?
    ensures !userFound ==> r == Some(UserNotFound)
    ensures userFound && ids == [] ==> r == Some(EmptyCart)
    ensures userFound && ids != [] && missing.Some? ==> r == Some(CakeNotFound(missing.value))
  {
    if !userFound then Some(UserNotFound)
    else if ids == [] then Some(EmptyCart)
    else if missing.Some? then Some(CakeNotFound(missing.value))
    else None
  }

  /**
   * `createOrder`: the user is looked up before the list is checked for
   * emptiness, the cakes before the sale; any failure saves nothing. A saved
   * order holds the set of the listed cakes and their total under the sale.
   */
  method CreateOrder(db: Store, userId: int, cakeIds: seq<int>, saleId: Option<int>, now: int)
    returns (r: Result<Order, Exception>)
    requires db.Valid()
    modifies db
    ensures db.Valid()
    ensures var rejection := CreateOrderRejection(userId in old(db.users), cakeIds, FirstMissing(cakeIds, old(db.cakes.Keys)));
            rejection.Some? ==> r == Failure(rejection.value) && unchanged(db)
    ensures CreateOrderRejection(userId in old(db.users), cakeIds, FirstMissing(cakeIds, old(db.cakes.Keys))).None? ==>
              Priced(old(db.orders), old(db.nextId), old(db.sales), db.orders, saleId, r)
              && (r.Failure? ==> unchanged(db))
              && (r.Success? ==> fresh(r.value) && r.value.user == old(db.users)[userId] && r.value.orderDate == now
                                 && r.value.cakes == CakesOf(old(db.cakes), Elems(cakeIds)))
    ensures db.users == old(db.users) && db.carts == old(db.carts) && db.cakes == old(db.cakes) && db.sales == old(db.sales)
    ensures db.categories == old(db.categories) && db.chefs == old(db.chefs) && db.reviews == old(db.reviews)
  {
    if userId !in db.users {
      return Failure(UserNotFound);
    }
    if cakeIds == [] {
      return Failure(EmptyCart);
    }
    var order := new Order.ForUser(db.users[userId], now);
    var missing := CollectCakes(db, cakeIds, order);
    if missing.Some? {
      return Failure(CakeNotFound(missing.value));
    }
    r := PriceAndSave(db, order, saleId);
  }

  /** A stored order already carries `sale`. */
  predicate SaleTaken(orders: map<int, Order>, sale: Sale)
    reads orders.Values`sale
  {
    exists k :: k in orders && orders[k].sale == sale
  }

  /**
   * How the sale step of `createOrder` ends: an unknown sale is rejected, and
   * so, by the unique `sale_id` column, is a sale another stored order already
   * carries; otherwise the order carries the sale, if any, and the total of its
   * cakes under it, and is saved under the next identifier.
   */
  ghost predicate Priced(orders0: map<int, Order>, nextId0: int, sales: map<int, Sale>, orders: map<int, Order>,
                         saleId: Option<int>, r: Result<Order, Exception>)
    reads orders0.Values`sale
    reads if r.Success? then {r.value} else {}, if r.Success? then r.value.cakes else {}
    reads if r.Success? && r.value.sale != null then {r.value.sale} else {}
  {
    (saleId.Some? && saleId.value !in sales ==> r == Failure(SaleNotFound))
    && (saleId.Some? && saleId.value in sales && SaleTaken(orders0, sales[saleId.value]) ==>
          r == Failure(DataIntegrityViolation))
    && (saleId.None? || (saleId.value in sales && !SaleTaken(orders0, sales[saleId.value])) ==>
          r.Success?
          && (saleId.None? ==> r.value.sale == null && r.value.totalPrice == Some(Total(r.value.cakes, None)))
          && (saleId.Some? ==> r.value.sale == sales[saleId.value]
                               && r.value.totalPrice == Some(Total(r.value.cakes, Some(DiscountOf(r.value.sale)))))
          && r.value.id == nextId0 && nextId0 !in orders0 && orders == orders0[nextId0 := r.value])
  }

  /** The sale lookup, the total and the save that end `createOrder`. */
  method PriceAndSave(db: Store, order: Order, saleId: Option<int>) returns (r: Result<Order, Exception>)
    requires db.Valid() && order !in db.orders.Values && order.sale == null
    modifies db, order`sale, order`totalPrice, order`id
    ensures db.Valid()
    ensures Priced(old(db.orders), old(db.nextId), old(db.sales), db.orders, saleId, r)
    ensures r.Failure? ==> unchanged(db)
    ensures r.Success? ==> r.value == order && order.cakes == old(order.cakes)
    ensures db.users == old(db.users) && db.carts == old(db.carts) && db.cakes == old(db.cakes) && db.sales == old(db.sales)
    ensures db.categories == old(db.categories) && db.chefs == old(db.chefs) && db.reviews == old(db.reviews)
  {
    var discount: Option<Discount> := None;
    if saleId.Some? {
      if saleId.value !in db.sales {
        return Failure(SaleNotFound);
      }
      var sale := db.sales[saleId.value];
      order.sale := sale;
      discount := Some(DiscountOf(sale));
    }
    var total := SumCharges(order.cakes, discount);
    order.totalPrice := Some(total);
    if order.sale != null && SaleTaken(db.orders, order.sale) {
      return Failure(DataIntegrityViolation);
    }
    db.SaveNewOrder(order);
    r := Success(order);
  }

  /** The discount a stored sale grants. */
  function DiscountOf(sale: Sale): (d: Discount)
    reads sale
    ensures d.percentage == sale.discountPercentage && d.categories == sale.categories
  {
    Discount(sale.discountPercentage, sale.categories)
  }

  /** The stored orders whose user carries identifier `userId` (`findByUserOrderByOrderDateDesc`, unordered). */
  function OrdersOfUser(orders: map<int, Order>, userId: int): (r: set<Order>)
    reads orders.Values, set o | o in orders.Values && o.user != null :: o.user
    ensures forall o | o in r :: o in orders.Values && o.user != null && o.user.id == userId
    ensures forall k | k in orders :: orders[k].user != null && orders[k].user.id == userId ==> orders[k] in r
  {
    set o | o in orders.Values && o.user != null && o.user.id == userId
  }

  /**
   * `getUserOrderHistory`: a null user is rejected; otherwise the orders whose
   * user has that user's identifier. The newest-first order of the list is not
   * modelled: the answer is the set of those orders.
   */
  method GetUserOrderHistory(db: Store, user: User?) returns (r: Result<set<Order>, Exception>)
    ensures user == null ==> r == Failure(UserNotFound)
    ensures user != null ==> r == Success(OrdersOfUser(db.orders, user.id))
  {
    if user == null {
      return Failure(UserNotFound);
    }
    r := Success(OrdersOfUser(db.orders, user.id));
  }

  /** `getAllOrders`: every stored order (the date order of the list is not modelled). */
  method GetAllOrders(db: Store) returns (r: set<Order>)
    ensures r == db.orders.Values
  {
    r := db.orders.Values;
  }

  /**
   * The cake loop of `updateOrder`: the identifiers form a set, visited in no
   * particular order; an unknown one stops the loop, whichever it is.
   */
  method ResolveCakes(db: Store, ids: set<int>) returns (r: Result<set<Cake>, Exception>)
    ensures r.Success? <==> ids <= db.cakes.Keys
    ensures r.Success? ==> r.value == CakesOf(db.cakes, ids)
    ensures r.Failure? ==> r.error.CakeNotFound? && r.error.cakeId in ids && r.error.cakeId !in db.cakes
  {
    var found: set<Cake> := {};
    var remaining := ids;
    while remaining != {}
      invariant remaining <= ids
      invariant ids - remaining <= db.cakes.Keys
      invariant found == CakesOf(db.cakes, ids - remaining)
      decreases |remaining|
    {
      ghost var w := Element(remaining);
      var k :| k in remaining;
      if k !in db.cakes {
        return Failure(CakeNotFound(k));
      }
      found := found + {db.cakes[k]};
      assert ids - (remaining - {k}) == (ids - remaining) + {k};
      remaining := remaining - {k};
    }
    assert ids - remaining == ids;
    r := Success(found);
  }

  /**
   * `updateOrder`: an unknown order is rejected first. A new, different user is
   * looked up and set on the stored order at once, before the cake identifiers
   * are checked, so a later failure leaves that change in place in the entity
   * (without a transaction nothing is saved on that path). Missing or empty
   * identifiers fail; otherwise the cakes are replaced by the set found.
   */
  method UpdateOrder(db: Store, orderId: int, userId: Option<int>, cakeIds: Option<set<int>>)
    returns (r: Result<Order, Exception>)
    modifies if orderId in db.orders then {db.orders[orderId]} else {}
    ensures orderId !in db.orders <==> r == Failure(OrderNotFound)
    ensures orderId in db.orders ==>
              var order := db.orders[orderId];
              var switch := userId.Some? && old(order.user) != null && userId.value != old(order.user.id);
              (userId.Some? && old(order.user) == null ==> r == Failure(NullPointer) && unchanged(order))
              && (switch && userId.value !in db.users ==> r == Failure(UserNotFound) && unchanged(order))
              && (switch && userId.value in db.users ==> order.user == db.users[userId.value])
              && (!switch ==> order.user == old(order.user))
              && ((userId.None? || old(order.user) != null) && (switch ==> userId.value in db.users) ==>
                    (cakeIds.None? || cakeIds.value == {} ==> r == Failure(EmptyCart) && order.cakes == old(order.cakes))
                    && (cakeIds.Some? && cakeIds.value != {} && !(cakeIds.value <= db.cakes.Keys) ==>
                          r.Failure? && r.error.CakeNotFound? && r.error.cakeId in cakeIds.value
                          && r.error.cakeId !in db.cakes && order.cakes == old(order.cakes))
                    && (cakeIds.Some? && cakeIds.value != {} && cakeIds.value <= db.cakes.Keys ==>
                          r == Success(order) && order.cakes == CakesOf(db.cakes, cakeIds.value)))
              && order.id == old(order.id) && order.orderDate == old(order.orderDate)
              && order.totalPrice == old(order.totalPrice) && order.sale == old(order.sale)
  {
    if orderId !in db.orders {
      return Failure(OrderNotFound);
    }
    var order := db.orders[orderId];
    if userId.Some? {
      if order.user == null {
        return Failure(NullPointer);
      }
      if userId.value != order.user.id {
        if userId.value !in db.users {
          return Failure(UserNotFound);
        }
        order.user := db.users[userId.value];
      }
    }
    if cakeIds.None? || cakeIds.value == {} {
      return Failure(EmptyCart);
    }
    var cakes := ResolveCakes(db, cakeIds.value);
    if cakes.Failure? {
      return Failure(cakes.error);
    }
    order.cakes := cakes.value;
    r := Success(order);
  }
}
