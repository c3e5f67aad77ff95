/**
 * The Spring Data repositories, as one in-memory store: a map from identifier to
 * entity per table, and the IDENTITY counter that hands out new identifiers.
 * The derived queries the services call are functions over these maps.
 */
module Repositories {
  import opened Wrappers
  import opened Models

  /** The identifiers of the users holding `role`. */
  function IdsWithRole(users: map<int, User>, role: Role): set<int>
    reads users.Values`role
  {
    set k | k in users && users[k].role == Some(role)
  }

  function CountWithRole(users: map<int, User>, role: Role): nat
    reads users.Values`role
  {
    |IdsWithRole(users, role)|
  }

  /** The tables an order is built from, as they stand at one moment. */
  datatype Tables = Tables(users: map<int, User>, cakes: map<int, Cake>, orders: map<int, Order>,
                           sales: map<int, Sale>, nextId: int)

  class Store {
    var users: map<int, User>
    var carts: map<int, Cart>
    var cakes: map<int, Cake>
    var categories: map<int, Category>
    var orders: map<int, Order>
    var sales: map<int, Sale>
    var chefs: map<int, PastryChef>
    var reviews: map<int, Review>
    var nextId: int

    /** Identifiers below `nextId` are the only ones in use, in every table. */
    ghost predicate Valid()
      reads this
    {
      0 < nextId && Below(users.Keys) && Below(carts.Keys) && Below(cakes.Keys) && Below(categories.Keys)
      && Below(orders.Keys) && Below(sales.Keys) && Below(chefs.Keys) && Below(reviews.Keys)
    }

    /** The tables `createOrder` reads, as they stand now. */
    function Snapshot(): Tables
      reads this
    {
      Tables(users, cakes, orders, sales, nextId)
    }

    ghost predicate Below(ids: set<int>)
      reads this`nextId
    {
      forall k :: k in ids ==> 0 < k < nextId
    }

    constructor ()
      ensures Valid()
      ensures users == map[] && carts == map[] && cakes == map[] && categories == map[]
      ensures orders == map[] && sales == map[] && chefs == map[] && reviews == map[]
    {
      users := map[];
      carts := map[];
      cakes := map[];
      categories := map[];
      orders := map[];
      sales := map[];
      chefs := map[];
      reviews := map[];
      nextId := 1;
    }

    // ------------------------------------------------------------ users

    /** `UserRepository.existsByUsername`. */
    predicate ExistsByUsername(name: Option<string>)
      reads this`users, users.Values`username
    {
      exists k :: k in users && users[k].username == name
    }

    /** `UserRepository.countByRole`. */
    function CountByRole(role: Role): nat
      reads this`users, users.Values`role
    {
      CountWithRole(users, role)
    }

    /** `UserRepository.findByUsername`: a user with that name, if any, and the key it is stored under. */
    method FindByUsername(name: string) returns (r: Option<User>, ghost key: int)
      ensures r.Some? <==> ExistsByUsername(Some(name))
      ensures r.Some? ==> key in users && users[key] == r.value && r.value.username == Some(name)
    {
      key := 0;
      if k :| k in users && users[k].username == Some(name) {
        r, key := Some(users[k]), k;
      } else {
        r := None;
      }
    }

    /** `save` of a new user: it gets the next identifier. */
    method SaveNewUser(u: User)
      requires Valid() && u !in users.Values
      modifies this, u`id
      ensures Valid()
      ensures u.id == old(nextId) && u.id !in old(users)
      ensures users == old(users)[u.id := u] && nextId == old(nextId) + 1
      ensures carts == old(carts) && cakes == old(cakes) && categories == old(categories)
      ensures orders == old(orders) && sales == old(sales) && chefs == old(chefs) && reviews == old(reviews)
    {
      u.id := nextId;
      users := users[nextId := u];
      nextId := nextId + 1;
    }

    // ------------------------------------------------------------ carts

    /** `save` of a new cart. */
    method SaveNewCart(c: Cart)
      requires Valid() && c !in carts.Values
      modifies this, c`id
      ensures Valid()
      ensures c.id == old(nextId) && c.id !in old(carts)
      ensures carts == old(carts)[c.id := c] && nextId == old(nextId) + 1
      ensures users == old(users) && cakes == old(cakes) && categories == old(categories)
      ensures orders == old(orders) && sales == old(sales) && chefs == old(chefs) && reviews == old(reviews)
    {
      c.id := nextId;
      carts := carts[nextId := c];
      nextId := nextId + 1;
    }

    /** The carts whose user has identifier `userId` (`CartRepository.findByUserId`). */
    predicate IsCartOf(k: int, userId: int)
      reads this`carts, carts.Values`user, set c | c in carts.Values && c.user != null :: c.user
    {
      k in carts && carts[k].user != null && carts[k].user.id == userId
    }

    // ------------------------------------------------------------ orders

    /** `save` of a new order. */
    method SaveNewOrder(o: Order)
      requires Valid() && o !in orders.Values
      modifies this, o`id
      ensures Valid()
      ensures o.id == old(nextId) && o.id !in old(orders)
      ensures orders == old(orders)[o.id := o] && nextId == old(nextId) + 1
      ensures users == old(users) && carts == old(carts) && cakes == old(cakes) && categories == old(categories)
      ensures sales == old(sales) && chefs == old(chefs) && reviews == old(reviews)
    {
      o.id := nextId;
      orders := orders[nextId := o];
      nextId := nextId + 1;
    }

    // ------------------------------------------------------------ categories

    /** `CategoryRepository.existsByName`: exact match. */
    predicate ExistsCategoryByName(name: string)
      reads this`categories, categories.Values`name
    {
      exists k :: k in categories && categories[k].name == Some(name)
    }

    /** `save` of a new category. */
    method SaveNewCategory(c: Category)
      requires Valid() && c !in categories.Values
      modifies this, c`id
      ensures Valid()
      ensures c.id == old(nextId) && c.id !in old(categories)
      ensures categories == old(categories)[c.id := c] && nextId == old(nextId) + 1
      ensures users == old(users) && carts == old(carts) && cakes == old(cakes)
      ensures orders == old(orders) && sales == old(sales) && chefs == old(chefs) && reviews == old(reviews)
    {
      c.id := nextId;
      categories := categories[nextId := c];
      nextId := nextId + 1;
    }

    // ------------------------------------------------------------ pastry chefs

    /** `PastryChefRepository.existsByNameAndBirthDate`. */
    predicate ExistsChefByNameAndBirthDate(name: Option<string>, birthDate: Option<int>)
      reads this`chefs, chefs.Values`name, chefs.Values`birthDate
    {
      exists k :: k in chefs && chefs[k].name == name && chefs[k].birthDate == birthDate
    }

    /** `save` of a new pastry chef. */
    method SaveNewChef(c: PastryChef)
      requires Valid() && c !in chefs.Values
      modifies this, c`id
      ensures Valid()
      ensures c.id == old(nextId) && c.id !in old(chefs)
      ensures chefs == old(chefs)[c.id := c] && nextId == old(nextId) + 1
      ensures users == old(users) && carts == old(carts) && cakes == old(cakes) && categories == old(categories)
      ensures orders == old(orders) && sales == old(sales) && reviews == old(reviews)
    {
      c.id := nextId;
      chefs := chefs[nextId := c];
      nextId := nextId + 1;
    }

    // ------------------------------------------------------------ reviews

    /** `save` of a new review: the stored review carries the next identifier. */
    method SaveNewReview(r: Review) returns (saved: Review)
      requires Valid()
      modifies this
      ensures Valid()
      ensures saved == r.(id := old(nextId)) && saved.id !in old(reviews)
      ensures reviews == old(reviews)[saved.id := saved] && nextId == old(nextId) + 1
      ensures users == old(users) && carts == old(carts) && cakes == old(cakes) && categories == old(categories)
      ensures orders == old(orders) && sales == old(sales) && chefs == old(chefs)
    {
      saved := r.(id := nextId);
      reviews := reviews[nextId := saved];
      nextId := nextId + 1;
    }
  }

  /** Every category is stored under its own identifier, as `save` leaves it. */
  ghost predicate CategoriesKeyed(db: Store)
    reads db, db.categories.Values`id
  {
    forall k | k in db.categories :: db.categories[k].id == k
  }

  /** Every pastry chef is stored under its own identifier. */
  ghost predicate ChefsKeyed(db: Store)
    reads db, db.chefs.Values`id
  {
    forall k | k in db.chefs :: db.chefs[k].id == k
  }

  /** Every cake is stored under its own identifier. */
  ghost predicate CakesKeyed(db: Store)
    reads db, db.cakes.Values`id
  {
    forall k | k in db.cakes :: db.cakes[k].id == k
  }
}
