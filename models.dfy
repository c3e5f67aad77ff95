/**
 * The shop's JPA entities. Each entity whose fields the code updates in place is
 * a class; a Java `null` reference is a nullable class type, a nullable boxed or
 * string field an `Option`. Entities compare by identity, as the Java classes do
 * (none overrides `equals`). Identifiers are `int`; a fresh, never-saved entity
 * has identifier 0, which is also how the model writes the null `Long` identifier
 * of an unsaved `Sale` or `PastryChef`. Dates are day numbers and instants are
 * integers; prices, weights and percentages are reals.
 */
module Models {
  import opened Wrappers
  import opened JavaLang

  /** `User.Role`. */
  datatype Role = ADMIN | USER

  /** `Role.name()`. */
  function RoleName(r: Role): string {
    match r
    case ADMIN => "ADMIN"
    case USER => "USER"
  }

  /** `Role.valueOf(name)`: exact, case-sensitive lookup; `None` is the IllegalArgumentException. */
  function RoleValueOf(name: string): (r: Option<Role>)
    ensures r.Some? <==> name == "ADMIN" || name == "USER"
    ensures r.Some? ==> RoleName(r.value) == name
  {
    if name == "ADMIN" then Some(ADMIN) else if name == "USER" then Some(USER) else None
  }

  lemma RoleNameRoundTrip(r: Role)
    ensures RoleValueOf(RoleName(r)) == Some(r)
  {
  }

  class User {
    var id: int
    var username: Option<string>
    var password: Option<string>
    var role: Option<Role>
    var cart: Cart?

    /** `new User()`: every field null. */
    constructor ()
      ensures id == 0 && username == None && password == None && role == None && cart == null
    {
      id := 0;
      username := None;
      password := None;
      role := None;
      cart := null;
    }
  }

  class Cart {
    var id: int
    var user: User?
    var cakes: set<Cake>

    constructor ()
      ensures id == 0 && user == null && cakes == {}
    {
      id := 0;
      user := null;
      cakes := {};
    }

    /** `new Cart(user)`: linked to `user`, no cakes yet. */
    constructor ForUser(user: User?)
      ensures id == 0 && this.user == user && cakes == {}
    {
      id := 0;
      this.user := user;
      cakes := {};
    }

    /** `Cart.addCake`: set insertion; adding a cake already there changes nothing. */
    method AddCake(cake: Cake)
      modifies this`cakes
      ensures cakes == old(cakes) + {cake}
      ensures cake in old(cakes) ==> cakes == old(cakes)
    {
      cakes := cakes + {cake};
    }

    /** `Cart.removeCake`. */
    method RemoveCake(cake: Cake)
      modifies this`cakes
      ensures cakes == old(cakes) - {cake}
      ensures cake !in old(cakes) ==> cakes == old(cakes)
    {
      cakes := cakes - {cake};
    }

    /**
     * `Cart.setUserId`: re-keys the linked user object in place, creating a
     * blank user first when there is none. The user object may be shared, so
     * every holder of it sees the new identifier.
     */
    method SetUserId(userId: int)
      modifies this`user, (if user != null then {user} else {})`id
      ensures user != null && user.id == userId
      ensures old(user) != null ==> user == old(user) && user.username == old(user.username)
                                    && user.password == old(user.password) && user.role == old(user.role)
                                    && user.cart == old(user.cart)
      ensures old(user) == null ==> fresh(user) && user.username == None && user.password == None
                                    && user.role == None && user.cart == null
    {
      if user == null {
        user := new User();
      }
      user.id := userId;
    }
  }

  class Order {
    var id: int
    var user: User?
    var cakes: set<Cake>
    var orderDate: int
    var totalPrice: Option<real>
    var sale: Sale?

    /** `new Order(user)`, dated `now`. */
    constructor ForUser(user: User?, now: int)
      ensures id == 0 && this.user == user && cakes == {} && orderDate == now
      ensures totalPrice == None && sale == null
    {
      id := 0;
      this.user := user;
      cakes := {};
      orderDate := now;
      totalPrice := None;
      sale := null;
    }

    /** `Order.addCake`: set insertion. */
    method AddCake(cake: Cake)
      modifies this`cakes
      ensures cakes == old(cakes) + {cake}
      ensures cake in old(cakes) ==> cakes == old(cakes)
    {
      cakes := cakes + {cake};
    }

    /** `Order.removeCake`. */
    method RemoveCake(cake: Cake)
      modifies this`cakes
      ensures cakes == old(cakes) - {cake}
      ensures cake !in old(cakes) ==> cakes == old(cakes)
    {
      cakes := cakes - {cake};
    }

    /** `Order.setUserId`: as `Cart.setUserId`. */
    method SetUserId(userId: int)
      modifies this`user, (if user != null then {user} else {})`id
      ensures user != null && user.id == userId
      ensures old(user) != null ==> user == old(user) && user.username == old(user.username)
                                    && user.password == old(user.password) && user.role == old(user.role)
                                    && user.cart == old(user.cart)
      ensures old(user) == null ==> fresh(user) && user.username == None && user.password == None
                                    && user.role == None && user.cart == null
    {
      if user == null {
        user := new User();
      }
      user.id := userId;
    }
  }

  /** The text of `UUID.toString()`: 36 characters. */
  predicate IsUuidText(uuid: string) {
    |uuid| == 36
  }

  /** `Sale.generateSaleCode` for a given random UUID. */
  function SaleCodeFrom(uuid: string): (code: string)
    requires IsUuidText(uuid)
    ensures |code| == 13 && code[..5] == "SALE-"
    ensures forall i :: 5 <= i < 13 ==> code[i] == UpperChar(uuid[i - 5])
  {
    "SALE-" + ToUpperCase(uuid[..8])
  }

  class Sale {
    var id: int
    var saleCode: string
    var discountPercentage: real
    var startDate: int
    var endDate: int
    var description: Option<string>
    var isActive: bool
    var categories: seq<Category>

    /** `new Sale()`: a generated code, active, no categories. */
    constructor Blank(uuid: string)
      requires IsUuidText(uuid)
      ensures id == 0 && saleCode == SaleCodeFrom(uuid) && isActive && categories == []
      ensures description == None
    {
      id := 0;
      saleCode := SaleCodeFrom(uuid);
      discountPercentage := 0.0;
      startDate := 0;
      endDate := 0;
      description := None;
      isActive := true;
      categories := [];
    }

    /** `new Sale(discountPercentage, startDate, endDate)`. */
    constructor (discountPercentage: real, startDate: int, endDate: int, uuid: string)
      requires IsUuidText(uuid)
      ensures id == 0 && saleCode == SaleCodeFrom(uuid) && isActive && categories == []
      ensures this.discountPercentage == discountPercentage
      ensures this.startDate == startDate && this.endDate == endDate && description == None
    {
      id := 0;
      saleCode := SaleCodeFrom(uuid);
      this.discountPercentage := discountPercentage;
      this.startDate := startDate;
      this.endDate := endDate;
      description := None;
      isActive := true;
      categories := [];
    }

    /** `Sale.addCategory`: links both sides once; a category already linked is left alone. */
    method AddCategory(category: Category)
      modifies this`categories, category`sales
      ensures category in old(categories) ==> categories == old(categories) && category.sales == old(category.sales)
      ensures category !in old(categories) ==>
                categories == old(categories) + [category] && category.sales == old(category.sales) + [this]
      ensures category in categories
    {
      if category !in categories {
        categories := categories + [category];
        category.sales := category.sales + [this];
      }
    }

    /** `Sale.removeCategory`: unlinks the first occurrence on both sides. */
    method RemoveCategory(category: Category)
      modifies this`categories, category`sales
      ensures category in old(categories) ==>
                categories == ListRemove(old(categories), category)
                && category.sales == ListRemove(old(category.sales), this)
      ensures category !in old(categories) ==> categories == old(categories) && category.sales == old(category.sales)
    {
      if category in categories {
        categories := ListRemove(categories, category);
        category.sales := ListRemove(category.sales, this);
      }
    }

    /** `Sale.updateStatusIfNeeded` on day `today`: active exactly within the closed date range. */
    method UpdateStatusIfNeeded(today: int) returns (active: bool)
      modifies this`isActive
      ensures active <==> startDate <= today && today <= endDate
      ensures isActive == active
    {
      active := !(today < startDate) && !(today > endDate);
      isActive := active;
    }
  }

  class Category {
    var id: int
    var name: Option<string>
    var description: Option<string>
    var sales: seq<Sale>

    constructor ()
      ensures id == 0 && name == None && description == None && sales == []
    {
      id := 0;
      name := None;
      description := None;
      sales := [];
    }

    /** `new Category(name, description)`. */
    constructor Named(name: Option<string>, description: Option<string>)
      ensures id == 0 && this.name == name && this.description == description && sales == []
    {
      id := 0;
      this.name := name;
      this.description := description;
      sales := [];
    }
  }

  class Cake {
    var id: int
    var name: Option<string>
    var price: real
    var stock: int
    var weight: real
    var description: Option<string>
    var category: Category?
    var pastryChef: PastryChef?

    /** `new Cake()`: Java defaults. */
    constructor ()
      ensures id == 0 && name == None && price == 0.0 && stock == 0 && weight == 0.0
      ensures description == None && category == null && pastryChef == null
    {
      id := 0;
      name := None;
      price := 0.0;
      stock := 0;
      weight := 0.0;
      description := None;
      category := null;
      pastryChef := null;
    }
  }

  class PastryChef {
    var id: int
    var name: Option<string>
    var biography: Option<string>
    var birthDate: Option<int>
    var cakes: seq<Cake>

    constructor ()
      ensures id == 0 && name == None && biography == None && birthDate == None && cakes == []
    {
      id := 0;
      name := None;
      biography := None;
      birthDate := None;
      cakes := [];
    }

    /** `PastryChef.addCake`: appends the cake and points it back at this chef. */
    method AddCake(cake: Cake)
      modifies this`cakes, cake`pastryChef
      ensures cakes == old(cakes) + [cake]
      ensures cake.pastryChef == this
    {
      cakes := cakes + [cake];
      cake.pastryChef := this;
    }

    /** `PastryChef.removeCake`: drops the first occurrence and detaches the cake, listed or not. */
    method RemoveCake(cake: Cake)
      modifies this`cakes, cake`pastryChef
      ensures cakes == ListRemove(old(cakes), cake)
      ensures cake.pastryChef == null
    {
      cakes := ListRemove(cakes, cake);
      cake.pastryChef := null;
    }
  }

  /** A stored review; it is never changed after it is saved. */
  datatype Review = Review(id: int, cake: Cake, user: User?, rating: int, comment: Option<string>, createdAt: int)
}
