/**
 * `CakeMapper`: between a `Cake` and its `CakeDTO`. The DTO names the category
 * and the chef by identifier; the chef may instead be named by name, which is
 * matched against the stored chefs ignoring case.
 */
module CakeMapper {
  import opened Wrappers
  import opened JavaLang
  import opened Exceptions
  import opened Models
  import opened Repositories

  /** `CakeDTO`. */
  datatype CakeDto = CakeDto(id: Option<int>, name: Option<string>, price: real, stock: int, weight: real,
                             categoryId: Option<int>, pastryChefId: Option<int>, pastryChefName: Option<string>,
                             description: Option<string>)

  /**
   * `toDto`: every scalar field is copied; the category identifier is there
   * exactly when the cake has a category, the chef's identifier exactly when it
   * has a chef, and the chef's name only then.
   */
  function ToDto(cake: Cake): (d: CakeDto)
    reads cake, cake.category, cake.pastryChef
    ensures d.id == Some(cake.id)
    ensures d.categoryId.Some? <==> cake.category != null
    ensures d.pastryChefId.Some? <==> cake.pastryChef != null
    ensures d.pastryChefName.Some? ==> d.pastryChefId.Some?
  {
    CakeDto(Some(cake.id), cake.name, cake.price, cake.stock, cake.weight,
            if cake.category != null then Some(cake.category.id) else None,
            if cake.pastryChef != null then Some(cake.pastryChef.id) else None,
            if cake.pastryChef != null then cake.pastryChef.name else None,
            cake.description)
  }

  /** The DTO names a chef by name: the name is present and not blank. */
  predicate NamesChef(d: CakeDto) {
    d.pastryChefName.Some? && !IsBlank(d.pastryChefName.value)
  }

  /** The DTO names no chef at all, so `resolveChef` returns null. */
  predicate NamesNoChef(d: CakeDto) {
    d.pastryChefId.None? && !NamesChef(d)
  }

  /** `findByNameIgnoreCase(name)`: the stored chefs whose name equals `name` ignoring case. */
  function ChefsNamed(db: Store, name: string): set<PastryChef>
    reads db, db.chefs.Values`name
  {
    set c | c in db.chefs.Values && c.name.Some? && EqualsIgnoreCase(c.name.value, name)
  }

  /** The element of a one-element set. */
  ghost function Single<T>(s: set<T>): (x: T)
    requires |s| == 1
    ensures s == {x}
  {
    var x :| x in s;
    assert |s - {x}| == 0;
    x
  }

  /**
   * What `resolveChef` returns or throws. A given identifier wins, whatever the
   * name says, and an unknown one is `EntityNotFound`. Otherwise a non-blank
   * name is trimmed and looked up ignoring case: no match is `EntityNotFound`,
   * several are the repository's non-unique-result error. With neither, null.
   */
  ghost function ChefLookup(db: Store, d: CakeDto): Result<PastryChef?, Exception>
    reads db, db.chefs.Values`name
  {
    if d.pastryChefId.Some? then
      if d.pastryChefId.value in db.chefs then Success(db.chefs[d.pastryChefId.value]) else Failure(EntityNotFound)
    else if NamesChef(d) then
      var matches := ChefsNamed(db, Trim(d.pastryChefName.value));
      if matches == {} then Failure(EntityNotFound)
      else if |matches| > 1 then Failure(NonUniqueResult)
      else Success(Single(matches))
    else Success(null)
  }

  /** `resolveChef`. */
  method ResolveChef(db: Store, d: CakeDto) returns (r: Result<PastryChef?, Exception>)
    ensures r == ChefLookup(db, d)
  {
    if d.pastryChefId.Some? {
      if d.pastryChefId.value !in db.chefs {
        return Failure(EntityNotFound);
      }
      return Success(db.chefs[d.pastryChefId.value]);
    }
    if d.pastryChefName.Some? && !IsBlank(d.pastryChefName.value) {
      var matches := ChefsNamed(db, Trim(d.pastryChefName.value));
      if matches == {} {
        return Failure(EntityNotFound);
      }
      if |matches| > 1 {
        return Failure(NonUniqueResult);
      }
      ghost var only := Single(matches);
      var c :| c in matches;
      return Success(c);
    }
    r := Success(null);
  }

  /**
   * The chef lookup: null exactly when the DTO names no chef; a chef found by
   * identifier carries that identifier when the table is keyed by identifier;
   * a chef found by name is the only stored chef with that name ignoring case.
   */
  lemma ChefLookupFinds(db: Store, d: CakeDto)
    requires ChefLookup(db, d).Success?
    ensures ChefLookup(db, d).value == null <==> NamesNoChef(d)
    ensures ChefsKeyed(db) && d.pastryChefId.Some? ==> ChefLookup(db, d).value.id == d.pastryChefId.value
    ensures d.pastryChefId.None? && NamesChef(d) ==>
              var c := ChefLookup(db, d).value;
              c != null && c in db.chefs.Values && ChefsNamed(db, Trim(d.pastryChefName.value)) == {c}
  {
  }

  /** The category the DTO names is not stored. */
  predicate CategoryMissing(db: Store, d: CakeDto)
    reads db
  {
    d.categoryId.Some? && d.categoryId.value !in db.categories
  }

  /**
   * The two lookups `toEntity` and `updateEntityFromDto` make, in their order:
   * the category the DTO names (null when it names none), then the chef.
   */
  ghost function MappingLookup(db: Store, d: CakeDto): Result<(Category?, PastryChef?), Exception>
    reads db, db.chefs.Values`name
  {
    if CategoryMissing(db, d) then Failure(EntityNotFound)
    else
      var category := if d.categoryId.Some? then db.categories[d.categoryId.value] else null;
      match ChefLookup(db, d)
      case Failure(e) => Failure(e)
      case Success(chef) => Success((category, chef))
  }

  /** The lookups of the mappers. */
  method Lookups(db: Store, d: CakeDto) returns (r: Result<(Category?, PastryChef?), Exception>)
    ensures r == MappingLookup(db, d)
  {
    var category: Category? := null;
    if d.categoryId.Some? {
      if d.categoryId.value !in db.categories {
        return Failure(EntityNotFound);
      }
      category := db.categories[d.categoryId.value];
    }
    var chef := ResolveChef(db, d);
    if chef.Failure? {
      return Failure(chef.error);
    }
    r := Success((category, chef.value));
  }

  /**
   * `cake` has been given what `d` says, where `lookup` is what the lookups
   * found: the DTO's scalar fields, the category found (else `category0`) and
   * the chef found (else `chef0`).
   */
  ghost predicate Applied(lookup: Result<(Category?, PastryChef?), Exception>, d: CakeDto, cake: Cake,
                          category0: Category?, chef0: PastryChef?)
    reads cake
  {
    lookup.Success? && Carries(cake, d)
    && cake.category == (if lookup.value.0 != null then lookup.value.0 else category0)
    && cake.pastryChef == (if lookup.value.1 != null then lookup.value.1 else chef0)
  }

  /** `cake` is what `toEntity` builds from `d`: never saved, and given what `d` says. */
  ghost predicate Mapped(db: Store, d: CakeDto, cake: Cake)
    reads db, db.chefs.Values`name, cake
  {
    cake.id == 0 && Applied(MappingLookup(db, d), d, cake, null, null)
  }

  /**
   * `toEntity`: a new cake, or the first lookup failure; an unknown category is
   * refused before the chef is looked at.
   */
  method ToEntity(db: Store, d: CakeDto) returns (r: Result<Cake, Exception>)
    ensures r.Failure? <==> MappingLookup(db, d).Failure?
    ensures r.Failure? ==> r.error == MappingLookup(db, d).error
    ensures r.Success? ==> fresh(r.value) && Mapped(db, d, r.value)
  {
    var found := Lookups(db, d);
    if found.Failure? {
      return Failure(found.error);
    }
    var cake := Build(d, found.value.0, found.value.1);
    r := Success(cake);
  }

  /** `new Cake()` and the setter calls of `toEntity`. */
  method Build(d: CakeDto, category: Category?, chef: PastryChef?) returns (cake: Cake)
    ensures fresh(cake) && cake.id == 0 && Carries(cake, d)
    ensures cake.category == category && cake.pastryChef == chef
  {
    cake := new Cake();
    CopyScalars(d, cake);
    cake.category := category;
    cake.pastryChef := chef;
  }

  /**
   * The round trip `toDto(toEntity(d))`: the five scalar fields come back, and
   * so do the category and chef identifiers when the tables are keyed by
   * identifier. A chef given only by name comes back with its identifier.
   */
  lemma {:induction false} MappedRoundTrip(db: Store, d: CakeDto, cake: Cake)
    requires Mapped(db, d, cake)
    ensures var back := ToDto(cake);
            back.name == d.name && back.price == d.price && back.stock == d.stock
            && back.weight == d.weight && back.description == d.description
    ensures CategoriesKeyed(db) ==> ToDto(cake).categoryId == d.categoryId
    ensures ChefsKeyed(db) && d.pastryChefId.Some? ==> ToDto(cake).pastryChefId == d.pastryChefId
    ensures d.pastryChefId.None? && NamesChef(d) ==> ToDto(cake).pastryChefId.Some?
  {
    ChefLookupFinds(db, d);
    if CategoriesKeyed(db) && d.categoryId.Some? {
      assert cake.category.id == d.categoryId.value;
    }
  }

  /** The cake carries the DTO's five scalar fields. */
  predicate Carries(cake: Cake, d: CakeDto)
    reads cake
  {
    cake.name == d.name && cake.price == d.price && cake.stock == d.stock
    && cake.weight == d.weight && cake.description == d.description
  }

  /** The setter calls for the five scalar fields. */
  method CopyScalars(d: CakeDto, cake: Cake)
    modifies cake`name, cake`price, cake`stock, cake`weight, cake`description
    ensures Carries(cake, d)
  {
    cake.name := d.name;
    cake.price := d.price;
    cake.stock := d.stock;
    cake.weight := d.weight;
    cake.description := d.description;
  }

  /**
   * `updateEntityFromDto`: the five scalar fields are written first and stay
   * written even when a later lookup throws. The category and the chef change
   * only when the DTO names one; an unknown category is refused before the chef
   * is looked at, and a refused chef leaves the new category in place.
   */
  method UpdateEntityFromDto(db: Store, d: CakeDto, cake: Cake) returns (r: Outcome<Exception>)
    modifies cake`name, cake`price, cake`stock, cake`weight, cake`description, cake`category, cake`pastryChef
    ensures Carries(cake, d)
    ensures r.Fail? <==> old(MappingLookup(db, d)).Failure?
    ensures r.Fail? ==> r.error == old(MappingLookup(db, d)).error && cake.pastryChef == old(cake.pastryChef)
    ensures r.Fail? ==> cake.category == if d.categoryId.Some? && !CategoryMissing(db, d)
                                         then db.categories[d.categoryId.value] else old(cake.category)
    ensures r.Pass? ==> Applied(old(MappingLookup(db, d)), d, cake, old(cake.category), old(cake.pastryChef))
  {
    CopyScalars(d, cake);
    r := SetCategory(db, d, cake);
    if r.Pass? {
      r := SetChef(db, d, cake);
    }
  }

  /** The category step of `updateEntityFromDto`: an unknown category throws and nothing is set. */
  method SetCategory(db: Store, d: CakeDto, cake: Cake) returns (r: Outcome<Exception>)
    modifies cake`category
    ensures r.Fail? <==> CategoryMissing(db, d)
    ensures r.Fail? ==> r.error == EntityNotFound
    ensures cake.category == if d.categoryId.Some? && r.Pass? then db.categories[d.categoryId.value] else old(cake.category)
  {
    r := Pass;
    if d.categoryId.Some? {
      if d.categoryId.value !in db.categories {
        return Fail(EntityNotFound);
      }
      cake.category := db.categories[d.categoryId.value];
    }
  }

  /** The chef step of `updateEntityFromDto`: the chef `resolveChef` picks, if it picks one. */
  method SetChef(db: Store, d: CakeDto, cake: Cake) returns (r: Outcome<Exception>)
    modifies cake`pastryChef
    ensures r.Fail? <==> old(ChefLookup(db, d)).Failure?
    ensures r.Fail? ==> r.error == old(ChefLookup(db, d)).error
    ensures cake.pastryChef == if r.Pass? && old(ChefLookup(db, d)).value != null
                               then old(ChefLookup(db, d)).value else old(cake.pastryChef)
  {
    var chef := ResolveChef(db, d);
    if chef.Failure? {
      return Fail(chef.error);
    }
    if chef.value != null {
      cake.pastryChef := chef.value;
    }
    r := Pass;
  }
}
