/**
 * `CategoryService`: categories are created and renamed under a trimmed,
 * non-empty name that no other category carries (exact, case-sensitive match).
 * The category table keeps that shape through every operation here.
 */
module CategoryService {
  import opened Wrappers
  import opened JavaLang
  import opened Exceptions
  import opened Models
  import opened Repositories

  /** A category row as values: its identifier and name. */
  datatype CategoryRow = CategoryRow(id: int, name: Option<string>)

  /** The category table as values. */
  ghost function Rows(categories: map<int, Category>): map<int, CategoryRow>
    reads categories.Values`id, categories.Values`name
  {
    map k | k in categories :: CategoryRow(categories[k].id, categories[k].name)
  }

  /**
   * What the category table satisfies: every category is stored under its own
   * identifier with a trimmed, non-empty name, and no two share a name.
   */
  predicate WellNamedRows(rows: map<int, CategoryRow>) {
    (forall k :: k in rows ==> rows[k].id == k && rows[k].name.Some? && rows[k].name.value != []
                               && IsTrimmed(rows[k].name.value))
    && forall i, j :: i in rows && j in rows && rows[i].name == rows[j].name ==> i == j
  }

  ghost predicate CategoriesWellNamed(db: Store)
    reads db`categories, db.categories.Values`id, db.categories.Values`name
  {
    WellNamedRows(Rows(db.categories))
  }

  /** `raw == null ? null : raw.trim()`. */
  function TrimmedName(raw: Option<string>): (r: Option<string>)
    ensures r.None? <==> raw.None?
    ensures r.Some? ==> IsTrimmed(r.value) && |r.value| <= |raw.value|
    ensures r.Some? && IsTrimmed(raw.value) ==> r == raw
  {
    if raw.None? then None else Some(Trim(raw.value))
  }

  /** A name that is already trimmed is its own trimmed form: names stored here are unchanged by another trim. */
  lemma TrimmedNameIdempotent(raw: Option<string>)
    ensures TrimmedName(TrimmedName(raw)) == TrimmedName(raw)
  {
  }

  /** The exception `createCategory` throws for the trimmed name, in the source's order, or `None`. */
  function CreateRejection(name: Option<string>, taken: bool): (r: Option<Exception>)
    ensures r.None? <==> name.Some? && name.value != [] && !taken
    ensures r == Some(IllegalArgument) <==> name.None? || name.value == []
    ensures r == Some(CategoryAlreadyExists) <==> name.Some? && name.value != [] && taken
  {
    if name.None? || name.value == [] then Some(IllegalArgument)
    else if taken then Some(CategoryAlreadyExists)
    else None
  }

  /** The exception `update` throws once the category is found, in the source's order, or `None`. */
  function UpdateRejection(newName: Option<string>, current: Option<string>, taken: bool): (r: Option<Exception>)
    ensures r.None? <==> newName.Some? && newName.value != [] && current.Some? && (current == newName || !taken)
    ensures r == Some(IllegalArgument) <==> newName.None? || newName.value == []
    ensures r == Some(DuplicateCategory) <==> newName.Some? && newName.value != [] && current.Some?
                                              && current != newName && taken
  {
    if newName.None? || newName.value == [] then Some(IllegalArgument)
    else if current.None? then Some(NullPointer)
    else if current.value != newName.value && taken then Some(DuplicateCategory)
    else None
  }

  /** Keeping its own name is never a duplicate, whatever else the table holds. */
  lemma KeepingOwnNameAllowed(name: string, taken: bool)
    requires name != []
    ensures UpdateRejection(Some(name), Some(name), taken).None?
  {
  }

  /** Storing a category under a fresh key with a trimmed, non-empty, unused name keeps the table well named. */
  lemma WellNamedInsert(rows: map<int, CategoryRow>, k: int, name: string)
    requires WellNamedRows(rows) && k !in rows
    requires name != [] && IsTrimmed(name)
    requires forall j :: j in rows ==> rows[j].name != Some(name)
    ensures WellNamedRows(rows[k := CategoryRow(k, Some(name))])
  {
  }

  /** Renaming one category to a trimmed, non-empty name no other category has keeps the table well named. */
  lemma WellNamedRename(rows: map<int, CategoryRow>, k: int, name: string)
    requires WellNamedRows(rows) && k in rows
    requires name != [] && IsTrimmed(name)
    requires forall j :: j in rows && j != k ==> rows[j].name != Some(name)
    ensures WellNamedRows(rows[k := rows[k].(name := Some(name))])
  {
  }

  /**
   * `createCategory`: the trimmed name must be non-empty and unused; the
   * category is then stored under a fresh identifier with the trimmed name.
   */
  method CreateCategory(db: Store, category: Category) returns (r: Result<Category, Exception>)
    requires db.Valid() && CategoriesWellNamed(db)
    requires category !in db.categories.Values
    modifies db, category`name, category`id
    ensures db.Valid() && CategoriesWellNamed(db)
    ensures var name := TrimmedName(old(category.name));
            var rejection := CreateRejection(name, name.Some? && old(db.ExistsCategoryByName(name.value)));
            (rejection.Some? ==> r == Failure(rejection.value) && unchanged(db) && unchanged(category))
            && (rejection.None? ==>
                  r == Success(category) && category.name == name
                  && category.id == old(db.nextId) && category.id !in old(db.categories)
                  && db.categories == old(db.categories)[category.id := category])
    ensures db.users == old(db.users) && db.carts == old(db.carts) && db.cakes == old(db.cakes)
    ensures db.orders == old(db.orders) && db.sales == old(db.sales) && db.chefs == old(db.chefs)
  {
    var name := TrimmedName(category.name);
    var rejection := CreateRejection(name, name.Some? && db.ExistsCategoryByName(name.value));
    if rejection.Some? {
      return Failure(rejection.value);
    }
    SaveNamed(db, category, name.value);
    r := Success(category);
  }

  /** The saving half of `createCategory`, once the name has passed its checks. */
  method SaveNamed(db: Store, category: Category, name: string)
    requires db.Valid() && CategoriesWellNamed(db)
    requires category !in db.categories.Values
    requires name != [] && IsTrimmed(name) && !db.ExistsCategoryByName(name)
    modifies db, category`name, category`id
    ensures db.Valid() && CategoriesWellNamed(db)
    ensures category.name == Some(name) && category.id == old(db.nextId) && category.id !in old(db.categories)
    ensures db.categories == old(db.categories)[category.id := category]
    ensures db.users == old(db.users) && db.carts == old(db.carts) && db.cakes == old(db.cakes)
    ensures db.orders == old(db.orders) && db.sales == old(db.sales) && db.chefs == old(db.chefs)
  {
    ghost var rows0 := Rows(db.categories);
    assert forall j :: j in rows0 ==> rows0[j].name != Some(name);
    category.name := Some(name);
    db.SaveNewCategory(category);
    assert Rows(db.categories) == rows0[category.id := CategoryRow(category.id, Some(name))];
    WellNamedInsert(rows0, category.id, name);
  }

  /** `getCategoryById`: the stored category, or `CategoryNotFound`. */
  method GetCategoryById(db: Store, id: int) returns (r: Result<Category, Exception>)
    ensures id !in db.categories <==> r == Failure(CategoryNotFound)
    ensures r.Success? ==> id in db.categories && r.value == db.categories[id]
  {
    if id !in db.categories {
      return Failure(CategoryNotFound);
    }
    r := Success(db.categories[id]);
  }

  /** `delete`: an unknown identifier is refused; otherwise only that category goes. */
  method Delete(db: Store, id: int) returns (r: Outcome<Exception>)
    requires db.Valid() && CategoriesWellNamed(db)
    modifies db`categories
    ensures db.Valid() && CategoriesWellNamed(db)
    ensures id !in old(db.categories) ==> r == Fail(CategoryNotFound) && db.categories == old(db.categories)
    ensures id in old(db.categories) ==> r == Pass && db.categories == old(db.categories) - {id}
  {
    if id !in db.categories {
      return Fail(CategoryNotFound);
    }
    ghost var rows0 := Rows(db.categories);
    db.categories := db.categories - {id};
    assert Rows(db.categories) == rows0 - {id};
    r := Pass;
  }

  /**
   * `update`: an unknown identifier is refused before the name is looked at;
   * then the trimmed name must be non-empty and either the category's own or
   * unused. Only the name and the description of that category change.
   */
  method Update(db: Store, id: int, name: Option<string>, description: Option<string>)
    returns (r: Result<Category, Exception>)
    requires CategoriesWellNamed(db)
    modifies (if id in db.categories then {db.categories[id]} else {})`name
    modifies (if id in db.categories then {db.categories[id]} else {})`description
    ensures CategoriesWellNamed(db)
    ensures id !in db.categories ==> r == Failure(CategoryNotFound)
    ensures id in db.categories ==>
              var existing := db.categories[id];
              var newName := TrimmedName(name);
              var rejection := UpdateRejection(newName, old(existing.name),
                                               newName.Some? && old(db.ExistsCategoryByName(newName.value)));
              (rejection.Some? ==> r == Failure(rejection.value) && unchanged(existing))
              && (rejection.None? ==> r == Success(existing) && existing.name == newName
                                      && existing.description == description)
  {
    var newName := TrimmedName(name);
    if id !in db.categories {
      return Failure(CategoryNotFound);
    }
    var existing := db.categories[id];
    var rejection := UpdateRejection(newName, existing.name, newName.Some? && db.ExistsCategoryByName(newName.value));
    if rejection.Some? {
      return Failure(rejection.value);
    }
    Rename(db, id, existing, newName.value, description);
    r := Success(existing);
  }

  /** The writing half of `update`, once the new name has passed its checks. */
  method Rename(db: Store, id: int, existing: Category, name: string, description: Option<string>)
    requires CategoriesWellNamed(db) && id in db.categories && db.categories[id] == existing
    requires name != [] && IsTrimmed(name)
    requires existing.name == Some(name) || !db.ExistsCategoryByName(name)
    modifies existing`name, existing`description
    ensures CategoriesWellNamed(db)
    ensures existing.name == Some(name) && existing.description == description
  {
    ghost var rows0 := Rows(db.categories);
    forall j | j in rows0 && j != id
      ensures rows0[j].name != Some(name)
    {
      if existing.name == Some(name) {
        assert rows0[id].name == Some(name);
      }
    }
    forall j | j in db.categories && j != id
      ensures db.categories[j] != existing
    {
      assert rows0[j].id == j && rows0[id].id == id;
    }
    existing.name := Some(name);
    existing.description := description;
    assert Rows(db.categories) == rows0[id := rows0[id].(name := Some(name))];
    WellNamedRename(rows0, id, name);
  }
}
