/**
 * `SaleMapper`: between a sale and its transfer object. The interesting part is
 * the category links: `toEntity` links every listed category once, and
 * `updateEntityFromDto` first unlinks the categories no longer listed and then
 * links the listed ones that are missing, so that afterwards the sale's
 * category identifiers are exactly the listed ones.
 */
module SaleMapper {
  import opened Wrappers
  import opened JavaLang
  import opened Exceptions
  import opened Models
  import opened Repositories

  /**
   * `SaleDTO`. The percentage and the dates are not null, as the non-null
   * columns of the sale demand; `isActive` and `categoryIds` may be absent.
   */
  datatype SaleDto = SaleDto(id: int, saleCode: string, discountPercentage: real, startDate: int, endDate: int,
                             description: Option<string>, isActive: Option<bool>, categoryIds: Option<seq<int>>)

  /** The identifiers of a list of categories, in order. */
  function CategoryIds(cs: seq<Category>): (r: seq<int>)
    reads cs`id
    ensures |r| == |cs|
    ensures forall i :: 0 <= i < |cs| ==> r[i] == cs[i].id
  {
    if cs == [] then [] else CategoryIds(cs[..|cs| - 1]) + [cs[|cs| - 1].id]
  }

  /** The set of identifiers a transfer object lists; none when the list is absent. */
  function IdSet(ids: Option<seq<int>>): set<int> {
    if ids.None? then {} else Elems(ids.value)
  }

  /** The identifiers of the categories linked to a sale, as a set. */
  ghost function LinkedIds(sale: Sale): set<int>
    reads sale, sale.categories`id
  {
    Elems(CategoryIds(sale.categories))
  }

  /** `toDto`: every field copied; `categoryIds` only when the sale has a category. */
  function ToDto(sale: Sale): (d: SaleDto)
    reads sale, sale.categories`id
    ensures d.categoryIds.None? <==> sale.categories == []
    ensures IdSet(d.categoryIds) == Elems(CategoryIds(sale.categories))
    ensures d.categoryIds.Some? ==> |d.categoryIds.value| == |sale.categories|
  {
    SaleDto(sale.id, sale.saleCode, sale.discountPercentage, sale.startDate, sale.endDate, sale.description,
            Some(sale.isActive), if sale.categories == [] then None else Some(CategoryIds(sale.categories)))
  }

  /** The categories of `cs` whose identifier is in `keep`, in order. */
  function Kept(cs: seq<Category>, keep: set<int>): (r: seq<Category>)
    reads cs`id
  {
    if cs == [] then []
    else
      var last := cs[|cs| - 1];
      Kept(cs[..|cs| - 1], keep) + (if last.id in keep then [last] else [])
  }

  /** Only categories of the list with a kept identifier are kept. */
  lemma {:induction false} KeptOnlyKept(cs: seq<Category>, keep: set<int>, c: Category)
    requires c in Kept(cs, keep)
    ensures c in cs && c.id in keep
  {
    if cs != [] {
      var init := cs[..|cs| - 1];
      if c in Kept(init, keep) {
        KeptOnlyKept(init, keep, c);
      }
    }
  }

  /** Keeping by identifier keeps exactly the identifiers that are listed. */
  lemma {:induction false} KeptIds(cs: seq<Category>, keep: set<int>)
    ensures Elems(CategoryIds(Kept(cs, keep))) == Elems(CategoryIds(cs)) * keep
  {
    if cs != [] {
      var init, last := cs[..|cs| - 1], cs[|cs| - 1];
      KeptIds(init, keep);
      assert cs == init + [last];
      LinkedIdsAppend(init, last);
      var before := Elems(CategoryIds(init));
      assert Elems(CategoryIds(cs)) == before + {last.id};
      if last.id in keep {
        assert Kept(cs, keep) == Kept(init, keep) + [last];
        LinkedIdsAppend(Kept(init, keep), last);
        assert Elems(CategoryIds(Kept(cs, keep))) == before * keep + {last.id};
      } else {
        assert Kept(cs, keep) == Kept(init, keep);
      }
    }
  }

  /** Keeping part of a list free of duplicates leaves it free of duplicates. */
  lemma {:induction false} KeptNoDuplicates(cs: seq<Category>, keep: set<int>)
    requires NoDuplicates(cs)
    ensures NoDuplicates(Kept(cs, keep))
  {
    if cs != [] {
      var init, last := cs[..|cs| - 1], cs[|cs| - 1];
      assert NoDuplicates(init);
      KeptNoDuplicates(init, keep);
      if last.id in keep {
        if last in Kept(init, keep) {
          KeptOnlyKept(init, keep, last);
        }
        NoDuplicatesAppend(Kept(init, keep), last);
      }
    }
  }

  lemma ElemsAppend<T>(s: seq<T>, t: seq<T>)
    ensures Elems(s + t) == Elems(s) + Elems(t)
  {
    assert forall x | x in Elems(s) :: x in s + t;
  }

  /** Keeping over one more category of the list. */
  lemma KeptStep(cs: seq<Category>, n: nat, keep: set<int>)
    requires n < |cs|
    ensures cs[n..] == [cs[n]] + cs[n + 1..]
    ensures cs[n].id in keep ==> Kept(cs[..n + 1], keep) + cs[n + 1..] == Kept(cs[..n], keep) + cs[n..]
    ensures cs[n].id !in keep ==> Kept(cs[..n + 1], keep) == Kept(cs[..n], keep)
  {
    assert cs[..n + 1][..n] == cs[..n];
    assert cs[n..] == [cs[n]] + cs[n + 1..];
  }

  /**
   * `removeCategory` on a category that the part of the list before it does
   * not hold: exactly that occurrence goes.
   */
  method Unlink(sale: Sale, ghost front: seq<Category>, c: Category, ghost back: seq<Category>)
    requires sale.categories == front + ([c] + back) && c !in front
    modifies sale`categories, c`sales
    ensures sale.categories == front + back
  {
    ListRemoveAfter(front, [c] + back, c);
    assert ([c] + back)[1..] == back;
    sale.RemoveCategory(c);
  }

  /**
   * The first loop of `updateEntityFromDto`: over a copy of the linked
   * categories, each one whose identifier is not listed is unlinked.
   */
  method DropUnlisted(sale: Sale, listed: set<int>)
    modifies sale`categories, sale.categories`sales
    ensures sale.categories == Kept(old(sale.categories), listed)
  {
    var existing := sale.categories;
    var n := 0;
    while n < |existing|
      invariant n <= |existing|
      invariant sale.categories == Kept(existing[..n], listed) + existing[n..]
    {
      DropIfUnlisted(sale, existing, n, existing[n], listed);
      n := n + 1;
    }
    assert existing[..n] == existing;
  }

  /** One step of `DropUnlisted`: the category at `n` of the copy goes if it is not listed. */
  method DropIfUnlisted(sale: Sale, existing: seq<Category>, n: nat, c: Category, listed: set<int>)
    requires n < |existing| && c == existing[n] && sale.categories == Kept(existing[..n], listed) + existing[n..]
    modifies sale`categories, c`sales
    ensures sale.categories == Kept(existing[..n + 1], listed) + existing[n + 1..]
  {
    ghost var kept := Kept(existing[..n], listed);
    KeptStep(existing, n, listed);
    if c.id !in listed {
      if c in kept {
        KeptOnlyKept(existing[..n], listed, c);
      }
      Unlink(sale, kept, c, existing[n + 1..]);
    }
  }

  /** A list links an identifier exactly when one of its categories carries it. */
  lemma LinkedIdsHave(cs: seq<Category>, id: int)
    ensures id in Elems(CategoryIds(cs)) <==> exists c | c in cs :: c.id == id
  {
    if exists c | c in cs :: c.id == id {
      var c :| c in cs && c.id == id;
      var i :| 0 <= i < |cs| && cs[i] == c;
      assert CategoryIds(cs)[i] == id;
    }
  }

  /** One more element of a list adds exactly that element to its prefix's set. */
  lemma ElemsPrefixStep<T>(s: seq<T>, n: nat)
    requires n < |s|
    ensures Elems(s[..n + 1]) == Elems(s[..n]) + {s[n]}
  {
    assert s[..n + 1] == s[..n] + [s[n]];
    ElemsAppend(s[..n], [s[n]]);
    assert Elems([s[n]]) == {s[n]} by { assert [s[n]][0] == s[n]; }
  }

  /** Appending a category adds exactly its identifier. */
  lemma LinkedIdsAppend(cs: seq<Category>, c: Category)
    ensures Elems(CategoryIds(cs + [c])) == Elems(CategoryIds(cs)) + {c.id}
  {
    assert (cs + [c])[..|cs|] == cs;
    var k := c.id;
    ElemsAppend(CategoryIds(cs), [k]);
    assert Elems([k]) == {k} by { assert [k][0] == k; }
  }

  /** Appending an element not yet present keeps a list free of duplicates. */
  lemma NoDuplicatesAppend<T>(s: seq<T>, x: T)
    requires NoDuplicates(s) && x !in s
    ensures NoDuplicates(s + [x])
  {
  }

  /**
   * `now` extends `start` by categories from `stored` only, and without
   * introducing a duplicate.
   */
  ghost predicate Grown(start: seq<Category>, now: seq<Category>, stored: set<Category>) {
    start <= now
    && (forall c | c in now && c !in start :: c in stored)
    && (NoDuplicates(start) ==> NoDuplicates(now))
  }

  lemma GrownAppend(start: seq<Category>, now: seq<Category>, c: Category, stored: set<Category>)
    requires Grown(start, now, stored) && c in stored && c !in now
    ensures Grown(start, now + [c], stored)
  {
    if NoDuplicates(start) {
      NoDuplicatesAppend(now, c);
    }
  }

  /**
   * One step of the linking loop: an identifier already linked is skipped, an
   * unknown one fails with `EntityNotFound`, and any other has its stored
   * category appended.
   */
  method LinkOne(db: Store, sale: Sale, id: int, ghost start: seq<Category>) returns (r: Outcome<Exception>)
    requires CategoriesKeyed(db) && Grown(start, sale.categories, db.categories.Values)
    modifies sale`categories, db.categories.Values`sales
    ensures r.Fail? <==> id !in old(LinkedIds(sale)) && id !in db.categories
    ensures r.Fail? ==> r == Fail(EntityNotFound)
    ensures r.Pass? ==> LinkedIds(sale) == old(LinkedIds(sale)) + {id}
    ensures Grown(start, sale.categories, db.categories.Values)
  {
    LinkedIdsHave(sale.categories, id);
    var linked := exists c | c in sale.categories :: c.id == id;
    if linked {
      return Pass;
    }
    if id !in db.categories {
      return Fail(EntityNotFound);
    }
    var category := db.categories[id];
    ghost var before := sale.categories;
    LinkedIdsAppend(before, category);
    GrownAppend(start, before, category, db.categories.Values);
    sale.AddCategory(category);
    r := Pass;
  }

  /**
   * The second loop of `updateEntityFromDto`, and the loop of `toEntity`: each
   * listed identifier not yet linked is looked up and its category linked; an
   * unknown one stops the loop with `EntityNotFound`. Links only get appended.
   */
  method LinkListed(db: Store, sale: Sale, ids: seq<int>) returns (r: Outcome<Exception>)
    requires CategoriesKeyed(db)
    modifies sale`categories, db.categories.Values`sales
    ensures r.Fail? <==> !(Elems(ids) <= old(LinkedIds(sale)) + db.categories.Keys)
    ensures r.Fail? ==> r == Fail(EntityNotFound)
    ensures r.Pass? ==> LinkedIds(sale) == old(LinkedIds(sale)) + Elems(ids)
    ensures old(sale.categories) <= sale.categories
    ensures forall c | c in sale.categories && c !in old(sale.categories) :: c in db.categories.Values
    ensures NoDuplicates(old(sale.categories)) ==> NoDuplicates(sale.categories)
  {
    ghost var start := sale.categories;
    ghost var linked0 := LinkedIds(sale);
    ghost var seen: set<int> := {};
    var n := 0;
    assert Elems(ids[..0]) == {};
    while n < |ids|
      invariant n <= |ids|
      invariant seen == Elems(ids[..n])
      invariant Grown(start, sale.categories, db.categories.Values)
      invariant LinkedIds(sale) == linked0 + seen
      invariant seen <= linked0 + db.categories.Keys
    {
      var id := ids[n];
      ElemsPrefixStep(ids, n);
      r := LinkOne(db, sale, id, start);
      if r.Fail? {
        assert id in Elems(ids);
        return;
      }
      seen := seen + {id};
      n := n + 1;
    }
    assert ids[..n] == ids;
    r := Pass;
  }

  /**
   * `toEntity`: a new sale with the transfer object's fields, active unless
   * the object says otherwise, linked to every listed category; an unknown
   * category identifier throws `EntityNotFound`. Converting back gives the same
   * fields and the same set of category identifiers.
   */
  method ToEntity(db: Store, d: SaleDto, uuid: string) returns (r: Result<Sale, Exception>)
    requires CategoriesKeyed(db) && IsUuidText(uuid)
    modifies db.categories.Values`sales
    ensures r.Failure? <==> !(IdSet(d.categoryIds) <= db.categories.Keys)
    ensures r.Failure? ==> r.error == EntityNotFound
    ensures r.Success? ==>
              var sale := r.value;
              fresh(sale) && sale.id == 0 && sale.saleCode == SaleCodeFrom(uuid)
              && NoDuplicates(sale.categories) && (forall c | c in sale.categories :: c in db.categories.Values)
              && var back := ToDto(sale);
                 back.discountPercentage == d.discountPercentage
                 && back.startDate == d.startDate && back.endDate == d.endDate
                 && back.description == d.description && back.isActive == Some(d.isActive.GetOr(true))
                 && IdSet(back.categoryIds) == IdSet(d.categoryIds)
  {
    var sale := new Sale.Blank(uuid);
    sale.discountPercentage := d.discountPercentage;
    sale.startDate := d.startDate;
    sale.endDate := d.endDate;
    sale.description := d.description;
    sale.isActive := d.isActive.GetOr(true);
    assert LinkedIds(sale) == {};
    if d.categoryIds.Some? && |d.categoryIds.value| > 0 {
      var linked := LinkListed(db, sale, d.categoryIds.value);
      if linked.Fail? {
        return Failure(linked.error);
      }
    }
    r := Success(sale);
  }

  /** Dropping the unlisted identifiers first does not change which listed ones can be found. */
  lemma KeptCoversListed(listed: set<int>, linked: set<int>, stored: set<int>)
    ensures listed <= linked * listed + stored <==> listed <= linked + stored
  {
  }

  /**
   * The two loops of `updateEntityFromDto` together: the sale ends up linked
   * to exactly the listed categories, or an unknown identifier throws.
   */
  method Relink(db: Store, sale: Sale, ids: seq<int>) returns (r: Outcome<Exception>)
    requires CategoriesKeyed(db)
    modifies sale`categories, sale.categories`sales, db.categories.Values`sales
    ensures r.Fail? <==> !(Elems(ids) <= old(LinkedIds(sale)) + db.categories.Keys)
    ensures r.Fail? ==> r == Fail(EntityNotFound)
    ensures r.Pass? ==> LinkedIds(sale) == Elems(ids)
    ensures NoDuplicates(old(sale.categories)) ==> NoDuplicates(sale.categories)
  {
    ghost var existing := sale.categories;
    ghost var linked0 := LinkedIds(sale);
    var listed := Elems(ids);
    DropUnlisted(sale, listed);
    assert Elems(CategoryIds(existing)) == linked0;
    KeptIds(existing, listed);
    if NoDuplicates(existing) {
      KeptNoDuplicates(existing, listed);
    }
    ghost var kept := LinkedIds(sale);
    KeptCoversListed(listed, linked0, db.categories.Keys);
    r := LinkListed(db, sale, ids);
    assert r.Pass? ==> kept + listed == listed;
  }

  /**
   * The plain fields `updateEntityFromDto` writes: the percentage, the dates
   * and the description always, the active flag only when given.
   */
  method Overwrite(d: SaleDto, sale: Sale)
    modifies sale`discountPercentage, sale`startDate, sale`endDate, sale`description, sale`isActive
    ensures sale.discountPercentage == d.discountPercentage
    ensures sale.startDate == d.startDate && sale.endDate == d.endDate && sale.description == d.description
    ensures sale.isActive == d.isActive.GetOr(old(sale.isActive))
  {
    sale.discountPercentage := d.discountPercentage;
    sale.startDate := d.startDate;
    sale.endDate := d.endDate;
    sale.description := d.description;
    if d.isActive.Some? {
      sale.isActive := d.isActive.value;
    }
  }

  /**
   * `updateEntityFromDto`: the plain fields are overwritten first. When a list
   * of category identifiers is given, the sale ends up linked to exactly
   * those, or an unknown one throws `EntityNotFound` after the fields have
   * changed.
   */
  method UpdateEntityFromDto(db: Store, d: SaleDto, sale: Sale) returns (r: Outcome<Exception>)
    requires CategoriesKeyed(db)
    modifies sale`discountPercentage, sale`startDate, sale`endDate, sale`description, sale`isActive
    modifies sale`categories, sale.categories`sales, db.categories.Values`sales
    ensures sale.discountPercentage == d.discountPercentage
    ensures sale.startDate == d.startDate && sale.endDate == d.endDate && sale.description == d.description
    ensures sale.isActive == d.isActive.GetOr(old(sale.isActive))
    ensures d.categoryIds.None? ==> r == Pass && sale.categories == old(sale.categories)
    ensures d.categoryIds.Some? ==>
              (r.Fail? <==> !(Elems(d.categoryIds.value) <= old(LinkedIds(sale)) + db.categories.Keys))
    ensures r.Fail? ==> r == Fail(EntityNotFound)
    ensures d.categoryIds.Some? && r.Pass? ==> IdSet(ToDto(sale).categoryIds) == Elems(d.categoryIds.value)
    ensures NoDuplicates(old(sale.categories)) ==> NoDuplicates(sale.categories)
  {
    Overwrite(d, sale);
    r := Pass;
    if d.categoryIds.Some? {
      r := Relink(db, sale, d.categoryIds.value);
    }
  }
}
