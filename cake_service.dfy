/**
 * `CakeService`: the one operation with logic of its own is `update`, which
 * copies the editable fields of `data` onto the stored cake; the others hand a
 * query straight to `CakeRepository`.
 */
module CakeService {
  import opened Wrappers
  import opened Exceptions
  import opened Models
  import opened Repositories

  /** `getCakesInStock`: `findByStockGreaterThan(0)` over the stored cakes. */
  function CakesInStock(cakes: map<int, Cake>): (r: set<Cake>)
    reads cakes.Values`stock
    ensures r <= cakes.Values
    ensures forall c :: c in r ==> c.stock > 0
    ensures forall c :: c in cakes.Values && c !in r ==> c.stock <= 0
  {
    set c | c in cakes.Values && c.stock > 0
  }

  /**
   * `update`: an unknown identifier is `EntityNotFound`. Otherwise the five
   * scalar fields are always copied from `data`, the category and the chef only
   * when `data` has one, and the identifier is kept. `data` may be the stored
   * cake itself.
   */
  method Update(db: Store, id: int, data: Cake) returns (r: Result<Cake, Exception>)
    modifies if id in db.cakes then {db.cakes[id]} else {}
    ensures id !in db.cakes <==> r == Failure(EntityNotFound)
    ensures id in db.cakes ==>
              var e := db.cakes[id];
              r == Success(e) && e.id == old(e.id)
              && e.name == old(data.name) && e.price == old(data.price) && e.stock == old(data.stock)
              && e.weight == old(data.weight) && e.description == old(data.description)
              && e.category == (if old(data.category) != null then old(data.category) else old(e.category))
              && e.pastryChef == (if old(data.pastryChef) != null then old(data.pastryChef) else old(e.pastryChef))
  {
    if id !in db.cakes {
      return Failure(EntityNotFound);
    }
    var existing := db.cakes[id];
    existing.name := data.name;
    existing.price := data.price;
    existing.stock := data.stock;
    existing.weight := data.weight;
    existing.description := data.description;
    if data.category != null {
      existing.category := data.category;
    }
    if data.pastryChef != null {
      existing.pastryChef := data.pastryChef;
    }
    r := Success(existing);
  }

  /**
   * Between two states in which only cake `e` may have changed, as around
   * `update`, the in-stock list gains or loses `e` by its new stock and no
   * other cake enters or leaves it.
   */
  twostate lemma InStockMovesOnlyUpdated(db: Store, e: Cake)
    requires unchanged(db)
    requires forall c | c in db.cakes.Values && c != e :: unchanged(c)
    ensures CakesInStock(db.cakes) == if e in db.cakes.Values && e.stock > 0 then old(CakesInStock(db.cakes)) + {e}
                                      else old(CakesInStock(db.cakes)) - {e}
  {
  }
}
