/**
 * `PastryChefService`: chefs are created only under a (name, birth date) pair
 * no stored chef has, and are read, updated and deleted by identifier; an
 * unknown identifier is `PastryChefNotFound` everywhere.
 */
module PastryChefService {
  import opened Wrappers
  import opened Exceptions
  import opened Models
  import opened Repositories

  /** No two stored chefs share both name and birth date. */
  ghost predicate ChefsUnique(db: Store)
    reads db, db.chefs.Values`name, db.chefs.Values`birthDate
  {
    forall i, j | i in db.chefs && j in db.chefs
                  && db.chefs[i].name == db.chefs[j].name && db.chefs[i].birthDate == db.chefs[j].birthDate :: i == j
  }

  /** Every stored chef has a name, as the `NOT NULL` name column demands. */
  ghost predicate ChefsNamed(db: Store)
    reads db, db.chefs.Values`name
  {
    forall k | k in db.chefs :: db.chefs[k].name.Some?
  }

  /**
   * `create`: a chef whose (name, birth date) pair is already stored is
   * refused; a chef without a name passes that check and is then refused by
   * the `NOT NULL` name column on `save`; otherwise it is stored under a fresh
   * identifier. Every chef stored this way keeps the pairs unique and the
   * chefs named, and a second `create` with the same pair is refused.
   */
  method Create(db: Store, chef: PastryChef) returns (r: Result<PastryChef, Exception>)
    requires db.Valid() && chef !in db.chefs.Values
    modifies db, chef`id
    ensures db.Valid()
    ensures old(db.ExistsChefByNameAndBirthDate(chef.name, chef.birthDate)) ==>
              r == Failure(PastryChefAlreadyExists) && unchanged(db) && unchanged(chef)
    ensures !old(db.ExistsChefByNameAndBirthDate(chef.name, chef.birthDate)) && chef.name.None? ==>
              r == Failure(DataIntegrityViolation) && unchanged(db) && unchanged(chef)
    ensures !old(db.ExistsChefByNameAndBirthDate(chef.name, chef.birthDate)) && chef.name.Some? ==>
              r == Success(chef) && chef.id == old(db.nextId) && chef.id !in old(db.chefs)
              && db.chefs == old(db.chefs)[chef.id := chef]
    ensures r.Success? ==> db.ExistsChefByNameAndBirthDate(chef.name, chef.birthDate)
    ensures old(ChefsUnique(db)) ==> ChefsUnique(db)
    ensures old(ChefsNamed(db)) ==> ChefsNamed(db)
    ensures db.users == old(db.users) && db.carts == old(db.carts) && db.cakes == old(db.cakes)
    ensures db.categories == old(db.categories) && db.orders == old(db.orders) && db.sales == old(db.sales)
    ensures db.reviews == old(db.reviews)
  {
    if db.ExistsChefByNameAndBirthDate(chef.name, chef.birthDate) {
      return Failure(PastryChefAlreadyExists);
    }
    if chef.name.None? {
      return Failure(DataIntegrityViolation);
    }
    db.SaveNewChef(chef);
    assert db.chefs[chef.id] == chef;
    r := Success(chef);
  }

  /** `getById`: the chef stored under `id`, or `PastryChefNotFound`. */
  method GetById(db: Store, id: int) returns (r: Result<PastryChef, Exception>)
    ensures id !in db.chefs <==> r == Failure(PastryChefNotFound)
    ensures id in db.chefs ==> r == Success(db.chefs[id])
  {
    if id !in db.chefs {
      return Failure(PastryChefNotFound);
    }
    r := Success(db.chefs[id]);
  }

  /**
   * `update`: the stored chef takes the name, biography and birth date of
   * `updated` and keeps its identifier and cakes. No uniqueness check is made
   * here, unlike in `create`. Without a name the `save` is refused by the
   * `NOT NULL` name column, and the stored row stays as it was.
   */
  method Update(db: Store, id: int, updated: PastryChef) returns (r: Result<PastryChef, Exception>)
    modifies if id in db.chefs then {db.chefs[id]} else {}
    ensures id !in db.chefs <==> r == Failure(PastryChefNotFound)
    ensures id in db.chefs && updated.name.None? ==>
              r == Failure(DataIntegrityViolation) && unchanged(db.chefs[id])
    ensures id in db.chefs && old(updated.name).Some? ==>
              var e := db.chefs[id];
              r == Success(e) && e.id == old(e.id) && e.cakes == old(e.cakes)
              && e.name == old(updated.name) && e.biography == old(updated.biography)
              && e.birthDate == old(updated.birthDate)
    ensures old(ChefsNamed(db)) ==> ChefsNamed(db)
  {
    if id !in db.chefs {
      return Failure(PastryChefNotFound);
    }
    if updated.name.None? {
      return Failure(DataIntegrityViolation);
    }
    var existing := db.chefs[id];
    existing.name := updated.name;
    existing.biography := updated.biography;
    existing.birthDate := updated.birthDate;
    r := Success(existing);
  }

  /** `delete`: an unknown identifier is `PastryChefNotFound`; otherwise exactly that row goes. */
  method Delete(db: Store, id: int) returns (r: Outcome<Exception>)
    modifies db`chefs
    ensures id !in old(db.chefs) <==> r == Fail(PastryChefNotFound)
    ensures r.Fail? ==> db.chefs == old(db.chefs)
    ensures r.Pass? ==> db.chefs == old(db.chefs) - {id}
  {
    if id !in db.chefs {
      return Fail(PastryChefNotFound);
    }
    db.chefs := db.chefs - {id};
    r := Pass;
  }

  /** Deleting a row keeps the remaining chefs' pairs unique. */
  lemma DeleteKeepsUnique(db: Store, id: int, chefs0: map<int, PastryChef>)
    requires db.chefs == chefs0 - {id}
    requires forall i, j | i in chefs0 && j in chefs0
                           && chefs0[i].name == chefs0[j].name && chefs0[i].birthDate == chefs0[j].birthDate :: i == j
    ensures ChefsUnique(db)
  {
  }
}
