/**
 * `CakeController`: the public cake listing and the administrators' edits.
 * Listing picks one repository query from the request parameters; reading one
 * cake answers 404 for an unknown identifier; an update maps the DTO to a new
 * cake before the service copies it onto the stored one.
 */
module CakeController {
  import opened Wrappers
  import opened Http
  import opened JavaLang
  import opened Exceptions
  import opened Models
  import opened Repositories
  import opened CakeService
  import opened CakeMapper

  /** The query `getAllCakes` hands to the service. */
  datatype CakeQuery = ByCategory(categoryId: int) | ByName(q: string) | AllCakes

  /**
   * `getAllCakes`: a category filter wins and the search text is then ignored;
   * otherwise a non-blank search text selects the name search; otherwise every
   * cake is listed.
   */
  function GetAllCakes(categoryId: Option<int>, q: Option<string>): (r: CakeQuery)
    ensures r.ByCategory? <==> categoryId.Some?
    ensures r.ByCategory? ==> r.categoryId == categoryId.value
    ensures r.ByName? <==> categoryId.None? && q.Some? && !IsBlank(q.value)
    ensures r.ByName? ==> r.q == q.value
  {
    if categoryId.Some? then ByCategory(categoryId.value)
    else if q.Some? && !IsBlank(q.value) then ByName(q.value)
    else AllCakes
  }

  /** With a category filter the search text makes no difference. */
  lemma CategoryFilterIgnoresSearch(categoryId: int, q1: Option<string>, q2: Option<string>)
    ensures GetAllCakes(Some(categoryId), q1) == GetAllCakes(Some(categoryId), q2) == ByCategory(categoryId)
  {
  }

  /** `getOne`: 200 with the cake's DTO, or 404 with no body for an unknown identifier. */
  method GetOne(db: Store, id: int) returns (r: Reply<CakeDto>)
    ensures id !in db.cakes <==> r == Status(404)
    ensures id in db.cakes ==> r == Ok(ToDto(db.cakes[id]))
  {
    if id !in db.cakes {
      return Status(404);
    }
    r := Ok(ToDto(db.cakes[id]));
  }

  /**
   * The body of `updateCake`'s `try`: map the DTO to a new cake, then let the
   * service copy it onto the stored cake `id`. A refused mapping throws before
   * the cake is looked up, and an unknown cake is `EntityNotFound`. On success
   * the stored cake carries the DTO's scalar fields, the category the DTO names
   * and the chef `resolveChef` picks; when the DTO names no category or no chef
   * the old one stays.
   */
  method MapThenUpdate(db: Store, id: int, d: CakeDto) returns (r: Result<Cake, Exception>)
    modifies if id in db.cakes then {db.cakes[id]} else {}
    ensures old(MappingLookup(db, d)).Failure? ==> r == Failure(old(MappingLookup(db, d)).error)
    ensures old(MappingLookup(db, d)).Failure? && id in db.cakes ==> unchanged(db.cakes[id])
    ensures !old(MappingLookup(db, d)).Failure? && id !in db.cakes ==> r == Failure(EntityNotFound)
    ensures !old(MappingLookup(db, d)).Failure? && id in db.cakes ==>
              var e := db.cakes[id];
              r == Success(e) && e.id == old(e.id) && Applied(old(MappingLookup(db, d)), d, e, old(e.category), old(e.pastryChef))
  {
    var entity := ToEntity(db, d);
    if entity.Failure? {
      return Failure(entity.error);
    }
    ghost var lookup := MappingLookup(db, d);
    assert Applied(lookup, d, entity.value, null, null);
    r := Update(db, id, entity.value);
  }

  /**
   * `updateCake` as written: whatever `MapThenUpdate` throws propagates, since
   * the handler catches only `NoSuchElement` and `IllegalArgument`, which
   * neither the mapper nor the service throws. An unknown cake is therefore an
   * uncaught `EntityNotFound`, and the 404 answer is never given.
   */
  method UpdateCake(db: Store, id: int, d: CakeDto) returns (r: Result<Reply<CakeDto>, Exception>)
    modifies if id in db.cakes then {db.cakes[id]} else {}
    ensures r != Success(Status(404))
    ensures !old(MappingLookup(db, d)).Failure? && id !in db.cakes ==> r == Failure(EntityNotFound)
    ensures old(MappingLookup(db, d)).Failure? ==> r == Failure(old(MappingLookup(db, d)).error)
    ensures !old(MappingLookup(db, d)).Failure? && id in db.cakes ==> r == Success(Ok(ToDto(db.cakes[id])))
  {
    var updated := MapThenUpdate(db, id, d);
    if updated.Failure? {
      return Failure(updated.error);
    }
    r := Success(Ok(ToDto(updated.value)));
  }

  /**
   * `updateCake` with the handler it evidently needs: `EntityNotFound`, which
   * both the mapper and the service throw for a missing row, answers 404, so an
   * unknown cake is a 404. Only an ambiguous chef name still throws.
   */
  method UpdateCakeCorrected(db: Store, id: int, d: CakeDto) returns (r: Result<Reply<CakeDto>, Exception>)
    modifies if id in db.cakes then {db.cakes[id]} else {}
    ensures r.Failure? ==> r.error == NonUniqueResult
    ensures id !in db.cakes && old(MappingLookup(db, d)) != Failure(NonUniqueResult) ==> r == Success(Status(404))
    ensures !old(MappingLookup(db, d)).Failure? && id in db.cakes ==> r == Success(Ok(ToDto(db.cakes[id])))
  {
    var updated := MapThenUpdate(db, id, d);
    if updated.Failure? {
      if updated.error == EntityNotFound {
        return Success(Status(404));
      }
      return Failure(updated.error);
    }
    r := Success(Ok(ToDto(updated.value)));
  }

  /** `deleteCake`: the row goes, if there is one, and the answer is always 204 with no body. */
  method DeleteCake(db: Store, id: int) returns (r: Reply<()>)
    modifies db`cakes
    ensures db.cakes == old(db.cakes) - {id}
    ensures r == Status(204)
  {
    db.cakes := db.cakes - {id};
    r := Status(204);
  }
}
