/**
 * `PastryChefMapper`: between a chef and its transfer object. The cake list is
 * the interesting part: listed cake identifiers are all looked up before any
 * link changes, and an update replaces the whole list, detaching every cake it
 * held before attaching the listed ones.
 */
module PastryChefMapper {
  import opened Wrappers
  import opened Exceptions
  import opened Models
  import opened Repositories

  /** `PastryChefDTO`. */
  datatype PastryChefDto = PastryChefDto(id: Option<int>, name: Option<string>, biography: Option<string>,
                                         birthDate: Option<int>, cakeIds: Option<seq<int>>)

  /** `dto.getCakeIds() != null && !dto.getCakeIds().isEmpty()`. */
  predicate ListsCakes(d: PastryChefDto) {
    d.cakeIds.Some? && d.cakeIds.value != []
  }

  /** The identifiers of a list of cakes, in order. */
  function CakeIdList(cs: seq<Cake>): (r: seq<int>)
    reads cs`id
    ensures |r| == |cs|
    ensures forall i :: 0 <= i < |cs| ==> r[i] == cs[i].id
  {
    if cs == [] then [] else CakeIdList(cs[..|cs| - 1]) + [cs[|cs| - 1].id]
  }

  /** `toDto`: the plain fields, and the cake identifiers only when the chef has cakes. */
  function ToDto(chef: PastryChef): (d: PastryChefDto)
    reads chef, chef.cakes`id
    ensures d.id == Some(chef.id)
    ensures d.cakeIds.None? <==> chef.cakes == []
    ensures d.cakeIds.Some? ==> |d.cakeIds.value| == |chef.cakes|
                                && forall i :: 0 <= i < |chef.cakes| ==> d.cakeIds.value[i] == chef.cakes[i].id
  {
    PastryChefDto(Some(chef.id), chef.name, chef.biography, chef.birthDate,
                  if chef.cakes == [] then None else Some(CakeIdList(chef.cakes)))
  }

  /**
   * The stream of `findById(id).orElseThrow(...)` over the listed identifiers:
   * the stored cakes in the listed order, or `EntityNotFound` when any
   * identifier is unknown.
   */
  function FindCakes(cakes: map<int, Cake>, ids: seq<int>): (r: Result<seq<Cake>, Exception>)
    ensures r.Failure? <==> exists i :: 0 <= i < |ids| && ids[i] !in cakes
    ensures r.Failure? ==> r.error == EntityNotFound
    ensures r.Success? ==> |r.value| == |ids| && forall i :: 0 <= i < |ids| ==> r.value[i] == cakes[ids[i]]
  {
    if ids == [] then Success([])
    else
      var last := ids[|ids| - 1];
      match FindCakes(cakes, ids[..|ids| - 1])
      case Failure(e) => Failure(e)
      case Success(found) =>
        if last in cakes then Success(found + [cakes[last]])
        else assert ids[|ids| - 1] !in cakes; Failure(EntityNotFound)
  }

  /** Every cake found is a stored one. */
  lemma FoundAreStored(cakes: map<int, Cake>, ids: seq<int>)
    requires FindCakes(cakes, ids).Success?
    ensures forall c | c in FindCakes(cakes, ids).value :: c in cakes.Values
  {
    var found := FindCakes(cakes, ids).value;
    forall c | c in found
      ensures c in cakes.Values
    {
      var i :| 0 <= i < |found| && found[i] == c;
      assert cakes[ids[i]] == c;
    }
  }

  /** When cakes are stored under their own identifiers, the cakes found carry the listed identifiers. */
  lemma FoundCarryIds(db: Store, ids: seq<int>)
    requires CakesKeyed(db) && FindCakes(db.cakes, ids).Success?
    ensures CakeIdList(FindCakes(db.cakes, ids).value) == ids
  {
    var found := FindCakes(db.cakes, ids).value;
    forall i | 0 <= i < |ids|
      ensures CakeIdList(found)[i] == ids[i]
    {
      assert found[i] == db.cakes[ids[i]];
    }
  }

  /**
   * A chef holding exactly the cakes found for a non-empty list converts back
   * to that list, when cakes are stored under their own identifiers.
   */
  lemma ListedIdsComeBack(db: Store, d: PastryChefDto, chef: PastryChef)
    requires CakesKeyed(db) && ListsCakes(d) && FindCakes(db.cakes, d.cakeIds.value).Success?
    requires chef.cakes == FindCakes(db.cakes, d.cakeIds.value).value
    ensures ToDto(chef).cakeIds == d.cakeIds
  {
    FoundCarryIds(db, d.cakeIds.value);
  }

  /** `cakes.forEach(chef::addCake)`: the cakes are appended in order and each points at the chef. */
  method AddAll(chef: PastryChef, cs: seq<Cake>)
    modifies chef`cakes, cs`pastryChef
    ensures chef.cakes == old(chef.cakes) + cs
    ensures forall c | c in cs :: c.pastryChef == chef
  {
    var n := 0;
    while n < |cs|
      invariant n <= |cs|
      invariant chef.cakes == old(chef.cakes) + cs[..n]
      invariant forall i :: 0 <= i < n ==> cs[i].pastryChef == chef
    {
      assert cs[..n + 1] == cs[..n] + [cs[n]];
      chef.AddCake(cs[n]);
      n := n + 1;
    }
    assert cs[..n] == cs;
  }

  /**
   * `currentCakes.forEach(chef::removeCake)` over a copy of the list: each
   * removal takes the copy's next cake off the front, so the list ends empty,
   * duplicates included, and every cake it held is detached.
   */
  method RemoveAll(chef: PastryChef, existing: seq<Cake>)
    requires chef.cakes == existing
    modifies chef`cakes, existing`pastryChef
    ensures chef.cakes == []
    ensures forall c | c in existing :: c.pastryChef == null
  {
    var n := 0;
    while n < |existing|
      invariant n <= |existing|
      invariant chef.cakes == existing[n..]
      invariant forall i :: 0 <= i < n ==> existing[i].pastryChef == null
    {
      assert existing[n..][0] == existing[n] && existing[n..][1..] == existing[n + 1..];
      chef.RemoveCake(existing[n]);
      n := n + 1;
    }
  }

  /**
   * `toEntity`: a new chef with the transfer object's plain fields and, when
   * cake identifiers are listed, exactly the cakes they name, each linked back
   * to the new chef; an unknown identifier throws `EntityNotFound` before any
   * cake is linked. No other stored cake changes chef.
   */
  method ToEntity(db: Store, d: PastryChefDto) returns (r: Result<PastryChef, Exception>)
    modifies db.cakes.Values`pastryChef
    ensures r.Failure? <==> ListsCakes(d) && FindCakes(db.cakes, d.cakeIds.value).Failure?
    ensures r.Failure? ==> r.error == EntityNotFound && unchanged(db.cakes.Values)
    ensures r.Success? ==>
              var chef := r.value;
              fresh(chef) && chef.id == 0
              && chef.name == d.name && chef.biography == d.biography && chef.birthDate == d.birthDate
              && chef.cakes == (if ListsCakes(d) then FindCakes(db.cakes, d.cakeIds.value).value else [])
              && (forall c | c in chef.cakes :: c.pastryChef == chef)
              && forall c | c in db.cakes.Values && c !in chef.cakes :: c.pastryChef == old(c.pastryChef)
  {
    var chef := new PastryChef();
    chef.name := d.name;
    chef.biography := d.biography;
    chef.birthDate := d.birthDate;
    if ListsCakes(d) {
      var found := FindCakes(db.cakes, d.cakeIds.value);
      if found.Failure? {
        return Failure(found.error);
      }
      FoundAreStored(db.cakes, d.cakeIds.value);
      AddAll(chef, found.value);
    }
    r := Success(chef);
  }

  /**
   * `updateEntityFromDto`: the plain fields are always overwritten. With no
   * listed identifiers the cake list stays. Otherwise every identifier is
   * looked up first, so an unknown one throws `EntityNotFound` with the list
   * and every cake untouched; on success the list is exactly the cakes found,
   * each pointing at the chef, a cake that was on the list and is not
   * any more points at no chef, and every other stored cake keeps its chef.
   */
  method UpdateEntityFromDto(db: Store, d: PastryChefDto, chef: PastryChef) returns (r: Outcome<Exception>)
    modifies chef`name, chef`biography, chef`birthDate, chef`cakes, chef.cakes`pastryChef, db.cakes.Values`pastryChef
    ensures chef.name == d.name && chef.biography == d.biography && chef.birthDate == d.birthDate
    ensures r.Fail? <==> ListsCakes(d) && FindCakes(db.cakes, d.cakeIds.value).Failure?
    ensures r.Fail? ==> r.error == EntityNotFound
    ensures r.Fail? || !ListsCakes(d) ==>
              chef.cakes == old(chef.cakes) && unchanged(db.cakes.Values) && unchanged(old(chef.cakes))
    ensures r.Pass? && ListsCakes(d) ==>
              chef.cakes == FindCakes(db.cakes, d.cakeIds.value).value
              && (forall c | c in chef.cakes :: c.pastryChef == chef)
              && (forall c | c in old(chef.cakes) && c !in chef.cakes :: c.pastryChef == null)
              && forall c | c in db.cakes.Values && c !in old(chef.cakes) && c !in chef.cakes ::
                   c.pastryChef == old(c.pastryChef)
  {
    chef.name := d.name;
    chef.biography := d.biography;
    chef.birthDate := d.birthDate;
    r := Pass;
    if ListsCakes(d) {
      var found := FindCakes(db.cakes, d.cakeIds.value);
      if found.Failure? {
        return Fail(found.error);
      }
      FoundAreStored(db.cakes, d.cakeIds.value);
      var current := chef.cakes;
      RemoveAll(chef, current);
      AddAll(chef, found.value);
    }
  }
}
