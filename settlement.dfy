/** A Catan settlement: a building owned by a player that starts as a
    settlement (type 1) and can be upgraded once to a city (type 2). Every
    construction draws a fresh id from a counter shared by all settlements,
    and two settlements are equal exactly when their ids are. */
module Catan {

  const SettlementType: int := 1
  const CityType: int := 2

  /** The class-wide id counter of the source (a `static int` starting at
      0), made an object so that the methods that advance it can say so. */
  class IdCounter {
    var next: int

    constructor ()
      ensures next == 0
    {
      next := 0;
    }
  }

  class Settlement {
    var buildingType: int
    var owner: int
    var id: int

    /** A settlement is either a settlement or a city. */
    ghost predicate Valid()
      reads this
    {
      buildingType == SettlementType || buildingType == CityType
    }

    /** A new settlement of `owner`; it takes the counter's current value
        as its id and advances the counter by one. */
    constructor (owner: int, counter: IdCounter)
      modifies counter
      ensures Valid()
      ensures this.owner == owner && buildingType == SettlementType
      ensures id == old(counter.next) && counter.next == old(counter.next) + 1
    {
      this.owner := owner;
      buildingType := SettlementType;
      id := counter.next;
      counter.next := counter.next + 1;
    }

    /** `upgrade()`: a settlement becomes a city and reports success; a
        city stays a city and reports failure. Owner and id never change. */
    method Upgrade() returns (upgraded: bool)
      modifies this`buildingType
      ensures upgraded <==> old(buildingType) == SettlementType
      ensures buildingType == if old(buildingType) == SettlementType then CityType else old(buildingType)
      ensures old(Valid()) ==> Valid() && buildingType == CityType
    {
      if buildingType == SettlementType {
        buildingType := CityType;
        return true;
      }
      return false;
    }

    /** `setOwner(playerID)`: only the owner changes. */
    method SetOwner(playerID: int)
      modifies this`owner
      ensures owner == playerID
    {
      owner := playerID;
    }

    /** `equals(obj)`: the same object, or another settlement with the same
        id; `null` (or an object of another class) is never equal. */
    predicate Equals(other: Settlement?)
      reads this, other
      ensures Equals(other) <==> other != null && id == other.id
    {
      other == this || (other != null && id == other.id)
    }

    /** `copy()`: a new settlement with the same owner, type and id, which
        is therefore equal to this one. It is built through the constructor, so
        it still advances the shared counter. */
    method Copy(counter: IdCounter) returns (c: Settlement)
      modifies counter
      ensures fresh(c)
      ensures c.owner == owner && c.buildingType == buildingType && c.id == id
      ensures c.Equals(this) && Equals(c)
      ensures counter.next == old(counter.next) + 1
      ensures (old(Valid()) ==> c.Valid()) && unchanged(this)
    {
      c := new Settlement(owner, counter);
      c.buildingType := buildingType;
      c.id := id;
    }
  }

  /** Two settlements built one after the other get increasing, hence
      distinct, ids, so they are never equal. */
  method BuildTwo(ownerA: int, ownerB: int, counter: IdCounter) returns (a: Settlement, b: Settlement)
    modifies counter
    ensures fresh(a) && fresh(b) && a != b
    ensures a.id == old(counter.next) && b.id == a.id + 1
    ensures counter.next == old(counter.next) + 2
    ensures !a.Equals(b) && !b.Equals(a)
  {
    a := new Settlement(ownerA, counter);
    b := new Settlement(ownerB, counter);
  }

  /** A second upgrade after a successful first one fails and leaves the
      city unchanged. */
  method UpgradeTwice(s: Settlement) returns (first: bool, second: bool)
    requires s.buildingType == SettlementType
    modifies s
    ensures first && !second
    ensures s.buildingType == CityType && s.owner == old(s.owner) && s.id == old(s.id)
  {
    first := s.Upgrade();
    second := s.Upgrade();
  }

  /** Equality looks only at ids: re-owning or upgrading either side does
      not change whether two settlements are equal. */
  method EqualityIgnoresOwnerAndType(a: Settlement, b: Settlement, playerID: int)
    returns (before: bool, after: bool)
    modifies a, b
    ensures before == after
    ensures a.owner == playerID && b.id == old(b.id) && a.id == old(a.id)
  {
    before := a.Equals(b);
    a.SetOwner(playerID);
    var _ := b.Upgrade();
    after := a.Equals(b);
  }
}
