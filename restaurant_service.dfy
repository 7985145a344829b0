/** Restaurant CRUD over the restaurant repository. */
module Restaurants {
  import opened Wrappers
  import opened Entities
  import opened Persistence

  /** The store refuses to delete a restaurant that meals still reference. */
  datatype RestaurantError = RestaurantInUse

  /** The stored restaurant after an update: the supplied fields under the stored id. */
  function UpdatedRestaurant(existing: Restaurant, updated: Restaurant): (r: Restaurant)
    ensures r == updated.(id := existing.id)
  {
    existing.(name := updated.name, location := updated.location,
              capacity := updated.capacity, operatingHours := updated.operatingHours)
  }

  class RestaurantService {
    const db: Store

    constructor (db: Store)
      ensures this.db == db
    {
      this.db := db;
    }

    /** Every restaurant in the store, each retrievable under its own id. */
    function GetAllRestaurants(): (rs: set<Restaurant>)
      reads db
      requires db.Valid()
      ensures forall r :: r in rs <==> r.id in db.restaurants && db.restaurants[r.id] == r
    {
      set id | id in db.restaurants :: db.restaurants[id]
    }

    function GetRestaurantById(id: int): (r: Option<Restaurant>)
      reads db
      requires db.Valid()
      ensures r.None? <==> id !in db.restaurants
      ensures r.Some? ==> r.value.id == id && r.value in GetAllRestaurants()
    {
      if id in db.restaurants then Some(db.restaurants[id]) else None
    }

    /** Saves the restaurant as given, inserting it or replacing the row with its id. */
    method CreateRestaurant(restaurant: Restaurant) returns (saved: Restaurant)
      requires db.Valid()
      modifies db
      ensures db.Valid()
      ensures saved == restaurant
      ensures db.restaurants == old(db.restaurants)[restaurant.id := restaurant]
      ensures db.meals == old(db.meals) && db.reservations == old(db.reservations)
      ensures db.forecasts == old(db.forecasts)
      ensures old(db.CapacitiesNonNegative()) && restaurant.capacity >= 0 ==> db.CapacitiesNonNegative()
    {
      db.restaurants := db.restaurants[restaurant.id := restaurant];
      saved := restaurant;
    }

    /**
     * Overwrites name, location, capacity and operating hours of the stored
     * restaurant; the capacity is replaced outright, not adjusted.
     */
    method UpdateRestaurant(id: int, updated: Restaurant) returns (r: Option<Restaurant>)
      requires db.Valid()
      modifies db
      ensures db.Valid()
      ensures id !in old(db.restaurants) ==> r == None && unchanged(db)
      ensures id in old(db.restaurants) ==>
        && r == Some(UpdatedRestaurant(old(db.restaurants[id]), updated))
        && r.value.id == id && r.value.capacity == updated.capacity
        && db.restaurants == old(db.restaurants)[id := r.value]
        && db.meals == old(db.meals) && db.reservations == old(db.reservations)
        && db.forecasts == old(db.forecasts)
      ensures old(db.CapacitiesNonNegative()) && updated.capacity >= 0 ==> db.CapacitiesNonNegative()
    {
      if id in db.restaurants {
        var restaurant := UpdatedRestaurant(db.restaurants[id], updated);
        db.restaurants := db.restaurants[id := restaurant];
        r := Some(restaurant);
      } else {
        r := None;
      }
    }

    /**
     * Removes the restaurant with that id, if any; the store refuses when a
     * meal still belongs to it.
     */
    method DeleteRestaurant(id: int) returns (r: Outcome<RestaurantError>)
      requires db.Valid()
      modifies db
      ensures db.Valid()
      ensures (exists m :: m in old(db.meals) && old(db.meals)[m].restaurantId == id) ==>
        r == Fail(RestaurantInUse) && unchanged(db)
      ensures (forall m :: m in old(db.meals) ==> old(db.meals)[m].restaurantId != id) ==>
        && r == Pass
        && db.restaurants == old(db.restaurants) - {id}
        && db.meals == old(db.meals) && db.reservations == old(db.reservations)
        && db.forecasts == old(db.forecasts)
      ensures old(db.CapacitiesNonNegative()) ==> db.CapacitiesNonNegative()
    {
      if exists m :: m in db.meals && db.meals[m].restaurantId == id {
        r := Fail(RestaurantInUse);
      } else {
        db.restaurants := db.restaurants - {id};
        r := Pass;
      }
    }
  }
}
