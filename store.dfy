/**
 * The entity store the services write through: one map per repository.
 * Restaurants and meals are keyed by id, reservations by their unique code,
 * cached forecasts by (epoch-day, location). `save` is insert-or-update by
 * key; the foreign keys meal -> restaurant and reservation -> meal are
 * required columns, so a referenced row cannot be deleted.
 */
module Persistence {
  import opened Entities
  import opened ReservationModel

  class Store {
    var restaurants: map<int, Restaurant>
    var meals: map<int, Meal>
    var reservations: map<string, ReservationRow>
    var forecasts: map<(int, string), WeatherForecast>

    constructor ()
      ensures restaurants == map[] && meals == map[] && reservations == map[] && forecasts == map[]
    {
      restaurants, meals, reservations, forecasts := map[], map[], map[], map[];
    }

    /**
     * The schema's guarantees: every row sits under its own key and every
     * foreign key resolves. Beside them, two invariants the reservation
     * service keeps rather than the schema: every stored reservation has a
     * positive party size (validation) and has left PENDING (creation sets
     * ACTIVE).
     */
    ghost predicate Valid()
      reads this
    {
      && (forall id :: id in restaurants ==> restaurants[id].id == id)
      && (forall id :: id in meals ==> meals[id].id == id && meals[id].restaurantId in restaurants)
      && (forall code :: code in reservations ==>
            && reservations[code].code == code
            && reservations[code].mealId in meals
            && reservations[code].numberOfPeople > 0
            && reservations[code].status != Pending)
      && (forall key :: key in forecasts ==> forecasts[key].date == key.0 && forecasts[key].location == key.1)
    }

    /** The capacity ledger's invariant: no restaurant has a negative number of free seats. */
    ghost predicate CapacitiesNonNegative()
      reads this
    {
      forall id :: id in restaurants ==> restaurants[id].capacity >= 0
    }

    // ----- the writes the reservation lifecycle makes -----

    /** The ledger's reserve: the restaurant's free seats go down by n. */
    method TakeSeats(id: int, n: int)
      requires Valid() && id in restaurants
      modifies this
      ensures Valid()
      ensures restaurants == AdjustCapacity(old(restaurants), id, -n)
      ensures meals == old(meals) && reservations == old(reservations) && forecasts == old(forecasts)
      ensures old(CapacitiesNonNegative()) && old(restaurants[id].capacity) >= n ==> CapacitiesNonNegative()
    {
      restaurants := AdjustCapacity(restaurants, id, -n);
    }

    /** The ledger's release: the restaurant's free seats go up by n. */
    method ReturnSeats(id: int, n: int)
      requires Valid() && id in restaurants && n >= 0
      modifies this
      ensures Valid()
      ensures restaurants == AdjustCapacity(old(restaurants), id, n)
      ensures meals == old(meals) && reservations == old(reservations) && forecasts == old(forecasts)
      ensures old(CapacitiesNonNegative()) ==> CapacitiesNonNegative()
    {
      restaurants := AdjustCapacity(restaurants, id, n);
    }

    /** Inserts a new reservation row; the unique code column refuses a second row with the same code. */
    method InsertReservation(row: ReservationRow) returns (inserted: bool)
      requires Valid() && row.mealId in meals && row.numberOfPeople > 0 && row.status != Pending
      modifies this
      ensures Valid()
      ensures inserted <==> row.code !in old(reservations)
      ensures reservations == if inserted then old(reservations)[row.code := row] else old(reservations)
      ensures restaurants == old(restaurants) && meals == old(meals) && forecasts == old(forecasts)
    {
      inserted := row.code !in reservations;
      if inserted {
        reservations := reservations[row.code := row];
      }
    }

    /**
     * The writes of an admitted reservation: the restaurant's seats are taken
     * first, then the row is inserted, so a refused insert leaves them taken.
     */
    method Reserve(id: int, row: ReservationRow) returns (inserted: bool)
      requires Valid() && id in restaurants
      requires row.mealId in meals && row.numberOfPeople > 0 && row.status != Pending
      modifies this
      ensures Valid()
      ensures restaurants == AdjustCapacity(old(restaurants), id, -row.numberOfPeople)
      ensures old(CapacitiesNonNegative()) && old(restaurants[id].capacity) >= row.numberOfPeople ==> CapacitiesNonNegative()
      ensures inserted <==> row.code !in old(reservations)
      ensures reservations == if inserted then old(reservations)[row.code := row] else old(reservations)
      ensures meals == old(meals) && forecasts == old(forecasts)
    {
      TakeSeats(id, row.numberOfPeople);
      inserted := InsertReservation(row);
    }

    /** Writes back a reservation row that keeps its meal and party size. */
    method UpdateReservation(row: ReservationRow)
      requires Valid() && row.code in reservations && row.status != Pending
      requires row.mealId == reservations[row.code].mealId
      requires row.numberOfPeople == reservations[row.code].numberOfPeople
      modifies this
      ensures Valid()
      ensures reservations == old(reservations)[row.code := row]
      ensures restaurants == old(restaurants) && meals == old(meals) && forecasts == old(forecasts)
    {
      reservations := reservations[row.code := row];
    }

    method RemoveReservation(code: string)
      requires Valid()
      modifies this
      ensures Valid()
      ensures reservations == old(reservations) - {code}
      ensures restaurants == old(restaurants) && meals == old(meals) && forecasts == old(forecasts)
    {
      reservations := reservations - {code};
    }

    /** Caches a forecast under its own (date, location). */
    method SaveForecast(f: WeatherForecast)
      requires Valid()
      modifies this
      ensures Valid()
      ensures forecasts == old(forecasts)[(f.date, f.location) := f]
      ensures restaurants == old(restaurants) && meals == old(meals) && reservations == old(reservations)
    {
      forecasts := forecasts[(f.date, f.location) := f];
    }

    /** The restaurant a stored meal belongs to. */
    function RestaurantOfMeal(mealId: int): (id: int)
      reads this
      requires Valid() && mealId in meals
      ensures id in restaurants
    {
      meals[mealId].restaurantId
    }

    /** The restaurant a stored reservation consumes seats of, through its meal. */
    function RestaurantOf(code: string): (id: int)
      reads this
      requires Valid() && code in reservations
      ensures id in restaurants
    {
      meals[reservations[code].mealId].restaurantId
    }
  }

  /** The restaurants map with one restaurant's free seats moved by `delta`. */
  function AdjustCapacity(restaurants: map<int, Restaurant>, id: int, delta: int): map<int, Restaurant>
    requires id in restaurants
  {
    restaurants[id := restaurants[id].(capacity := restaurants[id].capacity + delta)]
  }

  /** Giving back the seats just taken restores the restaurants exactly. */
  lemma AdjustCapacityInverse(restaurants: map<int, Restaurant>, id: int, taken: int, returned: int)
    requires id in restaurants && taken + returned == 0
    ensures AdjustCapacity(AdjustCapacity(restaurants, id, taken), id, returned) == restaurants
  {
  }
}
