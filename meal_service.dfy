/** Meal CRUD and the per-restaurant date and type queries. */
module Meals {
  import opened Wrappers
  import opened Entities
  import opened Persistence

  datatype MealError =
    | RestaurantNotFound  // IllegalArgumentException "Restaurant not found"
    | MealInUse           // the store refuses to delete a meal that reservations reference

  /**
   * The stored meal after an update: the supplied name, description, price,
   * date and type, under the stored id and the stored owning restaurant.
   */
  function UpdatedMeal(existing: Meal, updated: Meal): (m: Meal)
    ensures m == updated.(id := existing.id, restaurantId := existing.restaurantId)
  {
    existing.(name := updated.name, description := updated.description, price := updated.price,
              date := updated.date, mealType := updated.mealType)
  }

  class MealService {
    const db: Store

    constructor (db: Store)
      ensures this.db == db
    {
      this.db := db;
    }

    /** Every meal in the store, each retrievable under its own id. */
    function GetAllMeals(): (ms: set<Meal>)
      reads db
      requires db.Valid()
      ensures forall m :: m in ms <==> m.id in db.meals && db.meals[m.id] == m
    {
      set id | id in db.meals :: db.meals[id]
    }

    function GetMealById(id: int): (r: Option<Meal>)
      reads db
      requires db.Valid()
      ensures r.None? <==> id !in db.meals
      ensures r.Some? ==> r.value.id == id && r.value in GetAllMeals()
    {
      if id in db.meals then Some(db.meals[id]) else None
    }

    /** The meals of a restaurant dated between two days, both included. */
    function GetMealsByRestaurantAndDateRange(restaurantId: int, startDate: int, endDate: int): (ms: set<Meal>)
      reads db
      requires db.Valid()
      ensures forall m :: m in ms <==>
        m in GetAllMeals() && m.restaurantId == restaurantId && startDate <= m.date <= endDate
      ensures startDate > endDate ==> ms == {}
    {
      set id | id in db.meals && db.meals[id].restaurantId == restaurantId
                && startDate <= db.meals[id].date <= endDate :: db.meals[id]
    }

    /** The meals of a restaurant on one day: the one-day range. */
    function GetMealsByRestaurantAndDate(restaurantId: int, date: int): (ms: set<Meal>)
      reads db
      requires db.Valid()
      ensures ms == GetMealsByRestaurantAndDateRange(restaurantId, date, date)
      ensures forall m :: m in ms ==> m.restaurantId == restaurantId && m.date == date
    {
      set id | id in db.meals && db.meals[id].restaurantId == restaurantId
                && db.meals[id].date == date :: db.meals[id]
    }

    /** The meals of a restaurant on one day of one type: a subset of that day's meals. */
    function GetMealsByRestaurantAndDateAndType(restaurantId: int, date: int, mealType: string): (ms: set<Meal>)
      reads db
      requires db.Valid()
      ensures forall m :: m in ms <==> m in GetMealsByRestaurantAndDate(restaurantId, date) && m.mealType == mealType
    {
      set id | id in db.meals && db.meals[id].restaurantId == restaurantId
                && db.meals[id].date == date && db.meals[id].mealType == mealType :: db.meals[id]
    }

    /** Saves the meal if its restaurant exists; otherwise nothing is written. */
    method CreateMeal(meal: Meal) returns (r: Result<Meal, MealError>)
      requires db.Valid()
      modifies db
      ensures db.Valid()
      ensures meal.restaurantId !in old(db.restaurants) ==> r == Err(RestaurantNotFound) && unchanged(db)
      ensures meal.restaurantId in old(db.restaurants) ==>
        && r == Ok(meal)
        && db.meals == old(db.meals)[meal.id := meal]
        && db.restaurants == old(db.restaurants) && db.reservations == old(db.reservations)
        && db.forecasts == old(db.forecasts)
    {
      if meal.restaurantId !in db.restaurants {
        return Err(RestaurantNotFound);
      }
      db.meals := db.meals[meal.id := meal];
      r := Ok(meal);
    }

    /** Overwrites five fields of the stored meal; its id and restaurant are kept. */
    method UpdateMeal(id: int, updated: Meal) returns (r: Option<Meal>)
      requires db.Valid()
      modifies db
      ensures db.Valid()
      ensures id !in old(db.meals) ==> r == None && unchanged(db)
      ensures id in old(db.meals) ==>
        && r == Some(UpdatedMeal(old(db.meals[id]), updated))
        && r.value.id == id && r.value.restaurantId == old(db.meals[id].restaurantId)
        && db.meals == old(db.meals)[id := r.value]
        && db.restaurants == old(db.restaurants) && db.reservations == old(db.reservations)
        && db.forecasts == old(db.forecasts)
    {
      if id in db.meals {
        var meal := UpdatedMeal(db.meals[id], updated);
        db.meals := db.meals[id := meal];
        r := Some(meal);
      } else {
        r := None;
      }
    }

    /**
     * Removes the meal with that id and nothing else, if it exists; the store
     * refuses when a reservation still references it.
     */
    method DeleteMeal(id: int) returns (r: Outcome<MealError>)
      requires db.Valid()
      modifies db
      ensures db.Valid()
      ensures (exists c :: c in old(db.reservations) && old(db.reservations)[c].mealId == id) ==>
        r == Fail(MealInUse) && unchanged(db)
      ensures (forall c :: c in old(db.reservations) ==> old(db.reservations)[c].mealId != id) ==>
        && r == Pass
        && db.meals == old(db.meals) - {id}
        && db.restaurants == old(db.restaurants) && db.reservations == old(db.reservations)
        && db.forecasts == old(db.forecasts)
    {
      if exists c :: c in db.reservations && db.reservations[c].mealId == id {
        r := Fail(MealInUse);
      } else {
        db.meals := db.meals - {id};
        r := Pass;
      }
    }
  }
}
