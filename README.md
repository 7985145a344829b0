# Moliceiro Meals: reservations, capacity ledger and weather cache in Dafny

This project models the service layer of the Moliceiro Meals Spring application: restaurants
serving meals, customers reserving seats for a meal, and a weather forecast lookup with a
persistent cache.

- **Store (`Persistence.Store`).** The four repositories become one class with four maps:
  - restaurants by id;
  - meals by id;
  - reservations by their unique code;
  - cached forecasts by (epoch day, location).

  `Valid()` states the schema's guarantees:
  - every row sits under its own key;
  - every meal's restaurant and every reservation's meal exist.

  It also holds two invariants that the reservation service maintains, not the schema:
  - stored reservations have a positive party size, because validation refuses any other;
  - stored reservations have left PENDING, because creation sets ACTIVE.

  `CapacitiesNonNegative()` is the capacity ledger's invariant. A restaurant's `capacity` is
  its count of free seats.
- **Reservation entity (`ReservationModel`).** The mutable `Reservation` class has Java's
  defaults: unused, PENDING, every other field unset. It also has the pre-persist hook that
  overwrites the code with the first eight characters of a UUID's text, upper-cased. The UUID is
  a parameter. The model follows `java.util.UUID.toString` precisely enough to prove three
  facts:
  - the code is eight upper-case hexadecimal digits;
  - reading the code back gives the UUID's upper 32 bits;
  - two UUIDs give the same code exactly when those bits agree.
- **Reservation lifecycle (`Reservations`).** A reservation is created, cancelled, marked used,
  or deleted, and each operation moves the owning restaurant's free seats. For every operation
  the contract states the whole new state of the store:
  - the maps are tied to the old ones through `AdjustCapacity`;
  - everything else is kept unchanged;
  - the error it raises, and in which order.

  Validation is modelled as in the source:
  - the name rule uses Java's `trim`;
  - the email rule matches the regular expression `^[A-Za-z0-9+_.-]+@(.+)$`, where `.` excludes
    Java's line terminators. A scanner runs the rule, and the project proves the scanner correct
    against a declarative statement of the pattern.

  Three call sequences link the operations:
  - create then cancel restores every restaurant;
  - create then delete restores restaurants and reservations;
  - create, cancel, then mark used leaves the restaurant with n more free seats than it had
    before.
- **Meals and restaurants (`Meals`, `Restaurants`).** CRUD operations with the restaurant
  existence check, and updates that overwrite only the named fields and keep id and owner.
  The three meal queries are stated as sets and related to one another: the one-day query is
  the one-day range, and the typed query is a subset of the one-day query.
- **Weather (`Weather`).** The dated lookup counts requests, store hits and misses, and has four
  outcomes:
  - a date more than five days ahead gets the default forecast;
  - a stored forecast is a hit;
  - on a miss, the first provider sample on the requested day is saved and returned;
  - a miss with no sample on that day gets the default forecast, unsaved.

  Provider failures surface as the exceptions Java would throw. The undated lookup normalises
  the location and falls back to the default on any failure. The counters keep
  total = hits + misses + far-future requests, and a saving miss followed by the same request
  gives the statistics (2, 1, 1, 0.5).

The external inputs are all parameters:
- the clock is a `Clock(today, epochMillis)` value, or an integer `now` for reservation times;
- the random UUID is a `Uuid` argument;
- the weather provider is a function from location to `ProviderReply`.

Java's truncating `long` division is written out as `TruncatingDiv`, so negative timestamps are
modelled exactly.

### Behaviour reproduced as written
- Marking a reservation used gives its seats back (`ReservationService.java:119-122`).
- Marking a reservation used does not check the status. An unused but CANCELED reservation,
  whose seats cancellation already returned, can be marked used and returns them a second time.
  `Reservations.MarkUsedAfterCancelReleasesTwice` proves that the restaurant then has n more
  free seats than before the reservation was made, so the ledger no longer matches the live
  reservations.
- `createReservation` is not transactional. The seats are written before the reservation is
  inserted. If the generated code already exists, the unique column refuses the insert and the
  seats stay taken. `CreateReservation` returns `Err(DuplicateCode)` in that case, with the
  capacity change in its contract.

## Model

| member | source | states |
|---|---|---|
| ReservationModel.Reservation.constructor | src/main/java/pt/ua/tqs/moliceiro/meals/model/Reservation.java:48-53 | a new reservation is unused, PENDING, and has no meal, customer, party size, time or code |
| ReservationModel.Reservation.GenerateReservationCode | src/main/java/pt/ua/tqs/moliceiro/meals/model/Reservation.java:55-58 | the pre-persist hook overwrites any earlier code with the code of the given UUID: 8 characters, all upper-case hexadecimal |
| ReservationModel.HexDigits | src/main/java/pt/ua/tqs/moliceiro/meals/model/Reservation.java:57 | the n-digit hexadecimal field of a UUID's text has exactly n lower-case hexadecimal digits |
| ReservationModel.UuidString | src/main/java/pt/ua/tqs/moliceiro/meals/model/Reservation.java:57 | the canonical 8-4-4-4-12 UUID text, with its four dashes, has 36 characters |
| ReservationModel.ToUpperCase | src/main/java/pt/ua/tqs/moliceiro/meals/model/Reservation.java:57 | upper-casing of ASCII text, which is all a UUID's text holds: each lower-case letter becomes its capital, every other character is kept, so lower-case hexadecimal digits become upper-case ones |
| ReservationModel.CodeFromUuid | src/main/java/pt/ua/tqs/moliceiro/meals/model/Reservation.java:57 | the first 8 characters of the UUID string, upper-cased, are 8 upper-case hexadecimal digits |
| ReservationModel.HexRoundTrip | src/main/java/pt/ua/tqs/moliceiro/meals/model/Reservation.java:57 | reading back the upper-cased n-digit numeral of v gives v, for every v below 16^n |
| ReservationModel.CodeEncodesHighBits | src/main/java/pt/ua/tqs/moliceiro/meals/model/Reservation.java:57 | the code, read as a hexadecimal number, is the UUID's upper 32 bits |
| ReservationModel.CodesCollideIff | src/main/java/pt/ua/tqs/moliceiro/meals/model/Reservation.java:57 | two UUIDs give the same code if and only if their upper 32 bits agree |
| Persistence.Store.TakeSeats | src/main/java/pt/ua/tqs/moliceiro/meals/service/ReservationService.java:71-72 | the restaurant's free seats fall by exactly n, nothing else changes, and non-negativity survives when n seats were free |
| Persistence.Store.ReturnSeats | src/main/java/pt/ua/tqs/moliceiro/meals/service/ReservationService.java:98-99 | the restaurant's free seats rise by exactly n, nothing else changes, and the ledger stays non-negative |
| Persistence.Store.InsertReservation | src/main/java/pt/ua/tqs/moliceiro/meals/model/Reservation.java:45-46 | the row is inserted if and only if its code is new (unique column); otherwise nothing changes |
| Persistence.Store.Reserve | src/main/java/pt/ua/tqs/moliceiro/meals/service/ReservationService.java:70-75 | the seats are taken first, then the row is inserted under its code if that code is new; a refused insert leaves the seats taken |
| Persistence.Store.UpdateReservation | src/main/java/pt/ua/tqs/moliceiro/meals/service/ReservationService.java:82 | saving an existing reservation replaces its row and keeps the store's integrity |
| Persistence.Store.RemoveReservation | src/main/java/pt/ua/tqs/moliceiro/meals/service/ReservationService.java:136 | deleting a reservation removes exactly that code |
| Persistence.Store.SaveForecast | src/main/java/pt/ua/tqs/moliceiro/meals/service/WeatherService.java:85 | a forecast is stored under its own (date, location) and no other map changes |
| Persistence.Store.RestaurantOfMeal | src/main/java/pt/ua/tqs/moliceiro/meals/service/ReservationService.java:61 | a stored meal's restaurant is a stored restaurant |
| Persistence.Store.RestaurantOf | src/main/java/pt/ua/tqs/moliceiro/meals/service/ReservationService.java:97 | a stored reservation's restaurant, reached through its meal, is a stored restaurant |
| Persistence.AdjustCapacityInverse | src/main/java/pt/ua/tqs/moliceiro/meals/service/ReservationService.java:71 | taking n seats and giving n seats back restores the restaurants map exactly |
| Reservations.TrimStart | src/main/java/pt/ua/tqs/moliceiro/meals/service/ReservationService.java:143 | after removing leading characters up to U+0020, the result is empty or starts with a character above U+0020 |
| Reservations.TrimEnd | src/main/java/pt/ua/tqs/moliceiro/meals/service/ReservationService.java:143 | after removing trailing characters up to U+0020, the result is empty or ends with a character above U+0020 |
| Reservations.TrimEmptyIffBlank | src/main/java/pt/ua/tqs/moliceiro/meals/service/ReservationService.java:143 | a name trims to empty if and only if every character is at most U+0020 |
| Reservations.EmailMatcherCorrect | src/main/java/pt/ua/tqs/moliceiro/meals/service/ReservationService.java:23 | the email scanner accepts exactly the strings the pattern matches: a non-empty local part of letters, digits and `+_.-`, then `@`, then a non-empty rest with no line terminator |
| Reservations.NameRule | src/main/java/pt/ua/tqs/moliceiro/meals/service/ReservationService.java:143-145 | the service's null-or-trimmed-empty test fails exactly the names with no character above U+0020 |
| Reservations.EmailRule | src/main/java/pt/ua/tqs/moliceiro/meals/service/ReservationService.java:146-148 | the service's null-or-no-match test fails exactly the emails the pattern does not match |
| Reservations.ValidateReservation | src/main/java/pt/ua/tqs/moliceiro/meals/service/ReservationService.java:142-158 | the first broken rule decides the error: name (missing or blank), then email, then party size (missing or at most 0), then meal; no error if and only if all four rules hold |
| Reservations.ReservationService.GetReservationByCode | src/main/java/pt/ua/tqs/moliceiro/meals/service/ReservationService.java:32-34 | finds the row stored under the code, or none if and only if the code is unknown |
| Reservations.ReservationService.GetAllReservations | src/main/java/pt/ua/tqs/moliceiro/meals/service/ReservationService.java:44-46 | a row is listed if and only if it is stored under its own code |
| Reservations.ReservationService.GetReservationsByMeal | src/main/java/pt/ua/tqs/moliceiro/meals/service/ReservationService.java:36-38 | exactly the stored reservations of that meal |
| Reservations.ReservationService.GetReservationsByCustomerEmail | src/main/java/pt/ua/tqs/moliceiro/meals/service/ReservationService.java:40-42 | exactly the stored reservations with that email |
| Reservations.ReservationService.HasActiveReservations | src/main/java/pt/ua/tqs/moliceiro/meals/service/ReservationService.java:48-50 | true if and only if some reservation of the meal is unused |
| Reservations.ReservationService.AdmissionError | src/main/java/pt/ua/tqs/moliceiro/meals/service/ReservationService.java:52-64 | validation comes first; then "Meal not found" for an unknown meal; then "Not enough capacity" if and only if the meal's restaurant has fewer free seats than the party |
| Reservations.ReservationService.CreateReservation | src/main/java/pt/ua/tqs/moliceiro/meals/service/ReservationService.java:52-76 | a refused request writes nothing; an admitted one takes exactly n seats from the meal's restaurant, sets the time, ACTIVE and the generated code, and inserts the row under its code; if the code is taken, the insert is refused and the seats stay taken |
| Reservations.ReservationService.Admit | src/main/java/pt/ua/tqs/moliceiro/meals/service/ReservationService.java:66-75 | the writes of an admitted request: entity fields set, n seats taken, and the row inserted if and only if its code is new |
| Reservations.ReservationService.CancelReservation | src/main/java/pt/ua/tqs/moliceiro/meals/service/ReservationService.java:78-103 | unknown code: empty, no write; used: "already been used", no write; CANCELED: returned unchanged; otherwise exactly n seats come back and only the status becomes CANCELED |
| Reservations.ReservationService.MarkReservationAsUsed | src/main/java/pt/ua/tqs/moliceiro/meals/service/ReservationService.java:105-123 | unknown code: empty, no write; used: "already been used", no write; otherwise used and COMPLETED, and exactly n seats come back whatever the status |
| Reservations.ReservationService.DeleteReservation | src/main/java/pt/ua/tqs/moliceiro/meals/service/ReservationService.java:125-140 | unknown code: empty; n seats come back if and only if the reservation is unused and not CANCELED; the row is removed if and only if it is not CANCELED; the old row is returned |
| Reservations.CancelUndoesCreate | src/main/java/pt/ua/tqs/moliceiro/meals/service/ReservationService.java:52-103 | an admitted create followed by cancel returns the CANCELED row and restores every restaurant's free seats |
| Reservations.DeleteUndoesCreate | src/main/java/pt/ua/tqs/moliceiro/meals/service/ReservationService.java:125-140 | an admitted create followed by delete returns the created row and restores both the restaurants and the reservations |
| Reservations.MarkUsedAfterCancelReleasesTwice | src/main/java/pt/ua/tqs/moliceiro/meals/service/ReservationService.java:113-123 | create, cancel and mark used leave the meal's restaurant with n more free seats than before the create |
| Restaurants.UpdatedRestaurant | src/main/java/pt/ua/tqs/moliceiro/meals/service/RestaurantService.java:41-46 | the updated restaurant is the supplied one under the stored id, with capacity replaced outright |
| Restaurants.RestaurantService.GetAllRestaurants | src/main/java/pt/ua/tqs/moliceiro/meals/service/RestaurantService.java:21-23 | a restaurant is listed if and only if it is stored under its id |
| Restaurants.RestaurantService.GetRestaurantById | src/main/java/pt/ua/tqs/moliceiro/meals/service/RestaurantService.java:25-27 | empty if and only if the id is unknown; otherwise the listed restaurant with that id |
| Restaurants.RestaurantService.CreateRestaurant | src/main/java/pt/ua/tqs/moliceiro/meals/service/RestaurantService.java:29-31 | the restaurant is stored as given under its id and returned; nothing else changes |
| Restaurants.RestaurantService.UpdateRestaurant | src/main/java/pt/ua/tqs/moliceiro/meals/service/RestaurantService.java:33-39 | unknown id: empty, no write; otherwise exactly the four fields are overwritten and the id kept; the ledger stays non-negative when the new capacity is |
| Restaurants.RestaurantService.DeleteRestaurant | src/main/java/pt/ua/tqs/moliceiro/meals/service/RestaurantService.java:48-50 | removes only that id, unless a meal still references it, in which case nothing changes |
| Meals.UpdatedMeal | src/main/java/pt/ua/tqs/moliceiro/meals/service/MealService.java:62-68 | the updated meal takes name, description, price, date and type from the update, and id and restaurant from the stored meal |
| Meals.MealService.GetAllMeals | src/main/java/pt/ua/tqs/moliceiro/meals/service/MealService.java:26-28 | a meal is listed if and only if it is stored under its id |
| Meals.MealService.GetMealById | src/main/java/pt/ua/tqs/moliceiro/meals/service/MealService.java:30-32 | empty if and only if the id is unknown; otherwise the listed meal with that id |
| Meals.MealService.GetMealsByRestaurantAndDateRange | src/main/java/pt/ua/tqs/moliceiro/meals/service/MealService.java:34-36 | exactly the restaurant's meals dated within the inclusive range; empty when the range is reversed |
| Meals.MealService.GetMealsByRestaurantAndDate | src/main/java/pt/ua/tqs/moliceiro/meals/service/MealService.java:38-40 | the one-day query equals the one-day range |
| Meals.MealService.GetMealsByRestaurantAndDateAndType | src/main/java/pt/ua/tqs/moliceiro/meals/service/MealService.java:42-44 | exactly that day's meals of the restaurant with the given type |
| Meals.MealService.CreateMeal | src/main/java/pt/ua/tqs/moliceiro/meals/service/MealService.java:46-52 | unknown restaurant: "Restaurant not found", no write; otherwise the meal is stored under its id and returned |
| Meals.MealService.UpdateMeal | src/main/java/pt/ua/tqs/moliceiro/meals/service/MealService.java:54-60 | unknown id: empty, no write; otherwise only that meal changes, to the updated meal with its id and restaurant kept |
| Meals.MealService.DeleteMeal | src/main/java/pt/ua/tqs/moliceiro/meals/service/MealService.java:70-72 | removes only that id, unless a reservation still references it, in which case nothing changes |
| Weather.TruncatingDiv | src/main/java/pt/ua/tqs/moliceiro/meals/service/WeatherService.java:72 | Java's `long` division: the quotient rounds toward zero for both signs |
| Weather.EpochDayOf | src/main/java/pt/ua/tqs/moliceiro/meals/service/WeatherService.java:90 | the day number of a timestamp in seconds, rounding toward zero as Java does |
| Weather.FirstOnDate | src/main/java/pt/ua/tqs/moliceiro/meals/service/WeatherService.java:71-73 | an index found is the first sample on the date, with every earlier sample on a valid other day; "none" if and only if every sample is on a valid other day; the only error is an unrepresentable day |
| Weather.FirstOnDateFindsFirst | src/main/java/pt/ua/tqs/moliceiro/meals/service/WeatherService.java:71-73 | a sample on the date that the scan reaches is the one found: the converse of the found-index clause |
| Weather.FirstOnDateAborts | src/main/java/pt/ua/tqs/moliceiro/meals/service/WeatherService.java:71-72 | an unrepresentable day reached before any sample on the date makes the scan fail |
| Weather.ForecastFromData | src/main/java/pt/ua/tqs/moliceiro/meals/service/WeatherService.java:88-98 | the forecast carries the sample's day, values, first description and timestamp, tagged with the location; it fails if and only if the day is out of range or there is no description |
| Weather.DefaultForecast | src/main/java/pt/ua/tqs/moliceiro/meals/service/WeatherService.java:133-143 | today's date, "Aveiro,PT", 20.0, "Partly cloudy", 65.0, 5.0, stamped with the current second |
| Weather.DefaultFor | src/main/java/pt/ua/tqs/moliceiro/meals/service/WeatherService.java:53-55 | the default values, stamped with the requested date and location |
| Weather.NormaliseLocation | src/main/java/pt/ua/tqs/moliceiro/meals/service/WeatherService.java:103-105 | never empty and never the placeholder; a missing, empty or "Test Location" location becomes "Aveiro,PT", any other is kept |
| Weather.Fetch | src/main/java/pt/ua/tqs/moliceiro/meals/service/WeatherService.java:68-85 | a thrown call or a missing body or list is an error; otherwise no sample on the date gives the default for (date, location), an aborted scan is an error, and the first sample on the date is saved when it converts and is an error when it does not; a saved forecast has the requested date and location |
| Weather.FetchSavesFirstMatch | src/main/java/pt/ua/tqs/moliceiro/meals/service/WeatherService.java:71-85 | whenever the first sample on the date converts, the miss saves exactly that forecast |
| Weather.FetchFallsBack | src/main/java/pt/ua/tqs/moliceiro/meals/service/WeatherService.java:76-82 | a reply with no sample on the date, and no invalid day, gives the default for (date, location), unsaved |
| Weather.WeatherService.constructor | src/main/java/pt/ua/tqs/moliceiro/meals/service/WeatherService.java:32-34 | a new service has all counters at zero |
| Weather.WeatherService.GetWeatherForecast | src/main/java/pt/ua/tqs/moliceiro/meals/service/WeatherService.java:45-86 | total rises by exactly 1; far-future: default for (date, location), no store or provider use; hit: the stored forecast, hits + 1; miss: misses + 1, one provider call, the saved forecast stored under (date, location), and the fallback not stored |
| Weather.WeatherService.GetForecast | src/main/java/pt/ua/tqs/moliceiro/meals/service/WeatherService.java:100-131 | a non-empty list gives its first sample converted and tagged with the normalised location, or the default when the conversion throws; a thrown call, no body, no list or an empty list gives the default |
| Weather.WeatherService.GetCacheStats | src/main/java/pt/ua/tqs/moliceiro/meals/service/WeatherService.java:145-152 | the three counters, and hitRate × total = hits when total > 0, or 0 otherwise; the rate is within [0, 1] |
| Weather.MissThenHit | src/main/java/pt/ua/tqs/moliceiro/meals/service/WeatherService.java:145-152 | on a fresh service, a saving miss then the same request returns the same forecast and gives stats (2, 1, 1, 0.5) |

## Left out
- Controllers, the browser scripts and the HTTP status mapping: request shaping outside the
  service layer. This includes the weather controller's defaulting of a missing date and its
  rejection of past dates.
- Spring Data and JPA: the repositories are maps.
  - Ids are supplied by the caller rather than generated.
  - List results are sets, so repository list order is not modelled.
  - A second row with the same (date, location), which would make the lookup throw, cannot be
    represented.
- The `@Cacheable` proxy: the dated lookup's body is modelled as called directly. Behind the
  proxy, a repeated request would not reach the counters.
- `WeatherClient` and its DTOs: the provider is a function from location to reply.
  - Null fields inside a sample (timestamp, main, wind, an individual description) are not
    modelled.
  - `Wind.java` is not part of this model.
- Concurrency: the unsynchronised counters and the read-modify-write of capacity are races when
  requests run in parallel. The model is single-threaded.
- Floating point: temperature, humidity, wind speed and price are copied values and are modelled
  as reals. `hitRate` is real division rather than double rounding.
- Java `int` overflow of capacity, party size and the counters is not modelled.
- Logging.
- Reservation fields outside the service's own use: the entity's generated id and Lombok's
  all-arguments constructor.
- Reservations.ReservationService.CreateReservation: the request entity's meal is its meal id;
  a meal object without an id and a missing meal both read as "Meal is required".
- Reservations.CancelUndoesCreate, Reservations.DeleteUndoesCreate,
  Reservations.MarkUsedAfterCancelReleasesTwice: each is stated for a request the service
  admits, with a fresh code. The refused and duplicate-code paths are covered by
  `CreateReservation`'s own contract.
- Meals.MealService.DeleteMeal, Restaurants.RestaurantService.DeleteRestaurant: deleting a row
  that others still reference is refused, as the required foreign-key columns make the database
  do. Deleting an unknown id is a no-op.
- Weather.EpochDayOf: the `LocalDate` range is checked through `IsDate` where a day is built.
  The timestamp is not further limited to Java's `long` range.
- ReservationModel.ToUpperCase: only ASCII upper-casing is modelled. Java's `toUpperCase`
  depends on the locale and can change the length of non-ASCII text, but the UUID text it is
  applied to is ASCII hexadecimal digits and dashes.
