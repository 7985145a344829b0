/**
 * The reservation lifecycle and its capacity ledger: creating a reservation
 * takes seats from the meal's restaurant; cancelling it, marking it used and
 * deleting it (under conditions) give seats back.
 */
module Reservations {
  import opened Wrappers
  import opened Entities
  import opened ReservationModel
  import opened Persistence

  datatype ReservationError =
    | NameRequired           // IllegalArgumentException
    | InvalidEmail           // IllegalArgumentException
    | InvalidNumberOfPeople  // IllegalArgumentException
    | MealRequired           // IllegalArgumentException
    | MealNotFound           // IllegalArgumentException
    | NotEnoughCapacity      // IllegalArgumentException
    | AlreadyUsed            // IllegalStateException
    | DuplicateCode          // the store's unique constraint on the reservation code
  {
    function Message(): string {
      match this
      case NameRequired => "Customer name is required"
      case InvalidEmail => "Invalid email format"
      case InvalidNumberOfPeople => "Number of people must be greater than 0"
      case MealRequired => "Meal is required"
      case MealNotFound => "Meal not found"
      case NotEnoughCapacity => "Not enough capacity in the restaurant"
      case AlreadyUsed => "Reservation has already been used"
      case DuplicateCode => "Duplicate reservation code"
    }
  }

  // ----- String.trim -----

  function TrimStart(s: string): (t: string)
    ensures |t| > 0 ==> t[0] > ' '
    decreases |s|
  {
    if |s| > 0 && s[0] <= ' ' then TrimStart(s[1..]) else s
  }

  function TrimEnd(s: string): (t: string)
    ensures |t| > 0 ==> t[|t| - 1] > ' '
    decreases |s|
  {
    if |s| > 0 && s[|s| - 1] <= ' ' then TrimEnd(s[..|s| - 1]) else s
  }

  /** String.trim: drops every leading and trailing character up to U+0020. */
  function Trim(s: string): string {
    TrimEnd(TrimStart(s))
  }

  /** Every character is a space or a control character, so trimming leaves nothing. */
  ghost predicate IsBlank(s: string) {
    forall i :: 0 <= i < |s| ==> s[i] <= ' '
  }

  lemma {:induction false} TrimStartEmptyIffBlank(s: string)
    ensures TrimStart(s) == [] <==> IsBlank(s)
    decreases |s|
  {
    if |s| > 0 && s[0] <= ' ' {
      TrimStartEmptyIffBlank(s[1..]);
      assert IsBlank(s) <==> IsBlank(s[1..]) by {
        assert forall i :: 0 < i < |s| ==> s[i] == s[1..][i - 1];
      }
    }
  }

  lemma {:induction false} TrimEndEmptyIffBlank(s: string)
    ensures TrimEnd(s) == [] <==> IsBlank(s)
    decreases |s|
  {
    if |s| > 0 && s[|s| - 1] <= ' ' {
      var p := s[..|s| - 1];
      TrimEndEmptyIffBlank(p);
      assert IsBlank(s) <==> IsBlank(p) by {
        assert forall i :: 0 <= i < |p| ==> s[i] == p[i];
      }
    }
  }

  /** A trimmed string is empty exactly when the string is blank. */
  lemma TrimEmptyIffBlank(s: string)
    ensures Trim(s) == [] <==> IsBlank(s)
  {
    TrimStartEmptyIffBlank(s);
    TrimEndEmptyIffBlank(TrimStart(s));
  }

  // ----- the e-mail pattern ^[A-Za-z0-9+_.-]+@(.+)$ -----

  predicate IsLocalPartChar(c: char) {
    'A' <= c <= 'Z' || 'a' <= c <= 'z' || '0' <= c <= '9' || c == '+' || c == '_' || c == '.' || c == '-'
  }

  /** The characters that `.` does not match in a Java regular expression. */
  predicate IsLineTerminator(c: char) {
    c == '\n' || c == '\r' || c == '\U{0085}' || c == '\U{2028}' || c == '\U{2029}'
  }

  /** The pattern matches the whole string with its '@' at index i. */
  ghost predicate SplitsAt(s: string, i: int) {
    && 0 <= i < |s| - 1
    && s[i] == '@'
    && (forall j :: 0 <= j < i ==> IsLocalPartChar(s[j]))
    && (forall j :: i < j < |s| ==> !IsLineTerminator(s[j]))
  }

  /** What the regular expression accepts: a non-empty local part, '@', a non-empty rest. */
  ghost predicate MatchesEmailPattern(s: string) {
    exists i :: 0 < i && SplitsAt(s, i)
  }

  predicate NoLineTerminator(s: string) {
    forall j :: 0 <= j < |s| ==> !IsLineTerminator(s[j])
  }

  /** Scans the rest of the local part up to the first '@', then the domain. */
  function LocalThenDomain(t: string): bool
    decreases |t|
  {
    if |t| == 0 then false
    else if t[0] == '@' then |t| > 1 && NoLineTerminator(t[1..])
    else IsLocalPartChar(t[0]) && LocalThenDomain(t[1..])
  }

  /** The matcher the service applies to the customer e-mail. */
  function IsValidEmail(s: string): bool {
    |s| > 0 && IsLocalPartChar(s[0]) && LocalThenDomain(s[1..])
  }

  lemma {:induction false} LocalThenDomainSplits(t: string)
    ensures LocalThenDomain(t) <==> exists i :: SplitsAt(t, i)
    decreases |t|
  {
    if |t| > 0 {
      if t[0] == '@' {
        if LocalThenDomain(t) {
          assert SplitsAt(t, 0) by {
            assert forall j :: 0 < j < |t| ==> t[j] == t[1..][j - 1];
          }
        }
        if i :| SplitsAt(t, i) {
          assert i == 0;
          assert forall j :: 0 <= j < |t| - 1 ==> t[1..][j] == t[j + 1];
        }
      } else {
        LocalThenDomainSplits(t[1..]);
        if LocalThenDomain(t) {
          var i :| SplitsAt(t[1..], i);
          assert SplitsAt(t, i + 1) by {
            assert forall j :: 0 < j < |t| ==> t[j] == t[1..][j - 1];
          }
        }
        if i :| SplitsAt(t, i) {
          assert i > 0;
          assert SplitsAt(t[1..], i - 1) by {
            assert forall j :: 0 <= j < |t| - 1 ==> t[1..][j] == t[j + 1];
          }
        }
      }
    }
  }

  /** The matcher accepts exactly the strings the regular expression matches. */
  lemma EmailMatcherCorrect(s: string)
    ensures IsValidEmail(s) <==> MatchesEmailPattern(s)
  {
    if |s| > 0 {
      LocalThenDomainSplits(s[1..]);
      if IsValidEmail(s) {
        var i :| SplitsAt(s[1..], i);
        assert SplitsAt(s, i + 1) by {
          assert forall j :: 0 < j < |s| ==> s[j] == s[1..][j - 1];
        }
      }
      if MatchesEmailPattern(s) {
        var i :| 0 < i && SplitsAt(s, i);
        assert IsLocalPartChar(s[0]);
        assert SplitsAt(s[1..], i - 1) by {
          assert forall j :: 0 <= j < |s| - 1 ==> s[1..][j] == s[j + 1];
        }
      }
    }
  }

  // ----- validation -----

  ghost predicate HasCustomerName(name: Option<string>) {
    name.Some? && !IsBlank(name.value)
  }

  ghost predicate HasValidEmail(email: Option<string>) {
    email.Some? && MatchesEmailPattern(email.value)
  }

  ghost predicate HasPartySize(numberOfPeople: Option<int>) {
    numberOfPeople.Some? && numberOfPeople.value > 0
  }

  lemma NameRule(name: Option<string>)
    ensures (name.None? || Trim(name.value) == []) <==> !HasCustomerName(name)
  {
    if name.Some? { TrimEmptyIffBlank(name.value); }
  }

  lemma EmailRule(email: Option<string>)
    ensures (email.None? || !IsValidEmail(email.value)) <==> !HasValidEmail(email)
  {
    if email.Some? { EmailMatcherCorrect(email.value); }
  }

  /**
   * The first rule the reservation breaks, in the order name, e-mail, party
   * size, meal; None when it breaks none.
   */
  function ValidateReservation(r: Reservation): (e: Option<ReservationError>)
    reads r
    ensures e == None <==>
      HasCustomerName(r.customerName) && HasValidEmail(r.customerEmail) && HasPartySize(r.numberOfPeople) && r.mealId.Some?
    ensures e == Some(NameRequired) <==> !HasCustomerName(r.customerName)
    ensures e == Some(InvalidEmail) <==> HasCustomerName(r.customerName) && !HasValidEmail(r.customerEmail)
    ensures e == Some(InvalidNumberOfPeople) <==>
      HasCustomerName(r.customerName) && HasValidEmail(r.customerEmail) && !HasPartySize(r.numberOfPeople)
    ensures e == Some(MealRequired) <==>
      HasCustomerName(r.customerName) && HasValidEmail(r.customerEmail) && HasPartySize(r.numberOfPeople) && r.mealId.None?
  {
    NameRule(r.customerName);
    EmailRule(r.customerEmail);
    if r.customerName.None? || Trim(r.customerName.value) == [] then Some(NameRequired)
    else if r.customerEmail.None? || !IsValidEmail(r.customerEmail.value) then Some(InvalidEmail)
    else if r.numberOfPeople.None? || r.numberOfPeople.value <= 0 then Some(InvalidNumberOfPeople)
    else if r.mealId.None? then Some(MealRequired)
    else None
  }

  /** The row the store writes for a reservation entity whose fields are all set. */
  function RowOf(r: Reservation): ReservationRow
    reads r
    requires r.reservationCode.Some? && r.mealId.Some? && r.customerName.Some?
    requires r.customerEmail.Some? && r.numberOfPeople.Some? && r.reservationTime.Some?
  {
    ReservationRow(r.reservationCode.value, r.mealId.value, r.customerName.value, r.customerEmail.value,
                   r.numberOfPeople.value, r.reservationTime.value, r.isUsed, r.status)
  }

  class ReservationService {
    const db: Store

    constructor (db: Store)
      ensures this.db == db
    {
      this.db := db;
    }

    // ----- lookups -----

    function GetReservationByCode(code: string): (r: Option<ReservationRow>)
      reads db
      requires db.Valid()
      ensures r.None? <==> code !in db.reservations
      ensures r.Some? ==> r.value.code == code && r.value in GetAllReservations()
    {
      if code in db.reservations then Some(db.reservations[code]) else None
    }

    /** Every stored reservation, each retrievable under its own code. */
    function GetAllReservations(): (rs: set<ReservationRow>)
      reads db
      requires db.Valid()
      ensures forall r :: r in rs <==> r.code in db.reservations && db.reservations[r.code] == r
    {
      set code | code in db.reservations :: db.reservations[code]
    }

    function GetReservationsByMeal(mealId: int): (rs: set<ReservationRow>)
      reads db
      requires db.Valid()
      ensures forall r :: r in rs <==> r in GetAllReservations() && r.mealId == mealId
    {
      set code | code in db.reservations && db.reservations[code].mealId == mealId :: db.reservations[code]
    }

    function GetReservationsByCustomerEmail(email: string): (rs: set<ReservationRow>)
      reads db
      requires db.Valid()
      ensures forall r :: r in rs <==> r in GetAllReservations() && r.customerEmail == email
    {
      set code | code in db.reservations && db.reservations[code].customerEmail == email :: db.reservations[code]
    }

    /**
     * Whether the meal has a reservation not yet used. A cancelled but unused
     * reservation counts.
     */
    function HasActiveReservations(mealId: int): (b: bool)
      reads db
      requires db.Valid()
      ensures b <==> exists r :: r in GetReservationsByMeal(mealId) && !r.isUsed
    {
      exists code :: code in db.reservations && db.reservations[code].mealId == mealId && !db.reservations[code].isUsed
    }

    // ----- lifecycle -----

    /**
     * The first reason creation fails before anything is written: a broken
     * validation rule, then an unknown meal, then too few free seats.
     */
    function AdmissionError(res: Reservation): (e: Option<ReservationError>)
      reads db, res
      requires db.Valid()
      ensures ValidateReservation(res).Some? ==> e == ValidateReservation(res)
      ensures ValidateReservation(res) == None ==> res.mealId.Some? && res.numberOfPeople.Some?
      ensures ValidateReservation(res) == None && res.mealId.value !in db.meals ==> e == Some(MealNotFound)
      ensures ValidateReservation(res) == None && res.mealId.value in db.meals ==>
        (e == None <==> res.numberOfPeople.value <= db.restaurants[db.RestaurantOfMeal(res.mealId.value)].capacity) &&
        (e != None ==> e == Some(NotEnoughCapacity))
    {
      var invalid := ValidateReservation(res);
      if invalid.Some? then invalid
      else if res.mealId.value !in db.meals then Some(MealNotFound)
      else if db.restaurants[db.RestaurantOfMeal(res.mealId.value)].capacity < res.numberOfPeople.value
      then Some(NotEnoughCapacity)
      else None
    }

    /**
     * Validates, resolves the meal, takes the party's seats from the meal's
     * restaurant, then lets the store insert the reservation (its pre-persist
     * hook assigns the code). The seats are written before the insert, so a
     * code the store already holds leaves them taken.
     */
    method CreateReservation(res: Reservation, now: int, uuid: Uuid) returns (result: Result<ReservationRow, ReservationError>)
      requires db.Valid()
      modifies db, res
      ensures db.Valid()
      ensures old(db.CapacitiesNonNegative()) ==> db.CapacitiesNonNegative()
      ensures old(AdmissionError(res)).Some? ==>
        result == Err(old(AdmissionError(res)).value) && unchanged(db) && unchanged(res)
      ensures old(AdmissionError(res)) == None ==>
        && db.restaurants == AdjustCapacity(old(db.restaurants), old(db.RestaurantOfMeal(res.mealId.value)),
                                            -old(res.numberOfPeople.value))
        && db.meals == old(db.meals) && db.forecasts == old(db.forecasts)
      ensures old(AdmissionError(res)) == None ==>
        && res.reservationTime == Some(now) && res.status == Active
        && res.reservationCode == Some(CodeFromUuid(uuid))
        && res.mealId == old(res.mealId) && res.customerName == old(res.customerName)
        && res.customerEmail == old(res.customerEmail) && res.numberOfPeople == old(res.numberOfPeople)
        && res.isUsed == old(res.isUsed)
      ensures old(AdmissionError(res)) == None && CodeFromUuid(uuid) in old(db.reservations) ==>
        result == Err(DuplicateCode) && db.reservations == old(db.reservations)
      ensures old(AdmissionError(res)) == None && CodeFromUuid(uuid) !in old(db.reservations) ==>
        && result == Ok(RowOf(res))
        && result.value.code == CodeFromUuid(uuid) && result.value.status == Active
        && result.value.reservationTime == now && result.value.isUsed == old(res.isUsed)
        && db.reservations == old(db.reservations)[result.value.code := result.value]
    {
      var refused := AdmissionError(res);
      if refused.Some? {
        return Err(refused.value);
      }
      result := Admit(res, now, uuid);
    }

    /** The writes of an admitted reservation: seats first, then the insert. */
    method Admit(res: Reservation, now: int, uuid: Uuid) returns (result: Result<ReservationRow, ReservationError>)
      requires db.Valid()
      requires res.mealId.Some? && res.mealId.value in db.meals
      requires res.customerName.Some? && res.customerEmail.Some?
      requires res.numberOfPeople.Some? && res.numberOfPeople.value > 0
      modifies db, res
      ensures db.Valid()
      ensures old(db.CapacitiesNonNegative()) &&
              old(db.restaurants[db.RestaurantOfMeal(res.mealId.value)].capacity) >= old(res.numberOfPeople.value)
              ==> db.CapacitiesNonNegative()
      ensures db.restaurants == AdjustCapacity(old(db.restaurants), old(db.RestaurantOfMeal(res.mealId.value)),
                                               -old(res.numberOfPeople.value))
      ensures db.meals == old(db.meals) && db.forecasts == old(db.forecasts)
      ensures res.reservationTime == Some(now) && res.status == Active
      ensures res.reservationCode == Some(CodeFromUuid(uuid))
      ensures res.mealId == old(res.mealId) && res.customerName == old(res.customerName)
      ensures res.customerEmail == old(res.customerEmail) && res.numberOfPeople == old(res.numberOfPeople)
      ensures res.isUsed == old(res.isUsed)
      ensures CodeFromUuid(uuid) in old(db.reservations) ==>
        result == Err(DuplicateCode) && db.reservations == old(db.reservations)
      ensures CodeFromUuid(uuid) !in old(db.reservations) ==>
        && result == Ok(RowOf(res))
        && db.reservations == old(db.reservations)[CodeFromUuid(uuid) := RowOf(res)]
    {
      var restaurantId := db.RestaurantOfMeal(res.mealId.value);
      res.reservationTime := Some(now);
      res.status := Active;
      // the pre-persist hook assigns the code before the row reaches the store
      res.GenerateReservationCode(uuid);
      var row := RowOf(res);
      var inserted := db.Reserve(restaurantId, row);
      if !inserted {
        return Err(DuplicateCode);
      }
      result := Ok(row);
    }

    /**
     * Cancels an unused reservation, giving its seats back once; cancelling a
     * cancelled one changes nothing.
     */
    method CancelReservation(code: string) returns (result: Result<Option<ReservationRow>, ReservationError>)
      requires db.Valid()
      modifies db
      ensures db.Valid()
      ensures old(db.CapacitiesNonNegative()) ==> db.CapacitiesNonNegative()
      ensures code !in old(db.reservations) ==> result == Ok(None) && unchanged(db)
      ensures code in old(db.reservations) ==>
        var row := old(db.reservations[code]);
        if row.isUsed then
          result == Err(AlreadyUsed) && unchanged(db)
        else if row.status == Canceled then
          result == Ok(Some(row)) && unchanged(db)
        else
          && result == Ok(Some(row.(status := Canceled)))
          && db.restaurants == AdjustCapacity(old(db.restaurants), old(db.RestaurantOf(code)), row.numberOfPeople)
          && db.reservations == old(db.reservations)[code := row.(status := Canceled)]
          && db.meals == old(db.meals) && db.forecasts == old(db.forecasts)
    {
      if code !in db.reservations {
        return Ok(None);
      }
      var row := db.reservations[code];
      if row.isUsed {
        return Err(AlreadyUsed);
      }
      if row.status == Canceled {
        // saving the unchanged row writes nothing new
        return Ok(Some(row));
      }
      db.ReturnSeats(db.RestaurantOf(code), row.numberOfPeople);
      row := row.(status := Canceled);
      db.UpdateReservation(row);
      result := Ok(Some(row));
    }

    /**
     * Marks an unused reservation used and COMPLETED and gives its seats back.
     * The status is not checked: a cancelled reservation, whose seats were
     * already given back, gives them back again.
     */
    method MarkReservationAsUsed(code: string) returns (result: Result<Option<ReservationRow>, ReservationError>)
      requires db.Valid()
      modifies db
      ensures db.Valid()
      ensures old(db.CapacitiesNonNegative()) ==> db.CapacitiesNonNegative()
      ensures code !in old(db.reservations) ==> result == Ok(None) && unchanged(db)
      ensures code in old(db.reservations) ==>
        var row := old(db.reservations[code]);
        if row.isUsed then
          result == Err(AlreadyUsed) && unchanged(db)
        else
          && result == Ok(Some(row.(isUsed := true, status := Completed)))
          && db.restaurants == AdjustCapacity(old(db.restaurants), old(db.RestaurantOf(code)), row.numberOfPeople)
          && db.reservations == old(db.reservations)[code := row.(isUsed := true, status := Completed)]
          && db.meals == old(db.meals) && db.forecasts == old(db.forecasts)
    {
      if code !in db.reservations {
        return Ok(None);
      }
      var row := db.reservations[code];
      if row.isUsed {
        return Err(AlreadyUsed);
      }
      db.ReturnSeats(db.RestaurantOf(code), row.numberOfPeople);
      row := row.(isUsed := true, status := Completed);
      db.UpdateReservation(row);
      result := Ok(Some(row));
    }

    /**
     * Deletes a reservation: its seats come back only if it is unused and not
     * cancelled, and a cancelled reservation is kept and returned as it is.
     */
    method DeleteReservation(code: string) returns (result: Option<ReservationRow>)
      requires db.Valid()
      modifies db
      ensures db.Valid()
      ensures old(db.CapacitiesNonNegative()) ==> db.CapacitiesNonNegative()
      ensures code !in old(db.reservations) ==> result == None && unchanged(db)
      ensures code in old(db.reservations) ==>
        var row := old(db.reservations[code]);
        && result == Some(row)
        && db.restaurants == (if !row.isUsed && row.status != Canceled
                              then AdjustCapacity(old(db.restaurants), old(db.RestaurantOf(code)), row.numberOfPeople)
                              else old(db.restaurants))
        && db.reservations == (if row.status != Canceled then old(db.reservations) - {code}
                               else old(db.reservations))
        && db.meals == old(db.meals) && db.forecasts == old(db.forecasts)
    {
      if code !in db.reservations {
        return None;
      }
      var row := db.reservations[code];
      if !row.isUsed && row.status != Canceled {
        db.ReturnSeats(db.RestaurantOf(code), row.numberOfPeople);
      }
      if row.status != Canceled {
        db.RemoveReservation(code);
      }
      result := Some(row);
    }
  }

  // ----- lifecycle sequences -----

  /** Creating a reservation and then cancelling it leaves every restaurant's free seats as they were. */
  method CancelUndoesCreate(svc: ReservationService, res: Reservation, now: int, uuid: Uuid)
    returns (created: Result<ReservationRow, ReservationError>, canceled: Result<Option<ReservationRow>, ReservationError>)
    requires svc.db.Valid() && !res.isUsed
    requires svc.AdmissionError(res) == None && CodeFromUuid(uuid) !in svc.db.reservations
    modifies svc.db, res
    ensures svc.db.Valid()
    ensures created.Ok? && canceled == Ok(Some(created.value.(status := Canceled)))
    ensures svc.db.restaurants == old(svc.db.restaurants)
  {
    ghost var before := svc.db.restaurants;
    ghost var restaurantId := svc.db.RestaurantOfMeal(res.mealId.value);
    created := svc.CreateReservation(res, now, uuid);
    var row := created.value;
    assert svc.db.RestaurantOf(row.code) == restaurantId;
    ghost var taken := svc.db.restaurants;
    assert taken == AdjustCapacity(before, restaurantId, -row.numberOfPeople);
    canceled := svc.CancelReservation(row.code);
    assert svc.db.restaurants == AdjustCapacity(taken, restaurantId, row.numberOfPeople);
    AdjustCapacityInverse(before, restaurantId, -row.numberOfPeople, row.numberOfPeople);
  }

  /**
   * Creating a reservation and then deleting it while unused leaves the
   * restaurants and the reservations as they were.
   */
  method DeleteUndoesCreate(svc: ReservationService, res: Reservation, now: int, uuid: Uuid)
    returns (created: Result<ReservationRow, ReservationError>, deleted: Option<ReservationRow>)
    requires svc.db.Valid() && !res.isUsed
    requires svc.AdmissionError(res) == None && CodeFromUuid(uuid) !in svc.db.reservations
    modifies svc.db, res
    ensures svc.db.Valid()
    ensures created.Ok? && deleted == Some(created.value)
    ensures svc.db.restaurants == old(svc.db.restaurants)
    ensures svc.db.reservations == old(svc.db.reservations)
  {
    ghost var before := svc.db.restaurants;
    ghost var stored := svc.db.reservations;
    ghost var restaurantId := svc.db.RestaurantOfMeal(res.mealId.value);
    created := svc.CreateReservation(res, now, uuid);
    var row := created.value;
    assert svc.db.RestaurantOf(row.code) == restaurantId;
    ghost var taken := svc.db.restaurants;
    assert taken == AdjustCapacity(before, restaurantId, -row.numberOfPeople);
    assert svc.db.reservations == stored[row.code := row];
    deleted := svc.DeleteReservation(row.code);
    assert svc.db.restaurants == AdjustCapacity(taken, restaurantId, row.numberOfPeople);
    AdjustCapacityInverse(before, restaurantId, -row.numberOfPeople, row.numberOfPeople);
    assert stored[row.code := row] - {row.code} == stored;
  }

  /**
   * Marking a cancelled reservation used gives its seats back a second time:
   * after create, cancel and mark-as-used the restaurant has n more free
   * seats than before the reservation was made.
   */
  method MarkUsedAfterCancelReleasesTwice(svc: ReservationService, res: Reservation, now: int, uuid: Uuid)
    returns (created: Result<ReservationRow, ReservationError>, used: Result<Option<ReservationRow>, ReservationError>)
    requires svc.db.Valid() && !res.isUsed
    requires svc.AdmissionError(res) == None && CodeFromUuid(uuid) !in svc.db.reservations
    modifies svc.db, res
    ensures svc.db.Valid()
    ensures created.Ok? && used == Ok(Some(created.value.(isUsed := true, status := Completed)))
    ensures svc.db.restaurants == AdjustCapacity(old(svc.db.restaurants), old(svc.db.RestaurantOfMeal(res.mealId.value)),
                                                 created.value.numberOfPeople)
  {
    ghost var before := svc.db.restaurants;
    ghost var restaurantId := svc.db.RestaurantOfMeal(res.mealId.value);
    created := svc.CreateReservation(res, now, uuid);
    var row := created.value;
    assert svc.db.RestaurantOf(row.code) == restaurantId;
    ghost var taken := svc.db.restaurants;
    assert taken == AdjustCapacity(before, restaurantId, -row.numberOfPeople);
    var canceled := svc.CancelReservation(row.code);
    assert svc.db.restaurants == AdjustCapacity(taken, restaurantId, row.numberOfPeople);
    AdjustCapacityInverse(before, restaurantId, -row.numberOfPeople, row.numberOfPeople);
    assert svc.db.restaurants == before;
    assert svc.db.RestaurantOf(row.code) == restaurantId;
    used := svc.MarkReservationAsUsed(row.code);
    assert svc.db.restaurants == AdjustCapacity(before, restaurantId, row.numberOfPeople);
  }
}
