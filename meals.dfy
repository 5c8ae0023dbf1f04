/** Meal records (internal/service/meal_record_service.go): creation guarded by a
    read-then-insert uniqueness check on (user, date, meal type), and reads and deletes
    guarded by ownership. The service does not touch food records; the store's foreign key
    from food_records refuses the delete of a meal record that still has food records. */
module Meals {
  import opened Outcomes
  import opened Model
  import opened Repository

  datatype CreateMealRecordRequest = CreateMealRecordRequest(date: string, mealType: MealType)

  /** The uniqueness the creation check aims at: at most one meal record per slot. */
  ghost predicate OneMealPerSlot(meals: map<Id, MealRecord>)
  {
    forall a, b ::
      (a in meals && b in meals && SameSlot(meals[a], meals[b].userId, meals[b].date, meals[b].mealType)) ==> a == b
  }

  ghost predicate SlotTaken(meals: map<Id, MealRecord>, userId: Id, date: CalendarDate, mealType: MealType)
  {
    exists id :: id in meals && SameSlot(meals[id], userId, date, mealType)
  }

  /** The ownership guard: look the meal record up by id, then compare its owner with the
      caller; `denied` is the message of the operation asking. */
  function OwnedMeal(meals: map<Id, MealRecord>, userId: Id, mealId: Id, denied: Error)
    : (r: Result<MealRecord, Error>)
    ensures r.Ok? <==> mealId in meals && meals[mealId].userId == userId
    ensures r.Ok? ==> r.value == meals[mealId]
    ensures mealId !in meals ==> r == Err(MealRecordNotFound)
    ensures mealId in meals && meals[mealId].userId != userId ==> r == Err(denied)
  {
    if mealId !in meals then Err(MealRecordNotFound)
    else if meals[mealId].userId != userId then Err(denied)
    else Ok(meals[mealId])
  }

  /** CreateMealRecord: user, then date, then slot, then insert under the fresh id. A meal
      type outside int4 makes the slot query fail, which reads as a free slot, and then
      makes the insert fail. */
  ghost function CreateMealOutcome(
    users: map<Id, User>, meals: map<Id, MealRecord>, userId: Id, req: CreateMealRecordRequest,
    parseDate: string -> Option<CalendarDate>, newId: Id)
    : (out: (Result<MealRecord, Error>, map<Id, MealRecord>))
    ensures out.0.Err? ==> out.1 == meals
    ensures out.0.Ok? ==> var m := out.0.value;
      m.id == newId && newId !in meals && out.1 == meals[newId := m] && m.userId == userId &&
      Int4(m.mealType) && !SlotTaken(meals, userId, m.date, m.mealType)
  {
    if userId !in users then (Err(UserNotFound), meals)
    else
      match parseDate(req.date)
      case None => (Err(InvalidDateFormat), meals)
      case Some(date) =>
        if Int4(req.mealType) && SlotTaken(meals, userId, date, req.mealType) then
          (Err(MealRecordExists), meals)
        else
          var m := MealRecord(newId, userId, date, req.mealType);
          if !Int4(req.mealType) || newId in meals then (Err(CreateMealRecordFailed), meals)
          else (Ok(m), meals[newId := m])
  }

  /** DeleteMealRecord: the owner's record is removed unless food records still reference
      it; nothing else is removed. */
  ghost function DeleteMealOutcome(
    meals: map<Id, MealRecord>, foodRecords: map<Id, FoodRecord>, userId: Id, mealId: Id)
    : (out: (Option<Error>, map<Id, MealRecord>))
    ensures out.0.Some? ==> out.1 == meals
    ensures out.0.None? ==>
      mealId in meals && meals[mealId].userId == userId &&
      !HasFoodRecords(foodRecords, mealId) && out.1 == meals - {mealId}
  {
    match OwnedMeal(meals, userId, mealId, MealDeleteDenied)
    case Err(e) => (Some(e), meals)
    case Ok(_) =>
      if HasFoodRecords(foodRecords, mealId) then (Some(DeleteMealRecordFailed), meals)
      else (None, meals - {mealId})
  }

  class MealRecordService {
    const mealRepo: MealRecordRepository
    const userRepo: UserRepository
    /** Not used by the service's code: the food-record table whose foreign key the store
        checks when a meal record is deleted. */
    const foodRecordRepo: FoodRecordRepository

    constructor (mealRepo: MealRecordRepository, userRepo: UserRepository,
                 foodRecordRepo: FoodRecordRepository)
      ensures this.mealRepo == mealRepo && this.userRepo == userRepo
      ensures this.foodRecordRepo == foodRecordRepo
    {
      this.mealRepo := mealRepo;
      this.userRepo := userRepo;
      this.foodRecordRepo := foodRecordRepo;
    }

    /** `parseDate` stands for time.Parse with layout YYYY-MM-DD; `newId` for the store's
        generated UUID. */
    method CreateMealRecord(
      userId: Id, req: CreateMealRecordRequest, parseDate: string -> Option<CalendarDate>, newId: Id)
      returns (r: Result<MealRecord, Error>)
      requires mealRepo.Valid()
      modifies mealRepo
      ensures mealRepo.Valid()
      ensures (r, mealRepo.records) ==
        CreateMealOutcome(userRepo.users, old(mealRepo.records), userId, req, parseDate, newId)
    {
      var user := userRepo.FindByID(userId);
      if user.None? {
        return Err(UserNotFound);
      }
      var date := parseDate(req.date);
      if date.None? {
        return Err(InvalidDateFormat);
      }
      var existing := mealRepo.FindByUserIDDateAndType(userId, date.value, req.mealType);
      if existing.Some? {
        return Err(MealRecordExists);
      }
      var meal := MealRecord(newId, userId, date.value, req.mealType);
      var err := mealRepo.Create(meal);
      if err.Some? {
        return Err(CreateMealRecordFailed);
      }
      return Ok(meal);
    }

    method GetMealRecord(userId: Id, mealId: Id) returns (r: Result<MealRecord, Error>)
      ensures r == OwnedMeal(mealRepo.records, userId, mealId, MealAccessDenied)
    {
      var meal := mealRepo.FindByID(mealId);
      if meal.None? {
        return Err(MealRecordNotFound);
      }
      if meal.value.userId != userId {
        return Err(MealAccessDenied);
      }
      return Ok(meal.value);
    }

    /** The user's meal records of the day, ordered by meal type. */
    method GetMealRecordsByDate(userId: Id, date: CalendarDate) returns (r: Result<seq<MealRecord>, Error>)
      requires mealRepo.Valid()
      ensures r.Err? <==> userId !in userRepo.users
      ensures r.Err? ==> r.error == UserNotFound
      ensures r.Ok? ==> (forall m :: m in r.value <==> (m in mealRepo.records.Values && m.userId == userId &&
                                                          m.date == date))
      ensures r.Ok? ==> Distinct(r.value) && SortedByMealType(r.value)
    {
      var user := userRepo.FindByID(userId);
      if user.None? {
        return Err(UserNotFound);
      }
      var found := mealRepo.FindByUserIDAndDate(userId, date);
      return Ok(found);
    }

    method DeleteMealRecord(userId: Id, mealId: Id) returns (e: Option<Error>)
      requires mealRepo.Valid()
      modifies mealRepo
      ensures mealRepo.Valid()
      ensures (e, mealRepo.records) ==
        DeleteMealOutcome(old(mealRepo.records), foodRecordRepo.records, userId, mealId)
    {
      var meal := mealRepo.FindByID(mealId);
      if meal.None? {
        return Some(MealRecordNotFound);
      }
      if meal.value.userId != userId {
        return Some(MealDeleteDenied);
      }
      var err := mealRepo.Delete(mealId, foodRecordRepo.records);
      e := if err.Some? then Some(DeleteMealRecordFailed) else None;
    }
  }

  // ---------------------------------------------------------------- properties

  /** The checks of CreateMealRecord, in order; each failure inserts nothing. */
  lemma CreateMealCheckOrder(
    users: map<Id, User>, meals: map<Id, MealRecord>, userId: Id, req: CreateMealRecordRequest,
    parseDate: string -> Option<CalendarDate>, newId: Id)
    ensures var (r, after) := CreateMealOutcome(users, meals, userId, req, parseDate, newId);
      (r.Err? ==> after == meals) &&
      (userId !in users ==> r == Err(UserNotFound)) &&
      (userId in users && parseDate(req.date).None? ==> r == Err(InvalidDateFormat)) &&
      ((userId in users && parseDate(req.date).Some? && Int4(req.mealType) &&
        SlotTaken(meals, userId, parseDate(req.date).value, req.mealType)) ==> r == Err(MealRecordExists)) &&
      (userId in users && parseDate(req.date).Some? && !Int4(req.mealType) ==> r == Err(CreateMealRecordFailed))
  {
  }

  /** A successful creation inserts exactly one record, under a fresh id, holding the
      caller's id, the parsed date and the meal type. */
  lemma CreateMealInsertsOne(
    users: map<Id, User>, meals: map<Id, MealRecord>, userId: Id, req: CreateMealRecordRequest,
    parseDate: string -> Option<CalendarDate>, newId: Id)
    requires CreateMealOutcome(users, meals, userId, req, parseDate, newId).0.Ok?
    ensures var (r, after) := CreateMealOutcome(users, meals, userId, req, parseDate, newId);
      userId in users && parseDate(req.date).Some? && Int4(req.mealType) &&
      r.value == MealRecord(newId, userId, parseDate(req.date).value, req.mealType) &&
      newId !in meals && after == meals[newId := r.value] && |after| == |meals| + 1 &&
      !SlotTaken(meals, userId, r.value.date, r.value.mealType)
  {
  }

  /** Inserting a record under a fresh id into a free slot keeps slots unique. */
  lemma InsertIntoFreeSlot(meals: map<Id, MealRecord>, m: MealRecord)
    requires OneMealPerSlot(meals)
    requires m.id !in meals && !SlotTaken(meals, m.userId, m.date, m.mealType)
    ensures OneMealPerSlot(meals[m.id := m])
  {
    var after := meals[m.id := m];
    forall a, b | a in after && b in after && SameSlot(after[a], after[b].userId, after[b].date, after[b].mealType)
      ensures a == b
    {
      if a == m.id && b != m.id {
        assert SameSlot(meals[b], m.userId, m.date, m.mealType);
      }
    }
  }

  /** Sequential creations and deletions keep at most one meal record per slot. */
  lemma ServiceKeepsOneMealPerSlot(
    users: map<Id, User>, meals: map<Id, MealRecord>, userId: Id, req: CreateMealRecordRequest,
    parseDate: string -> Option<CalendarDate>, newId: Id, foodRecords: map<Id, FoodRecord>, mealId: Id)
    requires OneMealPerSlot(meals)
    ensures OneMealPerSlot(CreateMealOutcome(users, meals, userId, req, parseDate, newId).1)
    ensures OneMealPerSlot(DeleteMealOutcome(meals, foodRecords, userId, mealId).1)
  {
    if userId in users && parseDate(req.date).Some? {
      var m := MealRecord(newId, userId, parseDate(req.date).value, req.mealType);
      if newId !in meals && !SlotTaken(meals, userId, m.date, m.mealType) {
        InsertIntoFreeSlot(meals, m);
      }
    }
  }

  /** Only the owner can delete, and only a meal record without food records; a successful
      delete removes exactly that record. */
  lemma DeleteMealOnlyByOwner(
    meals: map<Id, MealRecord>, foodRecords: map<Id, FoodRecord>, userId: Id, mealId: Id)
    ensures var (e, after) := DeleteMealOutcome(meals, foodRecords, userId, mealId);
      (e.None? <==> mealId in meals && meals[mealId].userId == userId &&
                    !HasFoodRecords(foodRecords, mealId)) &&
      (e.None? ==> after.Keys == meals.Keys - {mealId} &&
                   forall id :: id in after ==> after[id] == meals[id]) &&
      (e.Some? ==> after == meals) &&
      (mealId !in meals ==> e == Some(MealRecordNotFound)) &&
      (mealId in meals && meals[mealId].userId != userId ==> e == Some(MealDeleteDenied)) &&
      (mealId in meals && meals[mealId].userId == userId && HasFoodRecords(foodRecords, mealId) ==>
         e == Some(DeleteMealRecordFailed))
  {
  }
}
