/** Food records (internal/service/food_record_service.go): a quantity of a food eaten in
    one meal, with the intake scaled from the food's per-100 reference values when the
    record is created or its quantity updated. Every access goes through the meal record's
    owner. */
module FoodRecords {
  import opened Outcomes
  import opened Model
  import opened Repository
  import opened Meals

  datatype CreateFoodRecordRequest = CreateFoodRecordRequest(
    mealRecordId: Id, foodId: Id, quantity: real, unit: string)

  /** The intake of `quantity` units of a food whose reference values are per 100 units. */
  function Scale(per100: Nutrients, quantity: real): (r: Nutrients)
    ensures 100.0 * r.calories == quantity * per100.calories
    ensures 100.0 * r.protein == quantity * per100.protein
    ensures 100.0 * r.carbohydrates == quantity * per100.carbohydrates
    ensures 100.0 * r.fat == quantity * per100.fat
  {
    var k := quantity / 100.0;
    Nutrients(k * per100.calories, k * per100.protein, k * per100.carbohydrates, k * per100.fat)
  }

  function Add(a: Nutrients, b: Nutrients): Nutrients
  {
    Nutrients(a.calories + b.calories, a.protein + b.protein,
              a.carbohydrates + b.carbohydrates, a.fat + b.fat)
  }

  /** Stored intakes agree with the stored quantity and the food's reference values. */
  ghost predicate IntakeConsistent(records: map<Id, FoodRecord>, foods: map<Id, Food>)
  {
    forall id :: id in records && records[id].foodId in foods ==>
      records[id].intake == Scale(foods[records[id].foodId].per100, records[id].quantity)
  }

  /** Ownership of a food record is ownership of its meal record: the food record, then its
      meal record, then the meal's owner. */
  function OwnedFoodRecord(
    records: map<Id, FoodRecord>, meals: map<Id, MealRecord>, userId: Id, recordId: Id, denied: Error)
    : (r: Result<FoodRecord, Error>)
    ensures r.Ok? <==> (recordId in records && records[recordId].mealRecordId in meals &&
                        meals[records[recordId].mealRecordId].userId == userId)
    ensures r.Ok? ==> r.value == records[recordId]
    ensures recordId !in records ==> r == Err(FoodRecordNotFound)
    ensures (recordId in records && records[recordId].mealRecordId !in meals) ==> r == Err(MealRecordNotFound)
    ensures (recordId in records && records[recordId].mealRecordId in meals &&
             meals[records[recordId].mealRecordId].userId != userId) ==> r == Err(denied)
  {
    if recordId !in records then Err(FoodRecordNotFound)
    else
      match OwnedMeal(meals, userId, records[recordId].mealRecordId, denied)
      case Err(e) => Err(e)
      case Ok(_) => Ok(records[recordId])
  }

  /** CreateFoodRecord: user, meal record and its owner, food; then insert under the fresh
      id with the food's name and the scaled intake. The insert fails when the name or the
      unit is too long for its column; its foreign keys hold, as both rows were just read. */
  function CreateFoodOutcome(
    users: map<Id, User>, meals: map<Id, MealRecord>, foods: map<Id, Food>,
    records: map<Id, FoodRecord>, userId: Id, req: CreateFoodRecordRequest, newId: Id)
    : (out: (Result<FoodRecord, Error>, map<Id, FoodRecord>))
    ensures out.0.Err? ==> out.1 == records
    ensures out.0.Ok? ==> var rec := out.0.value;
      rec.id == newId && newId !in records && out.1 == records[newId := rec] &&
      rec.mealRecordId in meals && meals[rec.mealRecordId].userId == userId && rec.foodId in foods &&
      FoodRecordFits(rec)
  {
    if userId !in users then (Err(UserNotFound), records)
    else
      match OwnedMeal(meals, userId, req.mealRecordId, MealAccessDenied)
      case Err(e) => (Err(e), records)
      case Ok(_) =>
        if req.foodId !in foods then (Err(FoodNotFound), records)
        else
          var food := foods[req.foodId];
          var rec := FoodRecord(newId, req.mealRecordId, req.foodId, food.name, req.quantity, req.unit,
                                Scale(food.per100, req.quantity));
          if !FoodRecordFits(rec) || newId in records then (Err(CreateFoodRecordFailed), records)
          else (Ok(rec), records[newId := rec])
  }

  /** UpdateFoodRecord: only the quantity changes, and the intake is recomputed from the
      food's current reference values. */
  function UpdateFoodOutcome(
    meals: map<Id, MealRecord>, foods: map<Id, Food>, records: map<Id, FoodRecord>,
    userId: Id, recordId: Id, quantity: real)
    : (out: (Result<FoodRecord, Error>, map<Id, FoodRecord>))
    ensures out.0.Err? ==> out.1 == records
    ensures out.0.Ok? ==> var rec := out.0.value;
      recordId in records && rec.id in records && out.1 == records[rec.id := rec] &&
      rec.quantity == quantity && rec.foodId in foods &&
      rec.intake == Scale(foods[rec.foodId].per100, quantity)
  {
    match OwnedFoodRecord(records, meals, userId, recordId, FoodRecordAccessDenied)
    case Err(e) => (Err(e), records)
    case Ok(rec) =>
      if rec.foodId !in foods then (Err(FoodNotFound), records)
      else
        var updated := rec.(quantity := quantity, intake := Scale(foods[rec.foodId].per100, quantity));
        if updated.id !in records || !FoodRecordFits(updated) then (Err(UpdateFoodRecordFailed), records)
        else (Ok(updated), records[updated.id := updated])
  }

  function DeleteFoodOutcome(
    meals: map<Id, MealRecord>, records: map<Id, FoodRecord>, userId: Id, recordId: Id)
    : (out: (Option<Error>, map<Id, FoodRecord>))
    ensures out.0.None? <==> OwnedFoodRecord(records, meals, userId, recordId, FoodRecordDeleteDenied).Ok?
    ensures out.0.Some? ==> out.1 == records
    ensures out.0.None? ==> recordId in records && out.1 == records - {recordId}
  {
    match OwnedFoodRecord(records, meals, userId, recordId, FoodRecordDeleteDenied)
    case Err(e) => (Some(e), records)
    case Ok(_) => (None, records - {recordId})
  }

  class FoodRecordService {
    const foodRecordRepo: FoodRecordRepository
    const mealRepo: MealRecordRepository
    const userRepo: UserRepository
    const foodRepo: FoodRepository

    constructor (foodRecordRepo: FoodRecordRepository, mealRepo: MealRecordRepository,
                 userRepo: UserRepository, foodRepo: FoodRepository)
      ensures this.foodRecordRepo == foodRecordRepo && this.mealRepo == mealRepo
      ensures this.userRepo == userRepo && this.foodRepo == foodRepo
    {
      this.foodRecordRepo := foodRecordRepo;
      this.mealRepo := mealRepo;
      this.userRepo := userRepo;
      this.foodRepo := foodRepo;
    }

    /** `newId` stands for the store's generated UUID. */
    method CreateFoodRecord(userId: Id, req: CreateFoodRecordRequest, newId: Id)
      returns (r: Result<FoodRecord, Error>)
      requires foodRecordRepo.Valid()
      modifies foodRecordRepo
      ensures foodRecordRepo.Valid()
      ensures (r, foodRecordRepo.records) ==
        CreateFoodOutcome(userRepo.users, mealRepo.records, foodRepo.foods, old(foodRecordRepo.records),
                          userId, req, newId)
    {
      var user := userRepo.FindByID(userId);
      if user.None? {
        return Err(UserNotFound);
      }
      var meal := mealRepo.FindByID(req.mealRecordId);
      if meal.None? {
        return Err(MealRecordNotFound);
      }
      if meal.value.userId != userId {
        return Err(MealAccessDenied);
      }
      var food := foodRepo.FindByID(req.foodId);
      if food.None? {
        return Err(FoodNotFound);
      }
      var rec := FoodRecord(newId, req.mealRecordId, req.foodId, food.value.name, req.quantity, req.unit,
                            Scale(food.value.per100, req.quantity));
      var err := foodRecordRepo.Create(rec, mealRepo.records, foodRepo.foods);
      if err.Some? {
        return Err(CreateFoodRecordFailed);
      }
      return Ok(rec);
    }

    method UpdateFoodRecord(userId: Id, recordId: Id, quantity: real)
      returns (r: Result<FoodRecord, Error>)
      requires foodRecordRepo.Valid()
      modifies foodRecordRepo
      ensures foodRecordRepo.Valid()
      ensures (r, foodRecordRepo.records) ==
        UpdateFoodOutcome(mealRepo.records, foodRepo.foods, old(foodRecordRepo.records), userId, recordId, quantity)
    {
      var rec := foodRecordRepo.FindByID(recordId);
      if rec.None? {
        return Err(FoodRecordNotFound);
      }
      var meal := mealRepo.FindByID(rec.value.mealRecordId);
      if meal.None? {
        return Err(MealRecordNotFound);
      }
      if meal.value.userId != userId {
        return Err(FoodRecordAccessDenied);
      }
      var food := foodRepo.FindByID(rec.value.foodId);
      if food.None? {
        return Err(FoodNotFound);
      }
      var updated := rec.value.(quantity := quantity, intake := Scale(food.value.per100, quantity));
      var err := foodRecordRepo.Update(updated);
      r := if err.Some? then Err(UpdateFoodRecordFailed) else Ok(updated);
    }

    method GetFoodRecord(userId: Id, recordId: Id) returns (r: Result<FoodRecord, Error>)
      ensures r == OwnedFoodRecord(foodRecordRepo.records, mealRepo.records, userId, recordId,
                                   FoodRecordAccessDenied)
    {
      var rec := foodRecordRepo.FindByID(recordId);
      if rec.None? {
        return Err(FoodRecordNotFound);
      }
      var meal := mealRepo.FindByID(rec.value.mealRecordId);
      if meal.None? {
        return Err(MealRecordNotFound);
      }
      if meal.value.userId != userId {
        return Err(FoodRecordAccessDenied);
      }
      return Ok(rec.value);
    }

    /** The food records of one of the caller's meals. */
    method GetFoodRecordsByMeal(userId: Id, mealId: Id) returns (r: Result<seq<FoodRecord>, Error>)
      requires foodRecordRepo.Valid()
      ensures var guard := OwnedMeal(mealRepo.records, userId, mealId, MealAccessDenied);
        (r.Err? <==> guard.Err?) && (r.Err? ==> r.error == guard.error)
      ensures r.Ok? ==> (forall x :: x in r.value <==> (x in foodRecordRepo.records.Values &&
                                                          x.mealRecordId == mealId))
      ensures r.Ok? ==> Distinct(r.value)
    {
      var meal := mealRepo.FindByID(mealId);
      if meal.None? {
        return Err(MealRecordNotFound);
      }
      if meal.value.userId != userId {
        return Err(MealAccessDenied);
      }
      var found := foodRecordRepo.FindByMealRecordID(mealId);
      return Ok(found);
    }

    /** The food records of all the caller's meals on one calendar date. */
    method GetFoodRecordsByDate(userId: Id, date: CalendarDate) returns (r: Result<seq<FoodRecord>, Error>)
      requires foodRecordRepo.Valid()
      ensures r.Err? <==> userId !in userRepo.users
      ensures r.Err? ==> r.error == UserNotFound
      ensures r.Ok? ==> (forall x :: x in r.value <==>
        (x in foodRecordRepo.records.Values && x.mealRecordId in mealRepo.records &&
         mealRepo.records[x.mealRecordId].userId == userId && mealRepo.records[x.mealRecordId].date == date))
      ensures r.Ok? ==> Distinct(r.value)
    {
      var user := userRepo.FindByID(userId);
      if user.None? {
        return Err(UserNotFound);
      }
      var found := foodRecordRepo.FindByUserIDAndDate(userId, date, mealRepo);
      return Ok(found);
    }

    method DeleteFoodRecord(userId: Id, recordId: Id) returns (e: Option<Error>)
      requires foodRecordRepo.Valid()
      modifies foodRecordRepo
      ensures foodRecordRepo.Valid()
      ensures (e, foodRecordRepo.records) ==
        DeleteFoodOutcome(mealRepo.records, old(foodRecordRepo.records), userId, recordId)
    {
      var rec := foodRecordRepo.FindByID(recordId);
      if rec.None? {
        return Some(FoodRecordNotFound);
      }
      var meal := mealRepo.FindByID(rec.value.mealRecordId);
      if meal.None? {
        return Some(MealRecordNotFound);
      }
      if meal.value.userId != userId {
        return Some(FoodRecordDeleteDenied);
      }
      var err := foodRecordRepo.Delete(recordId);
      e := if err.Some? then Some(DeleteFoodRecordFailed) else None;
    }
  }

  // ---------------------------------------------------------------- properties

  /** 100 units of a food contain exactly its reference values. */
  lemma ScaleAtHundred(per100: Nutrients)
    ensures Scale(per100, 100.0) == per100
  {
  }

  /** The intake of two portions is the sum of their intakes. */
  lemma ScaleAdditive(per100: Nutrients, q1: real, q2: real)
    ensures Scale(per100, q1 + q2) == Add(Scale(per100, q1), Scale(per100, q2))
  {
  }

  /** With nonnegative reference values, a larger quantity never has a smaller intake. */
  lemma ScaleMonotone(per100: Nutrients, q1: real, q2: real)
    requires 0.0 <= q1 <= q2
    requires per100.calories >= 0.0 && per100.protein >= 0.0
    requires per100.carbohydrates >= 0.0 && per100.fat >= 0.0
    ensures var a, b := Scale(per100, q1), Scale(per100, q2);
      a.calories <= b.calories && a.protein <= b.protein &&
      a.carbohydrates <= b.carbohydrates && a.fat <= b.fat
  {
    var k1, k2 := q1 / 100.0, q2 / 100.0;
    assert k1 <= k2;
    assert k1 * per100.calories <= k2 * per100.calories;
    assert k1 * per100.protein <= k2 * per100.protein;
    assert k1 * per100.carbohydrates <= k2 * per100.carbohydrates;
    assert k1 * per100.fat <= k2 * per100.fat;
  }

  /** 150 g of a food with 52 kcal per 100 g is 78 kcal. */
  lemma ScaleExample()
    ensures Scale(Nutrients(52.0, 0.3, 14.0, 0.2), 150.0) == Nutrients(78.0, 0.45, 21.0, 0.3)
  {
  }

  /** The checks of CreateFoodRecord, in order; each failure inserts nothing. */
  lemma CreateFoodCheckOrder(
    users: map<Id, User>, meals: map<Id, MealRecord>, foods: map<Id, Food>,
    records: map<Id, FoodRecord>, userId: Id, req: CreateFoodRecordRequest, newId: Id)
    ensures var (r, after) := CreateFoodOutcome(users, meals, foods, records, userId, req, newId);
      (r.Err? ==> after == records) &&
      (userId !in users ==> r == Err(UserNotFound)) &&
      ((userId in users && req.mealRecordId !in meals) ==> r == Err(MealRecordNotFound)) &&
      ((userId in users && req.mealRecordId in meals && meals[req.mealRecordId].userId != userId) ==>
        r == Err(MealAccessDenied)) &&
      ((userId in users && req.mealRecordId in meals && meals[req.mealRecordId].userId == userId &&
        req.foodId !in foods) ==> r == Err(FoodNotFound)) &&
      ((userId in users && req.mealRecordId in meals && meals[req.mealRecordId].userId == userId &&
        req.foodId in foods && (|foods[req.foodId].name| > FoodNameWidth || |req.unit| > UnitWidth)) ==>
        r == Err(CreateFoodRecordFailed))
  {
  }

  /** A created record is attached to one of the caller's meals, carries the food's name and
      the scaled intake, and is the only change to the table. */
  lemma CreateFoodStoresScaledIntake(
    users: map<Id, User>, meals: map<Id, MealRecord>, foods: map<Id, Food>,
    records: map<Id, FoodRecord>, userId: Id, req: CreateFoodRecordRequest, newId: Id)
    requires CreateFoodOutcome(users, meals, foods, records, userId, req, newId).0.Ok?
    ensures var (r, after) := CreateFoodOutcome(users, meals, foods, records, userId, req, newId);
      userId in users && req.mealRecordId in meals && meals[req.mealRecordId].userId == userId &&
      req.foodId in foods && newId !in records &&
      r.value == FoodRecord(newId, req.mealRecordId, req.foodId, foods[req.foodId].name, req.quantity,
                            req.unit, Scale(foods[req.foodId].per100, req.quantity)) &&
      FoodRecordFits(r.value) && after == records[newId := r.value]
  {
  }

  /** An update changes only the quantity and intake of the addressed record, and nothing
      else in the table. */
  lemma UpdateChangesOnlyQuantity(
    meals: map<Id, MealRecord>, foods: map<Id, Food>, records: map<Id, FoodRecord>,
    userId: Id, recordId: Id, quantity: real)
    requires FoodRecordKeysMatch(records) && FoodRecordsFit(records)
    ensures var (r, after) := UpdateFoodOutcome(meals, foods, records, userId, recordId, quantity);
      (r.Err? ==> after == records) &&
      (r.Ok? <==> OwnedFoodRecord(records, meals, userId, recordId, FoodRecordAccessDenied).Ok? &&
                  records[recordId].foodId in foods) &&
      (r.Ok? ==> r.value == records[recordId].(quantity := quantity,
                                                intake := Scale(foods[records[recordId].foodId].per100, quantity)) &&
                 after == records[recordId := r.value] &&
                 FoodRecordKeysMatch(after))
  {
  }

  /** Repeating an update with the same quantity changes nothing further. */
  lemma UpdateIdempotent(
    meals: map<Id, MealRecord>, foods: map<Id, Food>, records: map<Id, FoodRecord>,
    userId: Id, recordId: Id, quantity: real)
    requires FoodRecordKeysMatch(records)
    ensures var (r1, once) := UpdateFoodOutcome(meals, foods, records, userId, recordId, quantity);
      var (r2, twice) := UpdateFoodOutcome(meals, foods, once, userId, recordId, quantity);
      r2 == r1 && twice == once
  {
  }

  /** Creating, updating and deleting food records keep every stored intake equal to the
      scaled reference values of its food. */
  lemma ServiceKeepsIntakeConsistent(
    users: map<Id, User>, meals: map<Id, MealRecord>, foods: map<Id, Food>,
    records: map<Id, FoodRecord>, userId: Id, req: CreateFoodRecordRequest, newId: Id,
    recordId: Id, quantity: real)
    requires FoodRecordKeysMatch(records) && IntakeConsistent(records, foods)
    ensures IntakeConsistent(CreateFoodOutcome(users, meals, foods, records, userId, req, newId).1, foods)
    ensures IntakeConsistent(UpdateFoodOutcome(meals, foods, records, userId, recordId, quantity).1, foods)
    ensures IntakeConsistent(DeleteFoodOutcome(meals, records, userId, recordId).1, foods)
  {
  }

  /** A food record whose meal belongs to someone else can be neither read, updated nor
      deleted, and the attempt changes nothing. */
  lemma ForeignRecordsUntouchable(
    meals: map<Id, MealRecord>, foods: map<Id, Food>, records: map<Id, FoodRecord>,
    userId: Id, recordId: Id, quantity: real)
    requires recordId in records && records[recordId].mealRecordId in meals
    requires meals[records[recordId].mealRecordId].userId != userId
    ensures OwnedFoodRecord(records, meals, userId, recordId, FoodRecordAccessDenied) == Err(FoodRecordAccessDenied)
    ensures UpdateFoodOutcome(meals, foods, records, userId, recordId, quantity) ==
            (Err(FoodRecordAccessDenied), records)
    ensures DeleteFoodOutcome(meals, records, userId, recordId) == (Some(FoodRecordDeleteDenied), records)
  {
  }

  /** The owner's delete removes exactly the addressed record. */
  lemma DeleteFoodRemovesOne(meals: map<Id, MealRecord>, records: map<Id, FoodRecord>, userId: Id, recordId: Id)
    ensures var (e, after) := DeleteFoodOutcome(meals, records, userId, recordId);
      (e.None? <==> OwnedFoodRecord(records, meals, userId, recordId, FoodRecordDeleteDenied).Ok?) &&
      (e.None? ==> |after| == |records| - 1 && after.Keys == records.Keys - {recordId} &&
                   forall id :: id in after ==> after[id] == records[id]) &&
      (e.Some? ==> after == records)
  {
  }

  /** The foreign keys of food_records: every food record names a stored meal record and a
      stored food. */
  ghost predicate ReferencesResolve(
    records: map<Id, FoodRecord>, meals: map<Id, MealRecord>, foods: map<Id, Food>)
  {
    forall id :: id in records ==> records[id].mealRecordId in meals && records[id].foodId in foods
  }

  /** Every write of the food-record and meal-record services keeps the foreign keys of
      food_records: a meal record is only deleted once no food record names it. */
  lemma ServiceKeepsReferencesResolved(
    users: map<Id, User>, meals: map<Id, MealRecord>, foods: map<Id, Food>,
    records: map<Id, FoodRecord>, userId: Id, req: CreateFoodRecordRequest, newId: Id,
    recordId: Id, quantity: real, mealReq: CreateMealRecordRequest,
    parseDate: string -> Option<CalendarDate>, mealId: Id)
    requires ReferencesResolve(records, meals, foods)
    ensures ReferencesResolve(CreateFoodOutcome(users, meals, foods, records, userId, req, newId).1, meals, foods)
    ensures ReferencesResolve(UpdateFoodOutcome(meals, foods, records, userId, recordId, quantity).1, meals, foods)
    ensures ReferencesResolve(DeleteFoodOutcome(meals, records, userId, recordId).1, meals, foods)
    ensures ReferencesResolve(records, CreateMealOutcome(users, meals, userId, mealReq, parseDate, newId).1, foods)
    ensures ReferencesResolve(records, DeleteMealOutcome(meals, records, userId, mealId).1, foods)
  {
    var (e, after) := DeleteMealOutcome(meals, records, userId, mealId);
    if e.None? {
      forall id | id in records
        ensures records[id].mealRecordId in after
      {
        assert records[id].mealRecordId != mealId;
      }
    }
  }

  /** While the foreign keys hold, a food-record lookup never fails for a missing meal
      record: it finds the record and its owner or reports the record missing or foreign. */
  lemma ResolvedRecordsHaveTheirMeal(
    records: map<Id, FoodRecord>, meals: map<Id, MealRecord>, foods: map<Id, Food>,
    userId: Id, recordId: Id, denied: Error)
    requires ReferencesResolve(records, meals, foods)
    ensures var r := OwnedFoodRecord(records, meals, userId, recordId, denied);
      r.Err? ==> r.error == FoodRecordNotFound || r.error == denied
  {
  }
}
