/** The store as in-memory tables (internal/repository): one class per repository, each
    holding its table as a map from primary key to row. Queries that return several rows
    scan the table; a query without ORDER BY may return its rows in any order. */
module Repository {
  import opened Outcomes
  import opened Model

  // ---------------------------------------------------------------- column limits

  /** Widths of the varchar columns, counted in characters. */
  const EmailWidth: nat := 255
  const NicknameWidth: nat := 50
  const FoodNameWidth: nat := 100
  const UnitWidth: nat := 20

  /** The range of an `int` (int4) column. */
  const Int4Min: int := -0x8000_0000
  const Int4Max: int := 0x7fff_ffff

  predicate Int4(n: int)
  {
    Int4Min <= n <= Int4Max
  }

  /** The integer columns of a user row fit int4. */
  predicate UserIntsFit(u: User)
  {
    Int4(u.gender) && Int4(u.age) && Int4(u.activityLevel)
  }

  /** The string columns of a user row fit their widths. */
  predicate UserStringsFit(u: User)
  {
    |u.email| <= EmailWidth && |u.nickname| <= NicknameWidth
  }

  predicate UserFits(u: User)
  {
    UserIntsFit(u) && UserStringsFit(u)
  }

  predicate FoodRecordFits(r: FoodRecord)
  {
    |r.foodName| <= FoodNameWidth && |r.unit| <= UnitWidth
  }

  ghost predicate UsersFit(users: map<Id, User>)
  {
    forall id :: id in users ==> UserFits(users[id])
  }

  ghost predicate MealsFit(meals: map<Id, MealRecord>)
  {
    forall id :: id in meals ==> Int4(meals[id].mealType)
  }

  ghost predicate FoodRecordsFit(records: map<Id, FoodRecord>)
  {
    forall id :: id in records ==> FoodRecordFits(records[id])
  }

  // ---------------------------------------------------------------- table predicates

  ghost predicate UserKeysMatch(users: map<Id, User>)
  {
    forall id :: id in users ==> users[id].id == id
  }

  /** The unique index on users.email. */
  ghost predicate EmailsUnique(users: map<Id, User>)
  {
    forall a, b :: a in users && b in users && users[a].email == users[b].email ==> a == b
  }

  ghost predicate EmailTaken(users: map<Id, User>, email: string)
  {
    exists id :: id in users && users[id].email == email
  }

  ghost predicate GoalKeysMatch(goals: map<Id, NutritionGoal>)
  {
    forall id :: id in goals ==> goals[id].id == id
  }

  /** No database constraint says this; the goal service keeps it. */
  ghost predicate OneGoalPerUser(goals: map<Id, NutritionGoal>)
  {
    forall a, b :: a in goals && b in goals && goals[a].userId == goals[b].userId ==> a == b
  }

  ghost predicate MealKeysMatch(meals: map<Id, MealRecord>)
  {
    forall id :: id in meals ==> meals[id].id == id
  }

  ghost predicate FoodRecordKeysMatch(records: map<Id, FoodRecord>)
  {
    forall id :: id in records ==> records[id].id == id
  }

  /** Some food record references the meal through food_records.meal_record_id. */
  ghost predicate HasFoodRecords(records: map<Id, FoodRecord>, mealId: Id)
  {
    exists id :: id in records && records[id].mealRecordId == mealId
  }

  /** The (user, calendar date, meal type) slot that meal-record uniqueness is about. */
  predicate SameSlot(m: MealRecord, userId: Id, date: CalendarDate, mealType: MealType)
  {
    m.userId == userId && m.date == date && m.mealType == mealType
  }

  /** No row occurs twice in a query result. */
  ghost predicate Distinct<T(!new)>(s: seq<T>)
  {
    forall x :: multiset(s)[x] <= 1
  }

  ghost predicate SortedByMealType(s: seq<MealRecord>)
  {
    forall i, j :: 0 <= i < j < |s| ==> s[i].mealType <= s[j].mealType
  }

  /** The user a `WHERE email = ?` query finds; determined while EmailsUnique holds. */
  ghost function UserWithEmail(users: map<Id, User>, email: string): (r: Option<User>)
    ensures r.Some? <==> EmailTaken(users, email)
    ensures r.Some? ==> r.value in users.Values && r.value.email == email
  {
    if EmailTaken(users, email) then
      var id :| id in users && users[id].email == email;
      Some(users[id])
    else None
  }

  /** The goal a `WHERE user_id = ?` query finds; determined while OneGoalPerUser holds. */
  ghost function GoalOf(goals: map<Id, NutritionGoal>, userId: Id): (r: Option<NutritionGoal>)
    ensures r.Some? <==> exists id :: id in goals && goals[id].userId == userId
    ensures r.Some? ==> r.value in goals.Values && r.value.userId == userId
  {
    if exists id :: id in goals && goals[id].userId == userId then
      var id :| id in goals && goals[id].userId == userId;
      Some(goals[id])
    else None
  }

  /** A meal-type-ordered insertion, the order ORDER BY meal_type produces. */
  function InsertByMealType(s: seq<MealRecord>, m: MealRecord): (r: seq<MealRecord>)
    requires SortedByMealType(s)
    ensures SortedByMealType(r)
    ensures multiset(r) == multiset(s) + multiset{m}
  {
    if s == [] || m.mealType <= s[0].mealType then [m] + s
    else
      var tail := InsertByMealType(s[1..], m);
      assert s == [s[0]] + s[1..];
      assert forall x :: x in tail ==> s[0].mealType <= x.mealType by {
        forall x | x in tail
          ensures s[0].mealType <= x.mealType
        {
          assert x in multiset(tail);
          if x != m {
            assert x in multiset(s[1..]);
            var k :| 0 <= k < |s[1..]| && s[1..][k] == x;
            assert s[k + 1] == x;
          }
        }
      }
      [s[0]] + tail
  }

  // ---------------------------------------------------------------- users

  class UserRepository {
    var users: map<Id, User>

    ghost predicate Valid()
      reads this
    {
      UserKeysMatch(users) && EmailsUnique(users) && UsersFit(users)
    }

    constructor (users: map<Id, User>)
      requires UserKeysMatch(users) && EmailsUnique(users) && UsersFit(users)
      ensures Valid() && this.users == users
    {
      this.users := users;
    }

    method FindByID(id: Id) returns (r: Option<User>)
      ensures r.Some? <==> id in users
      ensures r.Some? ==> r.value == users[id]
    {
      r := if id in users then Some(users[id]) else None;
    }

    method FindByEmail(email: string) returns (r: Option<User>)
      requires Valid()
      ensures r == UserWithEmail(users, email)
    {
      if exists id :: id in users && users[id].email == email {
        var id :| id in users && users[id].email == email;
        r := Some(users[id]);
      } else {
        r := None;
      }
    }

    /** Insert. The integer columns are encoded first, then the string widths are checked,
        then the primary key and the email index must both be free. */
    method Create(u: User) returns (err: Option<DbError>)
      requires Valid()
      modifies this
      ensures Valid()
      ensures err.None? <==> UserFits(u) && u.id !in old(users) && !EmailTaken(old(users), u.email)
      ensures !UserIntsFit(u) ==> err == Some(OutOfRange)
      ensures UserIntsFit(u) && !UserStringsFit(u) ==> err == Some(ValueTooLong)
      ensures UserFits(u) && err.Some? ==> err.value == DuplicateKey
      ensures users == if err.None? then old(users)[u.id := u] else old(users)
    {
      if !UserIntsFit(u) {
        err := Some(OutOfRange);
      } else if !UserStringsFit(u) {
        err := Some(ValueTooLong);
      } else if u.id in users || exists id :: id in users && users[id].email == u.email {
        err := Some(DuplicateKey);
      } else {
        users := users[u.id := u];
        err := None;
      }
    }

    /** Save of an existing row: every column of the row with this id is replaced. */
    method Update(u: User) returns (err: Option<DbError>)
      requires Valid()
      modifies this
      ensures Valid()
      ensures u.id !in old(users) ==> err == Some(NoRowsAffected)
      ensures u.id in old(users) && !UserIntsFit(u) ==> err == Some(OutOfRange)
      ensures u.id in old(users) && UserIntsFit(u) && !UserStringsFit(u) ==> err == Some(ValueTooLong)
      ensures u.id in old(users) && UserFits(u) ==>
        (err.None? <==> forall id :: id in old(users) && id != u.id ==> old(users)[id].email != u.email)
      ensures err.Some? && u.id in old(users) && UserFits(u) ==> err.value == DuplicateKey
      ensures users == if err.None? then old(users)[u.id := u] else old(users)
    {
      if u.id !in users {
        err := Some(NoRowsAffected);
      } else if !UserIntsFit(u) {
        err := Some(OutOfRange);
      } else if !UserStringsFit(u) {
        err := Some(ValueTooLong);
      } else if exists id :: id in users && id != u.id && users[id].email == u.email {
        err := Some(DuplicateKey);
      } else {
        users := users[u.id := u];
        err := None;
      }
    }
  }

  // ---------------------------------------------------------------- foods

  class FoodRepository {
    var foods: map<Id, Food>

    constructor (foods: map<Id, Food>)
      ensures this.foods == foods
    {
      this.foods := foods;
    }

    method FindByID(id: Id) returns (r: Option<Food>)
      ensures r.Some? <==> id in foods
      ensures r.Some? ==> r.value == foods[id]
    {
      r := if id in foods then Some(foods[id]) else None;
    }
  }

  // ---------------------------------------------------------------- nutrition goals

  class NutritionGoalRepository {
    var goals: map<Id, NutritionGoal>

    ghost predicate Valid()
      reads this
    {
      GoalKeysMatch(goals)
    }

    constructor (goals: map<Id, NutritionGoal>)
      requires GoalKeysMatch(goals)
      ensures Valid() && this.goals == goals
    {
      this.goals := goals;
    }

    method Create(g: NutritionGoal) returns (err: Option<DbError>)
      requires Valid()
      modifies this
      ensures Valid()
      ensures err.None? <==> g.id !in old(goals)
      ensures err.Some? ==> err.value == DuplicateKey
      ensures goals == if err.None? then old(goals)[g.id := g] else old(goals)
    {
      if g.id in goals {
        err := Some(DuplicateKey);
      } else {
        goals := goals[g.id := g];
        err := None;
      }
    }

    method FindByUserID(userId: Id) returns (r: Option<NutritionGoal>)
      requires OneGoalPerUser(goals)
      ensures r == GoalOf(goals, userId)
    {
      if exists id :: id in goals && goals[id].userId == userId {
        var id :| id in goals && goals[id].userId == userId;
        r := Some(goals[id]);
      } else {
        r := None;
      }
    }

    method Update(g: NutritionGoal) returns (err: Option<DbError>)
      requires Valid()
      modifies this
      ensures Valid()
      ensures err.None? <==> g.id in old(goals)
      ensures err.Some? ==> err.value == NoRowsAffected
      ensures goals == if err.None? then old(goals)[g.id := g] else old(goals)
    {
      if g.id in goals {
        goals := goals[g.id := g];
        err := None;
      } else {
        err := Some(NoRowsAffected);
      }
    }
  }

  // ---------------------------------------------------------------- meal records

  class MealRecordRepository {
    var records: map<Id, MealRecord>

    ghost predicate Valid()
      reads this
    {
      MealKeysMatch(records) && MealsFit(records)
    }

    constructor (records: map<Id, MealRecord>)
      requires MealKeysMatch(records) && MealsFit(records)
      ensures Valid() && this.records == records
    {
      this.records := records;
    }

    /** Insert; the meal type must fit the int4 column and the primary key must be free. */
    method Create(m: MealRecord) returns (err: Option<DbError>)
      requires Valid()
      modifies this
      ensures Valid()
      ensures err.None? <==> Int4(m.mealType) && m.id !in old(records)
      ensures !Int4(m.mealType) ==> err == Some(OutOfRange)
      ensures Int4(m.mealType) && err.Some? ==> err.value == DuplicateKey
      ensures records == if err.None? then old(records)[m.id := m] else old(records)
    {
      if !Int4(m.mealType) {
        err := Some(OutOfRange);
      } else if m.id in records {
        err := Some(DuplicateKey);
      } else {
        records := records[m.id := m];
        err := None;
      }
    }

    method FindByID(id: Id) returns (r: Option<MealRecord>)
      ensures r.Some? <==> id in records
      ensures r.Some? ==> r.value == records[id]
    {
      r := if id in records then Some(records[id]) else None;
    }

    /** All of the user's meal records on that calendar date, ordered by meal type. */
    method FindByUserIDAndDate(userId: Id, date: CalendarDate) returns (found: seq<MealRecord>)
      requires Valid()
      ensures forall m :: m in found <==> m in records.Values && m.userId == userId && m.date == date
      ensures Distinct(found)
      ensures SortedByMealType(found)
    {
      found := [];
      var todo := records.Keys;
      while todo != {}
        invariant todo <= records.Keys
        invariant forall m :: m in found <==>
          m.id in records && m.id !in todo && records[m.id] == m && m.userId == userId && m.date == date
        invariant Distinct(found)
        invariant SortedByMealType(found)
        decreases |todo|
      {
        var id :| id in todo;
        var m := records[id];
        if m.userId == userId && m.date == date {
          ghost var before := found;
          found := InsertByMealType(found, m);
          forall x
            ensures x in found <==> x in before || x == m
          {
            assert x in found <==> x in multiset(found);
            assert x in before <==> x in multiset(before);
          }
        }
        todo := todo - {id};
      }
      forall m | m in records.Values
        ensures m.id in records && records[m.id] == m
      {
        var k :| k in records && records[k] == m;
      }
    }

    /** The first meal record of that user, calendar date and meal type, if there is one.
        A meal type outside int4 cannot be bound to the query parameter, so the query fails
        and finds nothing. */
    method FindByUserIDDateAndType(userId: Id, date: CalendarDate, mealType: MealType)
      returns (r: Option<MealRecord>)
      ensures r.Some? <==>
        Int4(mealType) && exists id :: id in records && SameSlot(records[id], userId, date, mealType)
      ensures r.Some? ==> r.value in records.Values && SameSlot(r.value, userId, date, mealType)
    {
      if !Int4(mealType) {
        r := None;
      } else if exists id :: id in records && SameSlot(records[id], userId, date, mealType) {
        var id :| id in records && SameSlot(records[id], userId, date, mealType);
        r := Some(records[id]);
      } else {
        r := None;
      }
    }

    /** Hard delete by id; no matching row is an error. `foodRecords` is the food_records
        table, whose foreign key on meal_record_id (no ON DELETE action) refuses the delete
        of a meal record that food records still reference. */
    method Delete(id: Id, foodRecords: map<Id, FoodRecord>) returns (err: Option<DbError>)
      requires Valid()
      modifies this
      ensures Valid()
      ensures id !in old(records) ==> err == Some(NoRowsAffected)
      ensures id in old(records) ==> (err.None? <==> !HasFoodRecords(foodRecords, id))
      ensures id in old(records) && err.Some? ==> err.value == ForeignKeyViolation
      ensures records == if err.None? then old(records) - {id} else old(records)
    {
      if id !in records {
        err := Some(NoRowsAffected);
      } else if exists k :: k in foodRecords && foodRecords[k].mealRecordId == id {
        err := Some(ForeignKeyViolation);
      } else {
        records := records - {id};
        err := None;
      }
    }
  }

  // ---------------------------------------------------------------- food records

  class FoodRecordRepository {
    var records: map<Id, FoodRecord>

    ghost predicate Valid()
      reads this
    {
      FoodRecordKeysMatch(records) && FoodRecordsFit(records)
    }

    constructor (records: map<Id, FoodRecord>)
      requires FoodRecordKeysMatch(records) && FoodRecordsFit(records)
      ensures Valid() && this.records == records
    {
      this.records := records;
    }

    /** Insert into food_records, given the meal_records and foods tables its foreign keys
        reference. The string widths are checked first, then the primary key, then the
        foreign keys. */
    method Create(r: FoodRecord, meals: map<Id, MealRecord>, foods: map<Id, Food>)
      returns (err: Option<DbError>)
      requires Valid()
      modifies this
      ensures Valid()
      ensures err.None? <==>
        FoodRecordFits(r) && r.id !in old(records) && r.mealRecordId in meals && r.foodId in foods
      ensures !FoodRecordFits(r) ==> err == Some(ValueTooLong)
      ensures FoodRecordFits(r) && r.id in old(records) ==> err == Some(DuplicateKey)
      ensures FoodRecordFits(r) && r.id !in old(records) && err.Some? ==> err == Some(ForeignKeyViolation)
      ensures records == if err.None? then old(records)[r.id := r] else old(records)
    {
      if !FoodRecordFits(r) {
        err := Some(ValueTooLong);
      } else if r.id in records {
        err := Some(DuplicateKey);
      } else if r.mealRecordId !in meals || r.foodId !in foods {
        err := Some(ForeignKeyViolation);
      } else {
        records := records[r.id := r];
        err := None;
      }
    }

    method FindByID(id: Id) returns (r: Option<FoodRecord>)
      ensures r.Some? <==> id in records
      ensures r.Some? ==> r.value == records[id]
    {
      r := if id in records then Some(records[id]) else None;
    }

    /** A scan of the table keeping the rows that satisfy `keep`, in no particular order. */
    method Select(keep: FoodRecord -> bool) returns (found: seq<FoodRecord>)
      requires Valid()
      ensures forall r :: r in found <==> r in records.Values && keep(r)
      ensures Distinct(found)
    {
      found := [];
      var todo := records.Keys;
      while todo != {}
        invariant todo <= records.Keys
        invariant forall r :: r in found <==>
          r.id in records && r.id !in todo && records[r.id] == r && keep(r)
        invariant Distinct(found)
        decreases |todo|
      {
        var id :| id in todo;
        var r := records[id];
        if keep(r) {
          found := found + [r];
        }
        todo := todo - {id};
      }
      forall r | r in records.Values
        ensures r.id in records && records[r.id] == r
      {
        var k :| k in records && records[k] == r;
      }
    }

    method FindByMealRecordID(mealRecordId: Id) returns (found: seq<FoodRecord>)
      requires Valid()
      ensures forall r :: r in found <==> r in records.Values && r.mealRecordId == mealRecordId
      ensures Distinct(found)
    {
      found := Select((r: FoodRecord) => r.mealRecordId == mealRecordId);
    }

    /** The join with meal_records: food records whose meal exists, belongs to the user and
        falls on that calendar date. */
    method FindByUserIDAndDate(userId: Id, date: CalendarDate, meals: MealRecordRepository)
      returns (found: seq<FoodRecord>)
      requires Valid()
      ensures forall r :: r in found <==> (r in records.Values && r.mealRecordId in meals.records &&
                                            meals.records[r.mealRecordId].userId == userId &&
                                            meals.records[r.mealRecordId].date == date)
      ensures Distinct(found)
    {
      var mealTable := meals.records;
      found := Select((r: FoodRecord) =>
        r.mealRecordId in mealTable &&
        mealTable[r.mealRecordId].userId == userId && mealTable[r.mealRecordId].date == date);
    }

    /** Save of an existing row: the row with the same id is replaced, if its strings fit. */
    method Update(r: FoodRecord) returns (err: Option<DbError>)
      requires Valid()
      modifies this
      ensures Valid()
      ensures err.None? <==> r.id in old(records) && FoodRecordFits(r)
      ensures r.id !in old(records) ==> err == Some(NoRowsAffected)
      ensures r.id in old(records) && !FoodRecordFits(r) ==> err == Some(ValueTooLong)
      ensures records == if err.None? then old(records)[r.id := r] else old(records)
    {
      if r.id !in records {
        err := Some(NoRowsAffected);
      } else if !FoodRecordFits(r) {
        err := Some(ValueTooLong);
      } else {
        records := records[r.id := r];
        err := None;
      }
    }

    method Delete(id: Id) returns (err: Option<DbError>)
      requires Valid()
      modifies this
      ensures Valid()
      ensures err.None? <==> id in old(records)
      ensures err.Some? ==> err.value == NoRowsAffected
      ensures records == old(records) - {id}
    {
      if id in records {
        records := records - {id};
        err := None;
      } else {
        err := Some(NoRowsAffected);
      }
    }

    /** Delete every record of the meal; deleting none is no error. */
    method DeleteByMealRecordID(mealRecordId: Id)
      requires Valid()
      modifies this
      ensures Valid()
      ensures forall id :: id in records <==> id in old(records) && old(records)[id].mealRecordId != mealRecordId
      ensures forall id :: id in records ==> records[id] == old(records)[id]
    {
      records := map id | id in records && records[id].mealRecordId != mealRecordId :: records[id];
    }
  }
}
