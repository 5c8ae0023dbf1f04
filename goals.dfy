/** Nutrition goals (internal/service/nutrition_goal_service.go): the Mifflin-St Jeor
    calculation as pure functions over exact reals, and the one-goal-per-user upsert that
    both goal operations end with. */
module Goals {
  import opened Outcomes
  import opened Model
  import opened Repository

  /** Optional overrides of the stored profile, and the goal type. */
  datatype CalculateGoalRequest = CalculateGoalRequest(
    gender: int, age: int, height: real, weight: real, activityLevel: int, goalType: string)

  /** The biometric inputs of the calculation. */
  datatype Biometrics = Biometrics(gender: int, age: int, height: real, weight: real, activityLevel: int)

  /** Energy shares of protein, carbohydrates and fat in the calorie target. */
  datatype Shares = Shares(protein: real, carbohydrates: real, fat: real)

  function ProfileOf(u: User): Biometrics
  {
    Biometrics(u.gender, u.age, u.height, u.weight, u.activityLevel)
  }

  predicate ActivityLevelInRange(level: int)
  {
    1 <= level <= 5
  }

  /** Each request value replaces the profile's value exactly when it passes its own test:
      gender non-zero, age, height and weight positive, activity level within 1..5. */
  function Override(profile: Biometrics, req: CalculateGoalRequest): (b: Biometrics)
    ensures req.gender != 0 ==> b.gender == req.gender
    ensures req.gender == 0 ==> b.gender == profile.gender
    ensures req.age > 0 ==> b.age == req.age
    ensures req.age <= 0 ==> b.age == profile.age
    ensures req.height > 0.0 ==> b.height == req.height
    ensures req.height <= 0.0 ==> b.height == profile.height
    ensures req.weight > 0.0 ==> b.weight == req.weight
    ensures req.weight <= 0.0 ==> b.weight == profile.weight
    ensures ActivityLevelInRange(req.activityLevel) ==> b.activityLevel == req.activityLevel
    ensures !ActivityLevelInRange(req.activityLevel) ==> b.activityLevel == profile.activityLevel
  {
    Biometrics(
      if req.gender != 0 then req.gender else profile.gender,
      if req.age > 0 then req.age else profile.age,
      if req.height > 0.0 then req.height else profile.height,
      if req.weight > 0.0 then req.weight else profile.weight,
      if ActivityLevelInRange(req.activityLevel) then req.activityLevel else profile.activityLevel)
  }

  /** The validation step. An activity level outside 1..5 other than 0 passes it. */
  predicate HasRequiredInfo(b: Biometrics)
  {
    b.gender != 0 && b.age > 0 && b.height > 0.0 && b.weight > 0.0 && b.activityLevel != 0
  }

  /** Mifflin-St Jeor: +5 for gender 1, -161 for every other gender. */
  function Bmr(b: Biometrics): (r: real)
    ensures b.gender == 1 ==> r == 10.0 * b.weight + 6.25 * b.height - 5.0 * (b.age as real) + 5.0
    ensures b.gender != 1 ==> r == 10.0 * b.weight + 6.25 * b.height - 5.0 * (b.age as real) - 161.0
  {
    var base := 10.0 * b.weight + 6.25 * b.height - 5.0 * (b.age as real);
    if b.gender == 1 then base + 5.0 else base - 161.0
  }

  /** The activity-factor table; any level outside 1..5 falls back to 1.2. */
  function ActivityFactor(level: int): (f: real)
    ensures 1.2 <= f <= 1.9
    ensures !ActivityLevelInRange(level) ==> f == 1.2
  {
    match level
    case 1 => 1.2
    case 2 => 1.375
    case 3 => 1.55
    case 4 => 1.725
    case 5 => 1.9
    case _ => 1.2
  }

  /** Total daily energy expenditure: the BMR scaled by the activity factor. */
  function Tdee(b: Biometrics): (r: real)
    ensures Bmr(b) >= 0.0 ==> 1.2 * Bmr(b) <= r <= 1.9 * Bmr(b)
    ensures !ActivityLevelInRange(b.activityLevel) ==> r == 1.2 * Bmr(b)
  {
    Bmr(b) * ActivityFactor(b.activityLevel)
  }

  /** The daily calorie offset of a goal type; None for an unknown goal type. */
  function GoalOffset(goalType: string): (r: Option<real>)
    ensures r.Some? <==> goalType in {"maintain", "lose", "gain"}
  {
    match goalType
    case "maintain" => Some(0.0)
    case "lose" => Some(-500.0)
    case "gain" => Some(500.0)
    case _ => None
  }

  /** Default 20/50/30, 25/45/30 when losing, 20/55/25 when gaining. */
  function MacroShares(goalType: string): (s: Shares)
    ensures s.protein + s.carbohydrates + s.fat == 1.0
    ensures 0.0 < s.protein && 0.0 < s.carbohydrates && 0.0 < s.fat
  {
    match goalType
    case "lose" => Shares(0.25, 0.45, 0.3)
    case "gain" => Shares(0.2, 0.55, 0.25)
    case _ => Shares(0.2, 0.5, 0.3)
  }

  /** Grams of each macronutrient at 4, 4 and 9 kcal per gram; their energy adds up to
      the calorie target exactly. */
  function Macros(calories: real, goalType: string): (n: Nutrients)
    ensures n.calories == calories
    ensures 4.0 * n.protein + 4.0 * n.carbohydrates + 9.0 * n.fat == calories
    ensures calories >= 0.0 ==> n.protein >= 0.0 && n.carbohydrates >= 0.0 && n.fat >= 0.0
  {
    var s := MacroShares(goalType);
    Nutrients(calories, calories * s.protein / 4.0, calories * s.carbohydrates / 4.0, calories * s.fat / 9.0)
  }

  /** The calculation without the store: override, validate, then BMR, TDEE, offset and
      macro split. A missing profile value is reported before an unknown goal type. */
  function ComputeTargets(profile: Biometrics, req: CalculateGoalRequest): (r: Result<Nutrients, Error>)
    ensures r.Ok? <==> HasRequiredInfo(Override(profile, req)) && GoalOffset(req.goalType).Some?
    ensures r.Err? ==> (r.error == MissingProfileInfo <==> !HasRequiredInfo(Override(profile, req)))
    ensures r.Err? ==> r.error in {MissingProfileInfo, InvalidGoalType}
    ensures r.Ok? ==> r.value.calories == Tdee(Override(profile, req)) + GoalOffset(req.goalType).value
    ensures r.Ok? ==> r.value == Macros(r.value.calories, req.goalType)
  {
    var b := Override(profile, req);
    if !HasRequiredInfo(b) then Err(MissingProfileInfo)
    else
      match GoalOffset(req.goalType)
      case None => Err(InvalidGoalType)
      case Some(offset) => Ok(Macros(Tdee(b) + offset, req.goalType))
  }

  // ---------------------------------------------------------------- the store part

  /** Create the user's goal when there is none, otherwise overwrite its four targets. */
  ghost function Upsert(goals: map<Id, NutritionGoal>, userId: Id, targets: Nutrients, newId: Id)
    : (out: (Result<NutritionGoal, Error>, map<Id, NutritionGoal>))
    ensures out.0.Err? ==> out.1 == goals && out.0.error in {CreateGoalFailed, UpdateGoalFailed}
    ensures out.0.Ok? ==> var g := out.0.value;
      g.userId == userId && g.targets == targets && out.1 == goals[g.id := g]
  {
    match GoalOf(goals, userId)
    case None =>
      var g := NutritionGoal(newId, userId, targets);
      if newId in goals then (Err(CreateGoalFailed), goals) else (Ok(g), goals[newId := g])
    case Some(g) =>
      var updated := g.(targets := targets);
      if g.id in goals then (Ok(updated), goals[g.id := updated]) else (Err(UpdateGoalFailed), goals)
  }

  /** SetNutritionGoal: the request's four values, verbatim, for an existing user. */
  ghost function SetGoalOutcome(
    users: map<Id, User>, goals: map<Id, NutritionGoal>, userId: Id, targets: Nutrients, newId: Id)
    : (out: (Result<NutritionGoal, Error>, map<Id, NutritionGoal>))
    ensures out.0.Err? ==> out.1 == goals
    ensures userId !in users ==> out.0 == Err(UserNotFound)
    ensures out.0.Ok? ==> var g := out.0.value;
      userId in users && g.userId == userId && g.targets == targets && out.1 == goals[g.id := g]
  {
    if userId !in users then (Err(UserNotFound), goals)
    else Upsert(goals, userId, targets, newId)
  }

  /** CalculateNutritionGoal: the computed values for an existing user. */
  ghost function CalculateOutcome(
    users: map<Id, User>, goals: map<Id, NutritionGoal>, userId: Id, req: CalculateGoalRequest, newId: Id)
    : (out: (Result<NutritionGoal, Error>, map<Id, NutritionGoal>))
    ensures out.0.Err? ==> out.1 == goals
    ensures userId !in users ==> out.0 == Err(UserNotFound)
    ensures out.0.Ok? ==> var g := out.0.value;
      userId in users && ComputeTargets(ProfileOf(users[userId]), req) == Ok(g.targets) &&
      g.userId == userId && out.1 == goals[g.id := g]
  {
    if userId !in users then (Err(UserNotFound), goals)
    else
      match ComputeTargets(ProfileOf(users[userId]), req)
      case Err(e) => (Err(e), goals)
      case Ok(targets) => Upsert(goals, userId, targets, newId)
  }

  class NutritionGoalService {
    const goalRepo: NutritionGoalRepository
    const userRepo: UserRepository

    constructor (goalRepo: NutritionGoalRepository, userRepo: UserRepository)
      ensures this.goalRepo == goalRepo && this.userRepo == userRepo
    {
      this.goalRepo := goalRepo;
      this.userRepo := userRepo;
    }

    method GetNutritionGoal(userId: Id) returns (r: Result<NutritionGoal, Error>)
      requires goalRepo.Valid() && OneGoalPerUser(goalRepo.goals)
      ensures r.Ok? <==> exists id :: id in goalRepo.goals && goalRepo.goals[id].userId == userId
      ensures r.Ok? ==> r.value in goalRepo.goals.Values && r.value.userId == userId
      ensures r.Err? ==> r.error == GoalFetchFailed
    {
      var goal := goalRepo.FindByUserID(userId);
      if goal.None? {
        return Err(GoalFetchFailed);
      }
      return Ok(goal.value);
    }

    /** The find-then-create-or-update tail shared by both goal operations. Run one at a
        time, it keeps at most one goal per user. */
    method Save(userId: Id, targets: Nutrients, newId: Id) returns (r: Result<NutritionGoal, Error>)
      requires goalRepo.Valid() && OneGoalPerUser(goalRepo.goals)
      modifies goalRepo
      ensures goalRepo.Valid() && OneGoalPerUser(goalRepo.goals)
      ensures (r, goalRepo.goals) == Upsert(old(goalRepo.goals), userId, targets, newId)
    {
      ghost var before := goalRepo.goals;
      var existing := goalRepo.FindByUserID(userId);
      if existing.None? {
        var goal := NutritionGoal(newId, userId, targets);
        var err := goalRepo.Create(goal);
        r := if err.Some? then Err(CreateGoalFailed) else Ok(goal);
      } else {
        var goal := existing.value.(targets := targets);
        var err := goalRepo.Update(goal);
        r := if err.Some? then Err(UpdateGoalFailed) else Ok(goal);
      }
      UpsertSemantics(before, userId, targets, newId);
    }

    method SetNutritionGoal(userId: Id, req: Nutrients, newId: Id) returns (r: Result<NutritionGoal, Error>)
      requires goalRepo.Valid() && OneGoalPerUser(goalRepo.goals)
      modifies goalRepo
      ensures goalRepo.Valid() && OneGoalPerUser(goalRepo.goals)
      ensures (r, goalRepo.goals) == SetGoalOutcome(userRepo.users, old(goalRepo.goals), userId, req, newId)
    {
      var user := userRepo.FindByID(userId);
      if user.None? {
        return Err(UserNotFound);
      }
      r := Save(userId, req, newId);
    }

    method CalculateNutritionGoal(userId: Id, req: CalculateGoalRequest, newId: Id)
      returns (r: Result<NutritionGoal, Error>)
      requires goalRepo.Valid() && OneGoalPerUser(goalRepo.goals)
      modifies goalRepo
      ensures goalRepo.Valid() && OneGoalPerUser(goalRepo.goals)
      ensures (r, goalRepo.goals) == CalculateOutcome(userRepo.users, old(goalRepo.goals), userId, req, newId)
    {
      var user := userRepo.FindByID(userId);
      if user.None? {
        return Err(UserNotFound);
      }
      var targets := ComputeTargets(ProfileOf(user.value), req);
      if targets.Err? {
        return Err(targets.error);
      }
      r := Save(userId, targets.value, newId);
    }
  }

  // ---------------------------------------------------------------- properties

  /** The worked example: male, 30 years, 180 cm, 80 kg, level 3, maintain. */
  lemma MaintainExample()
    ensures Bmr(Biometrics(1, 30, 180.0, 80.0, 3)) == 1780.0
    ensures Tdee(Biometrics(1, 30, 180.0, 80.0, 3)) == 2759.0
    ensures ComputeTargets(Biometrics(1, 30, 180.0, 80.0, 3), CalculateGoalRequest(0, 0, 0.0, 0.0, 0, "maintain"))
      == Ok(Macros(2759.0, "maintain"))
  {
  }

  /** A stored activity level such as 6 or -1 is not 0, so it passes validation, and it
      is costed at the sedentary factor 1.2. */
  lemma OutOfRangeActivityLevelIsSedentary(profile: Biometrics, req: CalculateGoalRequest)
    requires !ActivityLevelInRange(profile.activityLevel) && profile.activityLevel != 0
    requires !ActivityLevelInRange(req.activityLevel)
    requires profile.gender != 0 && profile.age > 0 && profile.height > 0.0 && profile.weight > 0.0
    requires GoalOffset(req.goalType).Some?
    ensures ComputeTargets(profile, req).Ok?
    ensures ComputeTargets(profile, req).value.calories ==
      Bmr(Override(profile, req)) * 1.2 + GoalOffset(req.goalType).value
  {
  }

  /** Validation fails exactly when some value is missing from both the request and the
      stored profile: gender 0, a non-positive age, height or weight, or activity level 0
      with no request level within 1..5. */
  lemma MissingInfoIsMissingInBoth(profile: Biometrics, req: CalculateGoalRequest)
    ensures !HasRequiredInfo(Override(profile, req)) <==>
      (req.gender == 0 && profile.gender == 0) || (req.age <= 0 && profile.age <= 0) ||
      (req.height <= 0.0 && profile.height <= 0.0) || (req.weight <= 0.0 && profile.weight <= 0.0) ||
      (!ActivityLevelInRange(req.activityLevel) && profile.activityLevel == 0)
  {
  }

  /** The activity factor grows with the activity level over 1..5. */
  lemma ActivityFactorIncreasing(a: int, b: int)
    requires 1 <= a < b <= 5
    ensures ActivityFactor(a) < ActivityFactor(b)
  {
  }

  /** Target calories and macro split for each of the three goal types. */
  lemma GoalTypeRules(profile: Biometrics, req: CalculateGoalRequest)
    requires ComputeTargets(profile, req).Ok?
    ensures var t := ComputeTargets(profile, req).value;
      var tdee := Tdee(Override(profile, req));
      (req.goalType == "maintain" ==>
        t.calories == tdee &&
        4.0 * t.protein == 0.2 * tdee && 4.0 * t.carbohydrates == 0.5 * tdee && 9.0 * t.fat == 0.3 * tdee) &&
      (req.goalType == "lose" ==>
        t.calories == tdee - 500.0 &&
        4.0 * t.protein == 0.25 * t.calories && 4.0 * t.carbohydrates == 0.45 * t.calories &&
        9.0 * t.fat == 0.3 * t.calories) &&
      (req.goalType == "gain" ==>
        t.calories == tdee + 500.0 &&
        4.0 * t.protein == 0.2 * t.calories && 4.0 * t.carbohydrates == 0.55 * t.calories &&
        9.0 * t.fat == 0.25 * t.calories)
  {
  }

  /** A failed lookup, a failed validation or an unknown goal type returns before the goal
      table is touched. */
  lemma CalculateFailsWithoutWriting(
    users: map<Id, User>, goals: map<Id, NutritionGoal>, userId: Id, req: CalculateGoalRequest, newId: Id)
    ensures var (r, after) := CalculateOutcome(users, goals, userId, req, newId);
      (userId !in users ==> r == Err(UserNotFound) && after == goals) &&
      (userId in users && !HasRequiredInfo(Override(ProfileOf(users[userId]), req)) ==>
        r == Err(MissingProfileInfo) && after == goals) &&
      ((userId in users && HasRequiredInfo(Override(ProfileOf(users[userId]), req)) &&
        GoalOffset(req.goalType).None?) ==> r == Err(InvalidGoalType) && after == goals)
  {
  }

  /** SetNutritionGoal writes nothing for an unknown user and otherwise upserts the
      requested values unchanged. */
  lemma SetGoalUpsertsRequestValues(
    users: map<Id, User>, goals: map<Id, NutritionGoal>, userId: Id, targets: Nutrients, newId: Id)
    ensures userId !in users ==> SetGoalOutcome(users, goals, userId, targets, newId) == (Err(UserNotFound), goals)
    ensures userId in users ==> SetGoalOutcome(users, goals, userId, targets, newId) == Upsert(goals, userId, targets, newId)
  {
  }

  /** With at most one goal per user, the goal found for a user is the one stored for it. */
  lemma GoalOfIsTheStoredGoal(goals: map<Id, NutritionGoal>, userId: Id, id: Id)
    requires OneGoalPerUser(goals)
    requires id in goals && goals[id].userId == userId
    ensures GoalOf(goals, userId) == Some(goals[id])
  {
    var g := GoalOf(goals, userId).value;
    var k :| k in goals && goals[k] == g;
  }

  /** What an upsert does to the goal table: the table stays keyed by goal id with at most
      one goal per user; on success the user's goal is the returned one, carrying the new
      targets; an existing goal keeps its id and user, a new one gets the fresh id; a failure
      writes nothing; goals of other users are untouched. */
  lemma UpsertSemantics(goals: map<Id, NutritionGoal>, userId: Id, targets: Nutrients, newId: Id)
    requires GoalKeysMatch(goals) && OneGoalPerUser(goals)
    ensures var (r, after) := Upsert(goals, userId, targets, newId);
      GoalKeysMatch(after) && OneGoalPerUser(after) &&
      (r.Ok? ==> r.value.userId == userId && r.value.targets == targets && GoalOf(after, userId) == Some(r.value)) &&
      (r.Err? ==> after == goals) &&
      (GoalOf(goals, userId).Some? ==>
        r.Ok? && r.value.id == GoalOf(goals, userId).value.id && after.Keys == goals.Keys) &&
      (GoalOf(goals, userId).None? ==>
        (r.Ok? <==> newId !in goals) && (r.Ok? ==> r.value.id == newId && after.Keys == goals.Keys + {newId})) &&
      (forall id :: id in goals && goals[id].userId != userId ==> id in after && after[id] == goals[id])
  {
    var (r, after) := Upsert(goals, userId, targets, newId);
    match GoalOf(goals, userId)
    case None =>
      if r.Ok? {
        assert OneGoalPerUser(after);
        GoalOfIsTheStoredGoal(after, userId, newId);
      }
    case Some(g) =>
      var k :| k in goals && goals[k] == g;
      assert g.id == k;
      assert OneGoalPerUser(after);
      GoalOfIsTheStoredGoal(after, userId, g.id);
  }

  /** Repeating an upsert with the same values changes nothing and returns the same goal. */
  lemma UpsertIdempotent(goals: map<Id, NutritionGoal>, userId: Id, targets: Nutrients, id1: Id, id2: Id)
    requires GoalKeysMatch(goals) && OneGoalPerUser(goals)
    requires Upsert(goals, userId, targets, id1).0.Ok?
    ensures var first := Upsert(goals, userId, targets, id1);
      Upsert(first.1, userId, targets, id2) == first
  {
    UpsertSemantics(goals, userId, targets, id1);
    var (r, after) := Upsert(goals, userId, targets, id1);
    var g := r.value;
    assert GoalOf(after, userId) == Some(g);
    assert g.id in after && after[g.id] == g by {
      var k :| k in after && after[k] == g;
    }
    assert g.(targets := targets) == g;
    assert after[g.id := g] == after;
  }

  /** Calculating twice from the same profile and request leaves the same goal values. */
  lemma CalculateIdempotent(
    users: map<Id, User>, goals: map<Id, NutritionGoal>, userId: Id, req: CalculateGoalRequest, id1: Id, id2: Id)
    requires GoalKeysMatch(goals) && OneGoalPerUser(goals)
    requires CalculateOutcome(users, goals, userId, req, id1).0.Ok?
    ensures var first := CalculateOutcome(users, goals, userId, req, id1);
      CalculateOutcome(users, first.1, userId, req, id2) == first
  {
    var targets := ComputeTargets(ProfileOf(users[userId]), req).value;
    UpsertIdempotent(goals, userId, targets, id1, id2);
  }
}
