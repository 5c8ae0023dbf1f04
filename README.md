# nutrition-tracker in Dafny

This is a verified model of the behavioural core of the nutrition-tracker web service, a Go service in layers: gin, gorm and PostgreSQL.

The model covers four parts:
- **Goal calculator and upsert.** Request biometrics override the stored profile, then the inputs are validated. BMR uses the Mifflin-St Jeor formula, TDEE comes from an activity-factor table, and a goal-type offset of ±500 kcal and a macro split are applied. The result is written into a table that holds one goal per user, creating the goal or overwriting it.
- **Meal records.** Each (user, calendar date, meal type) slot holds at most one record. Reads and deletes are guarded by ownership.
- **Food records.** Intakes are scaled from a food's per-100 reference values. Existence and ownership checks run in a fixed order against the meal table.
- **Accounts and codecs:**
  - register with a unique email;
  - login, whose answer is the same for an unknown email and a wrong password;
  - profile read and update;
  - the `MealType` JSON codec;
  - the Bearer-header check of the authentication middleware.

How the model is built:
- The store is a set of in-memory tables. Each table is a `map` from id to record, held in a repository class (`Repository`).
- Each service is a class that holds its repositories (`Goals`, `Meals`, `FoodRecords`, `Users`).
- Every state-changing service method is proved equal to a pure function of the old tables, named `...Outcome` or `Upsert`. That function returns the result and the new table. The lemmas about these functions state what each operation guarantees.
- External behaviour is passed in as parameters:
  - the UUID the database generates is `newId`;
  - bcrypt hashing and comparison, JWT signing and verification, and `time.Parse` of a YYYY-MM-DD date are function-typed parameters.
- Arithmetic is over `real`, so every constant of the calculator is exact.

Some points where the code's behaviour is easy to misread:
- A meal record that still has food records cannot be deleted. The schema migration creates a foreign key from `food_records.meal_record_id` to `meal_records` with no ON DELETE action, and meal records are deleted for real (they have no soft-delete column). So the store refuses the delete and the service reports that deleting failed. `DeleteByMealRecordID` exists in the repository, but no service calls it.
- The schema's column types are part of the model: an email over 255 or a nickname over 50 characters, a food name over 100 or a unit over 20 characters, and a meal type outside the 32-bit range of an `int` column all make the write fail.
- The worked example (male, 30 years, 180 cm, 80 kg, level 3, maintain) gives BMR 1780 and TDEE 2759.
- A request value overrides the profile value only when it passes its own test:
  - gender non-zero;
  - age, height and weight positive;
  - activity level in 1..5.
  A value that is merely non-zero is not enough.

| module | file | models |
|---|---|---|
| Outcomes | outcomes.dfy | `Option`, `Result`, the service errors and the store errors |
| Model | model.dfy | the entities: user, food, meal record, food record, nutrition goal |
| MealTypes | meal_type.dfy | internal/model/meal_record.go |
| Auth | auth.dfy | internal/auth/middleware.go |
| Repository | repository.dfy | internal/repository/*.go |
| Goals | goals.dfy | internal/service/nutrition_goal_service.go |
| Meals | meals.dfy | internal/service/meal_record_service.go |
| FoodRecords | food_records.dfy | internal/service/food_record_service.go |
| Users | users.dfy | internal/service/user_service.go |

## Model

| member | source | states |
|---|---|---|
| MealTypes.MarshalJSON | internal/model/meal_record.go:42-47 | encoding succeeds exactly for codes 1..4, as the JSON string of m's own name, which decodes back to m; any other code fails with the invalid-meal-type error |
| MealTypes.UnmarshalJSON | internal/model/meal_record.go:50-68 | a string is accepted exactly when it is one of the four names, and stores that name's code; a number is accepted exactly when it fits in a Go int, and is stored as it is, with no range check; every failure leaves the receiver unchanged; null fails as an unknown name |
| MealTypes.MapsAreInverse | internal/model/meal_record.go:26-39 | the name-to-code and code-to-name maps are mutual inverses over exactly the four names and codes 1..4 |
| MealTypes.DecodeEncode | internal/model/meal_record.go:42-64 | for m in 1..4, decoding the encoding of m gives back m with no error |
| MealTypes.EncodeDecode | internal/model/meal_record.go:42-64 | for each of the four names, encoding the decoded code gives back that name |
| MealTypes.OutOfRangeDecodesButDoesNotEncode | internal/model/meal_record.go:46-59 | a number outside 1..4 decodes successfully but then fails to encode |
| MealTypes.DecodedNameIsKnownCode | internal/model/meal_record.go:50-67 | a successful decode from a string always yields one of the codes 1..4 |
| Auth.Split | internal/auth/middleware.go:21 | splitting on the separator yields at least one part, no part contains the separator, and joining the parts with it gives back the input |
| Auth.SplitWithoutSeparator | internal/auth/middleware.go:21 | a string without the separator splits into itself alone |
| Auth.SplitAfterPrefix | internal/auth/middleware.go:21 | splitting x + sep + t, where neither x nor t contains sep, gives exactly [x, t] |
| Auth.BearerFormat | internal/auth/middleware.go:21-22 | the header splits into exactly two parts with first part "Bearer" exactly when it is "Bearer " followed by a space-free token |
| Auth.AuthMiddleware | internal/auth/middleware.go:10-45 | every rejection aborts with 401; an empty header is rejected as a missing token |
| Auth.TokenPassedVerbatim | internal/auth/middleware.go:21-36 | for "Bearer " + t with space-free t, the token checked is exactly t, and its verification alone decides the outcome |
| Auth.AcceptsExactlyWellFormedValidTokens | internal/auth/middleware.go:13-43 | a request passes exactly when its header is "Bearer " + a space-free token that verifies; it then carries exactly user_id, user_email, user_nickname from the claims; rejections carry no context |
| Auth.MalformedExamples | internal/auth/middleware.go:21-26 | "Bearer a b", "Bearer  a", "bearer a" and "Bearer" are rejected as malformed |
| Repository.UserWithEmail | internal/repository/user_repository.go:53-68 | a user is found exactly when some stored user has the email, and the one found is stored with that email |
| Repository.GoalOf | internal/repository/nutrition_goal_repository.go:37-52 | a goal is found exactly when the user has one in the table, and it is that user's stored goal |
| Repository.InsertByMealType | internal/repository/meal_record_repository.go:72 | inserting into a list sorted by meal type keeps it sorted and adds exactly the one record |
| Repository.UserRepository.FindByID | internal/repository/user_repository.go:38-51 | returns the user with that id, or not found exactly when no such user exists |
| Repository.UserRepository.FindByEmail | internal/repository/user_repository.go:53-68 | returns the user stored with that email, or not found |
| Repository.UserRepository.Create | internal/repository/user_repository.go:31-36 | an integer column outside int4 is an out-of-range error, then an email over 255 or a nickname over 50 characters a value-too-long error, then a taken id or email a duplicate-key error; otherwise exactly the new user is inserted; a failure changes nothing; ids, emails and column widths stay consistent |
| Repository.UserRepository.Update | internal/repository/user_repository.go:70-83 | replaces the row with the same id; no row is a no-rows error; then an integer outside int4 is an out-of-range error and an over-long email or nickname a value-too-long error; an email taken by another user is a duplicate-key error; a failure changes nothing |
| Repository.FoodRepository.FindByID | internal/repository/food_repository.go:44-59 | returns the food with that id, or not found exactly when no such food exists |
| Repository.NutritionGoalRepository.Create | internal/repository/nutrition_goal_repository.go:30-35 | inserts exactly the goal when its id is free; otherwise a duplicate-key error and no change; goal ids stay consistent |
| Repository.NutritionGoalRepository.FindByUserID | internal/repository/nutrition_goal_repository.go:37-52 | returns the user's goal, or not found |
| Repository.NutritionGoalRepository.Update | internal/repository/nutrition_goal_repository.go:54-67 | replaces the goal with the same id; no such row is a no-rows error with no change; goal ids stay consistent |
| Repository.MealRecordRepository.Create | internal/repository/meal_record_repository.go:37-42 | a meal type outside int4 is an out-of-range error, then a taken id a duplicate-key error, each with no change; otherwise the record is added and the others are unchanged |
| Repository.MealRecordRepository.FindByID | internal/repository/meal_record_repository.go:45-60 | returns the record with that id, or not found exactly when there is none |
| Repository.MealRecordRepository.FindByUserIDAndDate | internal/repository/meal_record_repository.go:63-78 | returns exactly the user's records on that calendar date, each once, sorted by meal type |
| Repository.MealRecordRepository.FindByUserIDDateAndType | internal/repository/meal_record_repository.go:81-99 | returns a record matching user, date and meal type together, or not found exactly when none matches or the meal type is outside int4 (the query then fails) |
| Repository.MealRecordRepository.Delete | internal/repository/meal_record_repository.go:121-138 | a hard delete: an absent id is a no-rows error; a record that food records still reference is a foreign-key violation; otherwise exactly that record is removed; a failure changes nothing |
| Repository.FoodRecordRepository.Create | internal/repository/food_record_repository.go:38-43 | a food name over 100 or a unit over 20 characters is a value-too-long error, then a taken id a duplicate-key error, then a meal record or food missing from its table a foreign-key violation, each with no change; otherwise the record is added and the others are unchanged |
| Repository.FoodRecordRepository.FindByID | internal/repository/food_record_repository.go:46-61 | returns the record with that id, or not found exactly when there is none |
| Repository.FoodRecordRepository.Select | internal/repository/food_record_repository.go:64-94 | the filtered read behind both list queries: exactly the stored records that pass the filter, each once |
| Repository.FoodRecordRepository.FindByMealRecordID | internal/repository/food_record_repository.go:64-76 | returns exactly the records of that meal, each once |
| Repository.FoodRecordRepository.FindByUserIDAndDate | internal/repository/food_record_repository.go:79-94 | returns exactly the food records whose meal exists, belongs to the user and falls on that calendar date |
| Repository.FoodRecordRepository.Update | internal/repository/food_record_repository.go:97-113 | replaces the stored record with the same id; no such row is a no-rows error, an over-long food name or unit a value-too-long error, each with no change |
| Repository.FoodRecordRepository.Delete | internal/repository/food_record_repository.go:116-133 | removes only the record with that id; a no-rows error exactly when none had it |
| Repository.FoodRecordRepository.DeleteByMealRecordID | internal/repository/food_record_repository.go:136-148 | removes every record of that meal and no other, and cannot fail when there are none |
| Goals.Override | internal/service/nutrition_goal_service.go:103-123 | each request value replaces the profile value exactly when it passes its own test: gender non-zero, age/height/weight positive, activity level in 1..5 |
| Goals.Bmr | internal/service/nutrition_goal_service.go:131-136 | Mifflin-St Jeor: 10w + 6.25h - 5a + 5 for gender 1, and -161 instead of +5 for every other gender |
| Goals.ActivityFactor | internal/service/nutrition_goal_service.go:139-153 | the factor lies in 1.2..1.9, and every level outside 1..5 gets 1.2 |
| Goals.GoalOffset | internal/service/nutrition_goal_service.go:158-168 | an offset exists exactly for maintain, lose and gain |
| Goals.MacroShares | internal/service/nutrition_goal_service.go:170-188 | the three energy shares are positive and sum to 1 for every goal type |
| Goals.Macros | internal/service/nutrition_goal_service.go:170-188 | calories are kept, 4·protein + 4·carbs + 9·fat equals the calories exactly, and no amount is negative for non-negative calories |
| Goals.ComputeTargets | internal/service/nutrition_goal_service.go:102-188 | succeeds exactly when the effective profile is complete and the goal type is known; missing info is reported before the goal type; calories are TDEE plus the offset; the macros are the goal type's split of those calories |
| Goals.MissingInfoIsMissingInBoth | internal/service/nutrition_goal_service.go:102-128 | the validation step fails exactly when some value is missing from both the request and the stored profile: gender 0, a non-positive age, height or weight, or activity level 0 with no request level in 1..5 |
| Goals.Tdee | internal/service/nutrition_goal_service.go:138-155 | for a non-negative BMR the TDEE lies between 1.2 and 1.9 times it, and a level outside 1..5 gives exactly 1.2 times it |
| Goals.Upsert | internal/service/nutrition_goal_service.go:190-213 | a failure is a failed create or a failed update and writes nothing; a success writes exactly the returned goal, for the user, with the given targets |
| Goals.SetGoalOutcome | internal/service/nutrition_goal_service.go:60-93 | an unknown user is user-not-found; a failure writes nothing; a success writes exactly the returned goal, holding the request's four values |
| Goals.CalculateOutcome | internal/service/nutrition_goal_service.go:95-216 | an unknown user is user-not-found; a failure writes nothing; a success writes exactly the returned goal, whose targets are the calculation's result for the user's profile and the request |
| Goals.MaintainExample | internal/service/nutrition_goal_service.go:130-174 | male, 30, 180 cm, 80 kg, level 3, maintain: BMR 1780, TDEE 2759, target 2759 kcal with the default split |
| Goals.OutOfRangeActivityLevelIsSedentary | internal/service/nutrition_goal_service.go:121-155 | a stored activity level such as 6 or -1 passes validation, with factor 1.2 |
| Goals.ActivityFactorIncreasing | internal/service/nutrition_goal_service.go:140-150 | a higher activity level in 1..5 has a strictly larger factor |
| Goals.GoalTypeRules | internal/service/nutrition_goal_service.go:157-188 | maintain, lose and gain give TDEE, TDEE - 500 and TDEE + 500, split 20/50/30, 25/45/30 and 20/55/25 |
| Goals.CalculateFailsWithoutWriting | internal/service/nutrition_goal_service.go:97-168 | an unknown user, missing profile info or an unknown goal type returns its error before the goal table is touched |
| Goals.SetGoalUpsertsRequestValues | internal/service/nutrition_goal_service.go:60-92 | an unknown user fails with no write; otherwise the request's four values are upserted verbatim |
| Goals.GoalOfIsTheStoredGoal | internal/repository/nutrition_goal_repository.go:37-52 | with one goal per user, the goal found for the user is the one stored for them |
| Goals.UpsertSemantics | internal/service/nutrition_goal_service.go:190-213 | keeps one goal per user; an existing goal keeps its id and user and gets the four new values; otherwise exactly one goal is created under the fresh id; other users' goals are untouched; a failure changes nothing |
| Goals.UpsertIdempotent | internal/service/nutrition_goal_service.go:190-213 | repeating an upsert with the same values returns the same goal and changes nothing |
| Goals.CalculateIdempotent | internal/service/nutrition_goal_service.go:95-216 | recalculating with the same profile and request leaves the same goal and table |
| Goals.NutritionGoalService.GetNutritionGoal | internal/service/nutrition_goal_service.go:52-58 | returns the user's stored goal, or the fetch error exactly when the user has none |
| Goals.NutritionGoalService.Save | internal/service/nutrition_goal_service.go:190-213 | the find, then create-or-update, tail equals the upsert of the old table, and keeps goal ids consistent and one goal per user |
| Goals.NutritionGoalService.SetNutritionGoal | internal/service/nutrition_goal_service.go:60-93 | result and new goal table are those of the set-goal outcome; goal ids stay consistent and one goal per user is kept |
| Goals.NutritionGoalService.CalculateNutritionGoal | internal/service/nutrition_goal_service.go:95-216 | result and new goal table are those of the calculation outcome; goal ids stay consistent and one goal per user is kept |
| Meals.OwnedMeal | internal/service/meal_record_service.go:78-91 | succeeds exactly for an existing meal owned by the caller; an absent id is not-found, another owner is the operation's permission error |
| Meals.CreateMealOutcome | internal/service/meal_record_service.go:44-75 | a failure writes nothing; a success inserts exactly the returned record under the fresh id, for the caller, into a free slot, with an int4 meal type |
| Meals.DeleteMealOutcome | internal/service/meal_record_service.go:111-129 | a failure writes nothing; a success removes exactly the caller's own meal record, which no food record references |
| Meals.CreateMealCheckOrder | internal/service/meal_record_service.go:44-61 | user, then date format, then slot uniqueness are checked in that order; a meal type outside int4 finds no slot and then fails as a failed creation; each failure leaves the table unchanged |
| Meals.CreateMealInsertsOne | internal/service/meal_record_service.go:63-74 | a success inserts exactly one record, under a fresh id, with the caller, the parsed date and an int4 meal type, into a free slot |
| Meals.InsertIntoFreeSlot | internal/service/meal_record_service.go:57-72 | inserting under a fresh id into a free slot keeps at most one record per slot |
| Meals.ServiceKeepsOneMealPerSlot | internal/service/meal_record_service.go:44-129 | creation and deletion keep at most one meal record per (user, date, meal type) |
| Meals.DeleteMealOnlyByOwner | internal/service/meal_record_service.go:111-128 | a delete succeeds exactly for the owner of a meal record that no food record references, and removes exactly that record; an absent record is not-found, another owner's is delete-denied, the owner's record with food records fails as a failed delete; a failure changes nothing |
| Meals.MealRecordService.CreateMealRecord | internal/service/meal_record_service.go:44-75 | result and new meal table are those of the creation outcome, in which a meal type outside int4 fails as a failed creation |
| Meals.MealRecordService.GetMealRecord | internal/service/meal_record_service.go:78-91 | the result is the ownership guard with the access-denied error |
| Meals.MealRecordService.GetMealRecordsByDate | internal/service/meal_record_service.go:94-108 | an unknown user fails; otherwise exactly the user's records on that date, each once, sorted by meal type |
| Meals.MealRecordService.DeleteMealRecord | internal/service/meal_record_service.go:111-129 | result and new meal table are those of the delete outcome, in which the store's foreign key refuses the delete of a meal record that food records still reference |
| FoodRecords.OwnedFoodRecord | internal/service/food_record_service.go:150-168 | succeeds exactly when the record exists, its meal exists and the caller owns the meal; the errors come in that order |
| FoodRecords.Scale | internal/service/food_record_service.go:82-86 | each nutrient of the intake is quantity/100 times the food's reference value |
| FoodRecords.CreateFoodOutcome | internal/service/food_record_service.go:59-106 | a failure writes nothing; a success inserts exactly the returned record under the fresh id, attached to one of the caller's meals and to an existing food, within its columns |
| FoodRecords.UpdateFoodOutcome | internal/service/food_record_service.go:109-147 | a failure writes nothing; a success overwrites only the addressed record, with the new quantity and the intake scaled from its food |
| FoodRecords.DeleteFoodOutcome | internal/service/food_record_service.go:209-232 | succeeds exactly when the ownership guard does, and then removes exactly that record; a failure writes nothing |
| FoodRecords.ScaleAtHundred | internal/service/food_record_service.go:83-86 | quantity 100 reproduces the food's reference values exactly |
| FoodRecords.ScaleAdditive | internal/service/food_record_service.go:83-86 | the intake is linear in the quantity: two portions give the sum of their intakes |
| FoodRecords.ScaleMonotone | internal/service/food_record_service.go:83-86 | with non-negative reference values, a larger quantity never gives a smaller nutrient |
| FoodRecords.ScaleExample | internal/service/food_record_service.go:83-86 | 150 units of a food with 52 kcal per 100 give 78 kcal |
| FoodRecords.CreateFoodCheckOrder | internal/service/food_record_service.go:61-80 | user, meal, meal owner and food are checked in that order, each with its own error, then a food name or unit too long for its column fails as a failed creation; a failure inserts nothing |
| FoodRecords.CreateFoodStoresScaledIntake | internal/service/food_record_service.go:82-105 | the created record copies meal, food, quantity and unit from the request and the name from the food, carries the scaled intake, fits its columns, and is the only insertion |
| FoodRecords.UpdateChangesOnlyQuantity | internal/service/food_record_service.go:109-146 | an update succeeds exactly for the owner of a record whose food exists, changes only quantity and intake, with the intake recomputed from the current food, and nothing else in the table |
| FoodRecords.UpdateIdempotent | internal/service/food_record_service.go:133-144 | updating twice with the same quantity gives the same result and table as once |
| FoodRecords.ServiceKeepsIntakeConsistent | internal/service/food_record_service.go:82-147 | create, update and delete keep every stored intake equal to the scaled reference values of its food |
| FoodRecords.ForeignRecordsUntouchable | internal/service/food_record_service.go:117-124 | when the record's meal belongs to another user, get and update fail with access denied and delete with delete denied, and nothing changes |
| FoodRecords.DeleteFoodRemovesOne | internal/service/food_record_service.go:209-231 | a delete succeeds exactly for the owner and removes exactly the addressed record; every other record is unchanged |
| FoodRecords.ServiceKeepsReferencesResolved | internal/model/food_record.go:23-24 | creating, updating and deleting food records, and creating and deleting meal records, all keep every food record's meal record and food in their tables; a meal record is removed only once no food record references it |
| FoodRecords.ResolvedRecordsHaveTheirMeal | internal/service/food_record_service.go:150-168 | while those references hold, a food-record lookup fails only as record-not-found or as the operation's permission error, never as meal-not-found |
| FoodRecords.FoodRecordService.CreateFoodRecord | internal/service/food_record_service.go:59-106 | result and new food-record table are those of the creation outcome, which fails as a failed creation for a food name or unit too long for its column |
| FoodRecords.FoodRecordService.UpdateFoodRecord | internal/service/food_record_service.go:109-147 | result and new food-record table are those of the update outcome |
| FoodRecords.FoodRecordService.GetFoodRecord | internal/service/food_record_service.go:150-168 | the result is the ownership guard with the access-denied error |
| FoodRecords.FoodRecordService.GetFoodRecordsByMeal | internal/service/food_record_service.go:171-189 | fails exactly as the meal's ownership guard does; otherwise exactly the records of that meal, each once |
| FoodRecords.FoodRecordService.GetFoodRecordsByDate | internal/service/food_record_service.go:192-206 | an unknown user fails; otherwise exactly the records of the user's meals on that date, each once |
| FoodRecords.FoodRecordService.DeleteFoodRecord | internal/service/food_record_service.go:209-232 | result and new food-record table are those of the delete outcome |
| Users.UserWithEmailIsTheStoredUser | internal/repository/user_repository.go:53-68 | with unique emails, the user found by email is the one stored with it |
| Users.NewUser | internal/service/user_service.go:49-53 | the new row carries the request's email and nickname and the hash; its integer columns always fit; its strings fit exactly when the email is at most 255 and the nickname at most 50 characters |
| Users.RegisterOutcome | internal/service/user_service.go:35-60 | a failure writes nothing; a success needs a free email, a hash and fitting columns, and inserts exactly the new user under the fresh id |
| Users.LoginOutcome | internal/service/user_service.go:74-97 | fails only as invalid credentials or as a token failure; a success returns a stored user with that email whose hash checks against the password, with the token signed for its claims |
| Users.UpdateProfileOutcome | internal/service/user_service.go:116-130 | an unknown user is user-not-found; a failure writes nothing; a success keeps the ids, overwrites only the user's row with the new nickname (or the old one for an empty request), within its columns |
| Users.RegisterCheckOrder | internal/service/user_service.go:37-46 | a taken email fails as already registered, then a hashing failure, then an email over 255 or a nickname over 50 characters with the store's value-too-long error, each with no insertion |
| Users.RegisterAddsOneAccount | internal/service/user_service.go:43-59 | a success adds exactly one user with the request's email and nickname, the password's hash and the column defaults; ids and emails stay unique and rows stay within their columns |
| Users.RegisterEmailOnce | internal/service/user_service.go:37-40 | after a successful registration, registering the same email again fails with no change |
| Users.LoginFailuresIndistinguishable | internal/service/user_service.go:76-84 | an unknown email and a wrong password give the identical error; a success implies both checks passed |
| Users.RegisterThenLogin | internal/service/user_service.go:35-97 | after registering, logging in with the same email and a password that checks against the stored hash returns the new user and the token signed for its claims |
| Users.LoginTokenAuthenticates | internal/service/user_service.go:87-96 | the token of a successful login, sent as "Bearer <token>", passes the middleware with that user's id, email and nickname, when the verifier accepts what the signer produced |
| Users.UpdateProfileOnlyNickname | internal/service/user_service.go:116-130 | fails exactly for an unknown user (user-not-found) or a nickname over 50 characters (the store's value-too-long), with no change; otherwise changes only the nickname, only when the new one is non-empty; all other fields and users are preserved and the table stays consistent |
| Users.UserService.Register | internal/service/user_service.go:35-60 | result and new user table are those of the registration outcome, in which an over-long email or nickname fails with the store's value-too-long error |
| Users.UserService.Login | internal/service/user_service.go:74-97 | the result is the login outcome: the stored user and a token generated from its id, email and nickname |
| Users.UserService.GetProfile | internal/service/user_service.go:105-114 | returns the stored user with only the password hash cleared, or user-not-found |
| Users.UserService.UpdateProfile | internal/service/user_service.go:116-130 | result and new user table are those of the profile-update outcome, with the store's error passed on unchanged |

## Left out

- HTTP handlers (internal/handler): gin binding, JSON envelopes and status mapping are plumbing.
- The binding tags `gt=0` on quantities and `oneof` on the goal type are not preconditions. The service code handles every quantity and reports unknown goal types itself, so the model covers all inputs.
- internal/auth/jwt.go: HMAC signing, claim parsing and the 24-hour expiry belong to the JWT library and the wall clock. Signing and verification are parameters.
- bcrypt in user_service.go is a foreign library. Hashing and comparison are parameters.
- `time.Parse`, date formatting and SQL `DATE()` truncation: dates are an abstract calendar date, and parsing is a partial function passed in.
- Go's float64 rounding: arithmetic is over exact reals, so the macro-sum identity holds exactly in the model but not bit-for-bit in float64.
- Concurrency: the read-then-insert races are outside the sequential model. One is in meal-record creation. The other is in the goal upsert: no unique index backs one goal per user, so two concurrent upserts for a user can create two goals.
- gorm specifics:
  - UUID generation is a parameter. A collision is the primary-key error path.
  - Soft delete: a deleted row is removed from the table.
  - `Save` inserting when no row has the id: the model treats update as replace-or-fail.
  - Timestamps.
  - Infrastructure errors, such as an uninitialised repository or a lost connection.
- `formatMacroRatio` is unused and is float string formatting.
- The repository operations no service calls are not modelled: meal-record `Update`, food `Create`/`FindByName`/`FindAll`/`Update`/`Delete`, user `Delete`/`ExistsByEmail`, goal `Delete`.
- pkg/database and cmd/server: connection, migration and routing. The schema the migration creates is modelled where the services reach it: the varchar widths, the int4 columns, the unique email index and the foreign keys of food records.
- Strings are sequences of Unicode characters, so a varchar width is a count of characters, as in PostgreSQL. Byte strings that are not valid UTF-8 are not modelled.
- Repository.FoodRecordRepository.Update: does not check the foreign keys, which only a changed meal or food id could break; no service changes either.
- MealTypes.UnmarshalJSON: writing through the receiver pointer is modelled as returning the receiver's new value, together with the error. JSON input is reduced to four cases: string, integer, null and other.
- Repository.MealRecordRepository.FindByUserIDAndDate: records with equal meal types may come back in any order, where the database has its own tie order.
- Auth.AuthMiddleware: the response body text and `c.Next()` are not modelled. The decision is the abort with its error, or the three context values.
