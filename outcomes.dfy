/** Failure-carrying values shared by the repositories and the services. */
module Outcomes {

  datatype Option<+T> = None | Some(value: T)

  datatype Result<+T, +E> = Ok(value: T) | Err(error: E)

  /** The store failures the repositories report. */
  datatype DbError =
    | DuplicateKey          // a primary-key or unique-index conflict
    | NoRowsAffected        // an update or delete whose WHERE clause matched no row
    | ForeignKeyViolation   // a row whose reference does not resolve, or a referenced row deleted
    | ValueTooLong          // a string longer than its varchar column
    | OutOfRange            // an integer outside its int4 column

  /** One constructor per distinct error message of the service layer. */
  datatype Error =
    | UserNotFound             // user lookup by id failed (also the repository's own message)
    | MealRecordNotFound       // meal record lookup by id failed
    | FoodRecordNotFound       // food record lookup by id failed
    | FoodNotFound             // food lookup by id failed
    | MealAccessDenied         // the meal record belongs to another user (read or attach)
    | FoodRecordAccessDenied   // the food record's meal belongs to another user (read or update)
    | FoodRecordDeleteDenied   // the food record's meal belongs to another user (delete)
    | MealDeleteDenied         // the meal record belongs to another user (delete)
    | MealRecordExists         // a meal record for this user, date and meal type exists
    | InvalidDateFormat        // the date is not YYYY-MM-DD
    | CreateMealRecordFailed
    | DeleteMealRecordFailed
    | CreateFoodRecordFailed
    | UpdateFoodRecordFailed
    | DeleteFoodRecordFailed
    | MissingProfileInfo       // gender, age, height, weight or activity level missing
    | InvalidGoalType          // goal type is not maintain, lose or gain
    | GoalFetchFailed
    | CreateGoalFailed
    | UpdateGoalFailed
    | EmailAlreadyRegistered
    | InvalidCredentials       // one message for an unknown email and for a wrong password
    | TokenGenerationFailed
    | PasswordHashFailed       // the hashing library refused the password
    | Store(cause: DbError)    // a store error the service passes on unchanged
}
