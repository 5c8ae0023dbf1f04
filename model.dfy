/** The persisted entities (internal/model). Identifiers are the store's UUID strings,
    compared only for equality; dates are calendar dates (the columns are SQL DATE). */
module Model {

  type Id = string

  /** An abstract calendar date; parsing and formatting are not modelled. */
  datatype CalendarDate = CalendarDate(year: int, month: int, day: int)

  /** Go's `type MealType int`: any integer, the four named codes being 1..4. */
  type MealType = int

  /** The four nutrient columns that Food, FoodRecord and NutritionGoal each carry. */
  datatype Nutrients = Nutrients(calories: real, protein: real, carbohydrates: real, fat: real)

  /** Gender 0 means unknown, 1 male, 2 female; height in cm, weight in kg. */
  datatype User = User(
    id: Id,
    email: string,
    passwordHash: string,
    nickname: string,
    gender: int,
    age: int,
    height: real,
    weight: real,
    activityLevel: int)

  /** Reference nutrition data, per 100 units of the food. */
  datatype Food = Food(id: Id, name: string, per100: Nutrients)

  datatype MealRecord = MealRecord(id: Id, userId: Id, date: CalendarDate, mealType: MealType)

  /** A quantity of one food eaten in one meal; `intake` is stored, not recomputed on read. */
  datatype FoodRecord = FoodRecord(
    id: Id,
    mealRecordId: Id,
    foodId: Id,
    foodName: string,
    quantity: real,
    unit: string,
    intake: Nutrients)

  datatype NutritionGoal = NutritionGoal(id: Id, userId: Id, targets: Nutrients)
}
