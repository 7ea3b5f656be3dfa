/** The record shapes of the backend (users, foods, entries, the request
    bodies and the derived summary and goals views), the handlers' HTTP
    outcomes, and the model of time. */
module Models {

  /** An instant, in whole seconds since 1970-01-01T00:00:00 in the one fixed
      offset the model assumes for every timestamp. */
  type Time = int

  const SecondsPerDay: int := 86400

  /** Go's zero `time.Time` (January 1 of year 1, 00:00:00 UTC), which
      `time.Parse` returns together with an error. */
  const GoZeroTime: Time := -62135596800

  /** The calendar day an instant falls on, numbered from 1970-01-01. Dafny's
      `/` rounds toward negative infinity for a positive divisor, so an
      instant before 1970 still lands on its own day. */
  function Day(t: Time): int
  {
    t / SecondsPerDay
  }

  datatype User = User(
    id: string,
    email: string,
    name: string,
    password: string,
    dailyCalorieGoal: real,
    dailyProteinGoal: real,
    dailyCarbsGoal: real,
    dailyFatsGoal: real,
    createdAt: Time)

  datatype LoginRequest = LoginRequest(email: string, password: string)

  datatype RegisterRequest = RegisterRequest(email: string, name: string, password: string)

  /** A food of the catalog; an empty `userId` marks a system food. */
  datatype Food = Food(
    id: string,
    userId: string,
    name: string,
    calories: real,
    protein: real,
    carbs: real,
    fats: real,
    servingSize: real,
    servingUnit: string,
    category: string,
    createdAt: Time)

  datatype CreateFoodRequest = CreateFoodRequest(
    name: string,
    calories: real,
    protein: real,
    carbs: real,
    fats: real,
    servingSize: real,
    servingUnit: string,
    category: string)

  /** The update body has exactly the fields of the create body. */
  type UpdateFoodRequest = CreateFoodRequest

  /** A logged intake; the four macros are the food's macros times the
      quantity at the moment the entry was created or last updated. */
  datatype Entry = Entry(
    id: string,
    userId: string,
    foodId: string,
    foodName: string,
    quantity: real,
    mealType: string,
    eatenAt: Time,
    calories: real,
    protein: real,
    carbs: real,
    fats: real,
    createdAt: Time)

  /** `eatenAt` is the raw text of the body; its RFC 3339 parse is passed to
      the handlers separately. */
  datatype CreateEntryRequest = CreateEntryRequest(
    foodId: string,
    quantity: real,
    mealType: string,
    eatenAt: string)

  datatype UpdateEntryRequest = UpdateEntryRequest(
    quantity: real,
    mealType: string,
    eatenAt: string)

  datatype NutritionSummary = NutritionSummary(
    date: string,
    calories: real,
    protein: real,
    carbs: real,
    fats: real,
    entries: seq<Entry>)

  datatype NutritionGoals = NutritionGoals(
    dailyCalorieGoal: real,
    dailyProteinGoal: real,
    dailyCarbsGoal: real,
    dailyFatsGoal: real)

  /** A `YYYY-MM-DD` query parameter: not given (empty), given but not a
      date, or parsed to the instant of that day's midnight. */
  datatype DateParam = Absent | Malformed | Parsed(time: Time)

  /** What a handler writes back: 200 with a body, 201 with a body, 204, or
      one of the error statuses. */
  datatype Response<T> =
    | Ok(value: T)
    | Created(value: T)
    | NoContent
    | BadRequest
    | Unauthorized
    | Forbidden
    | NotFound
    | Conflict
    | Internal
}
