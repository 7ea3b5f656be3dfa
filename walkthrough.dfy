/** A session against a fresh server: register, add a food, log two
    servings of it, and read the day's totals back. */
module Walkthrough {
  import opened Collections
  import opened Models
  import opened Foods
  import opened Nutrition
  import opened Server

  /** 2024-01-01T00:00:00Z and 2024-01-01T08:00:00Z in Unix seconds. */
  const NewYear: Time := 1704067200
  const Breakfast: Time := 1704096000

  method LogAndSummarize() returns (r: Response<NutritionSummary>)
    ensures r.Ok? && r.value.calories == 200.0 && |r.value.entries| == 1
    ensures r.value.entries[0].mealType == "breakfast" && r.value.entries[0].foodName == "Apple"
  {
    var app := new App([], [], []);
    var user := app.Register(RegisterRequest("ana@example.com", "Ana", "secret"), "u1", NewYear, true);
    assert user.Ok?;
    var apple := app.CreateFood(CreateFoodRequest("Apple", 100.0, 0.5, 25.0, 0.3, 1.0, "piece", "fruit"),
                                "f1", NewYear, true);
    assert FindFood(app.foods, "f1") == Some(0);
    var entry := app.CreateEntry(CreateEntryRequest("f1", 2.0, "breakfast", "2024-01-01T08:00:00Z"),
                                 Some(Breakfast), "e1", Breakfast, true);
    assert app.entries == [entry.value];
    assert Day(Breakfast) == Day(NewYear);
    r := app.GetDailySummary("2024-01-01", Some(NewYear));
    assert DayEntries(app.entries, "u1", Day(NewYear)) == app.entries;
  }
}
