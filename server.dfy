/** The handlers of the four resources as methods of one object that holds
    the three stored collections (users.json, foods.json, entries.json) and
    the process-wide current-user slot. Loading a file reads the field;
    saving it assigns the field, and `saveOk == false` stands for a failed
    save, after which the handler answers Internal and the stored state is
    what it was. Every handler but Register and Login sits behind the auth
    middleware, which lets a request through only while a user is logged
    in: that is the `requires currentUser.Some?` of each of them except
    GetCurrentUser, which repeats the check itself and answers Unauthorized,
    so it is modelled without the precondition. */
module Server {
  import opened Collections
  import opened Models
  import opened Auth
  import opened Foods
  import opened Entries
  import opened Nutrition

  class App {
    var users: seq<User>
    var foods: seq<Food>
    var entries: seq<Entry>
    var currentUser: Option<User>

    /** The server at start-up: the stored files as they are, nobody logged in. */
    constructor (users: seq<User>, foods: seq<Food>, entries: seq<Entry>)
      ensures this.users == users && this.foods == foods && this.entries == entries
      ensures currentUser == None
    {
      this.users := users;
      this.foods := foods;
      this.entries := entries;
      currentUser := None;
    }

    // ---------------------------------------------------------------- auth

    method Register(req: RegisterRequest, freshId: string, now: Time, saveOk: bool) returns (r: Response<User>)
      modifies this`users, this`currentUser
      ensures EmailTaken(old(users), req.email) ==>
                r == Conflict && users == old(users) && currentUser == old(currentUser)
      ensures !EmailTaken(old(users), req.email) && !saveOk ==>
                r == Internal && users == old(users) && currentUser == old(currentUser)
      ensures !EmailTaken(old(users), req.email) && saveOk ==>
                var user := NewUser(req, freshId, now);
                && users == old(users) + [user]
                && currentUser == Some(Redacted(user))
                && r == Ok(Redacted(user))
      ensures EmailsDistinct(old(users)) ==> EmailsDistinct(users)
    {
      for i := 0 to |users|
        invariant forall j :: 0 <= j < i ==> users[j].email != req.email
      {
        if users[i].email == req.email {
          return Conflict;
        }
      }
      var user := NewUser(req, freshId, now);
      if !saveOk {
        return Internal;
      }
      if EmailsDistinct(users) {
        RegisterKeepsEmailsDistinct(users, user);
      }
      users := users + [user];
      // CurrentUser points at the record whose password is cleared next.
      currentUser := Some(Redacted(user));
      r := Ok(Redacted(user));
    }

    method Login(req: LoginRequest) returns (r: Response<User>)
      modifies this`currentUser
      ensures FindLogin(users, req).Some? ==>
                var u := users[FindLogin(users, req).value];
                currentUser == Some(Redacted(u)) && r == Ok(Redacted(u))
      ensures FindLogin(users, req).None? ==> r == Unauthorized && currentUser == old(currentUser)
      ensures r.Ok? <==> exists i :: 0 <= i < |users| && Authenticates(users[i], req)
    {
      for i := 0 to |users|
        invariant forall j :: 0 <= j < i ==> !Authenticates(users[j], req)
      {
        var u := users[i];
        if u.email == req.email && u.password == req.password {
          // CurrentUser aliases the loop copy whose password is cleared next.
          currentUser := Some(Redacted(u));
          return Ok(Redacted(u));
        }
      }
      return Unauthorized;
    }

    method GetCurrentUser() returns (r: Response<User>)
      ensures currentUser.None? ==> r == Unauthorized
      ensures currentUser.Some? ==> r == Ok(Redacted(currentUser.value))
      ensures r.Ok? ==> r.value.password == ""
    {
      if currentUser.None? {
        return Unauthorized;
      }
      var user := currentUser.value;
      r := Ok(user.(password := ""));
    }

    // --------------------------------------------------------------- foods

    method GetFoods(name: string, category: string) returns (r: Response<seq<Food>>)
      requires currentUser.Some?
      ensures r == Ok(ListFoods(foods, currentUser.value.id, name, category))
      ensures IsSubsequence(r.value, foods)
      ensures forall f :: f in r.value <==> f in foods && Listed(f, currentUser.value.id, name, category)
    {
      var uid := currentUser.value.id;
      var filtered: seq<Food> := [];
      for i := 0 to |foods|
        invariant filtered == ListFoods(foods[..i], uid, name, category)
      {
        var f := foods[i];
        assert foods[..i + 1] == foods[..i] + [f];
        ListFoodsSnoc(foods[..i], f, uid, name, category);
        if f.userId != "" && f.userId != uid {
          continue;
        }
        if name != "" && !Contains(ToLower(f.name), ToLower(name)) {
          continue;
        }
        if category != "" && !EqualFold(f.category, category) {
          continue;
        }
        filtered := filtered + [f];
      }
      assert foods[..|foods|] == foods;
      r := Ok(filtered);
    }

    method GetFood(id: string) returns (r: Response<Food>)
      requires currentUser.Some?
      ensures FindFood(foods, id).None? ==> r == NotFound
      ensures FindFood(foods, id).Some? ==>
                var f := foods[FindFood(foods, id).value];
                r == if Visible(f, currentUser.value.id) then Ok(f) else NotFound
    {
      for i := 0 to |foods|
        invariant forall j :: 0 <= j < i ==> foods[j].id != id
      {
        var f := foods[i];
        if f.id == id {
          if f.userId != "" && f.userId != currentUser.value.id {
            return NotFound;
          }
          return Ok(f);
        }
      }
      return NotFound;
    }

    method CreateFood(req: CreateFoodRequest, freshId: string, now: Time, saveOk: bool) returns (r: Response<Food>)
      requires currentUser.Some?
      modifies this`foods
      ensures var food := NewFood(req, freshId, currentUser.value.id, now);
              if saveOk then foods == old(foods) + [food] && r == Created(food)
              else foods == old(foods) && r == Internal
    {
      var food := NewFood(req, freshId, currentUser.value.id, now);
      if !saveOk {
        return Internal;
      }
      foods := foods + [food];
      r := Created(food);
    }

    method UpdateFood(id: string, req: UpdateFoodRequest, saveOk: bool) returns (r: Response<Food>)
      requires currentUser.Some?
      modifies this`foods
      ensures FindFood(old(foods), id).None? ==> r == NotFound && foods == old(foods)
      ensures FindFood(old(foods), id).Some? ==>
                var i := FindFood(old(foods), id).value;
                if old(foods)[i].userId != currentUser.value.id then
                  r == Forbidden && foods == old(foods)
                else if !saveOk then
                  r == Internal && foods == old(foods)
                else
                  foods == old(foods)[i := UpdatedFood(old(foods)[i], req)] && r == Ok(foods[i])
    {
      for i := 0 to |foods|
        invariant forall j :: 0 <= j < i ==> foods[j].id != id
      {
        if foods[i].id == id {
          if foods[i].userId != currentUser.value.id {
            return Forbidden;
          }
          var updated := foods[i := UpdatedFood(foods[i], req)];
          if !saveOk {
            return Internal;
          }
          foods := updated;
          return Ok(foods[i]);
        }
      }
      return NotFound;
    }

    method DeleteFood(id: string, saveOk: bool) returns (r: Response<()>)
      requires currentUser.Some?
      modifies this`foods
      ensures FindFood(old(foods), id).None? ==> r == NotFound && foods == old(foods)
      ensures FindFood(old(foods), id).Some? ==>
                var i := FindFood(old(foods), id).value;
                if old(foods)[i].userId != currentUser.value.id then
                  r == Forbidden && foods == old(foods)
                else if !saveOk then
                  r == Internal && foods == old(foods)
                else
                  foods == RemoveAt(old(foods), i) && r == NoContent
    {
      for i := 0 to |foods|
        invariant forall j :: 0 <= j < i ==> foods[j].id != id
      {
        if foods[i].id == id {
          if foods[i].userId != currentUser.value.id {
            return Forbidden;
          }
          var remaining := foods[..i] + foods[i + 1..];
          if !saveOk {
            return Internal;
          }
          foods := remaining;
          return NoContent;
        }
      }
      return NotFound;
    }

    // ------------------------------------------------------------- entries

    method GetEntries(start: DateParam, end: DateParam, mealType: string) returns (r: Response<seq<Entry>>)
      requires currentUser.Some?
      ensures r == Ok(ListEntries(entries, currentUser.value.id, start, end, mealType))
      ensures IsSubsequence(r.value, entries)
      ensures forall e :: e in r.value <==>
                e in entries && Owned(e, currentUser.value.id) && PassesFilters(e, start, end, mealType)
    {
      var uid := currentUser.value.id;
      var userEntries: seq<Entry> := [];
      for i := 0 to |entries|
        invariant userEntries == UserEntries(entries[..i], uid)
      {
        var e := entries[i];
        UserEntriesStep(entries, i, uid, userEntries);
        if e.userId == uid {
          userEntries := userEntries + [e];
        }
      }
      assert entries[..|entries|] == entries;

      var filtered: seq<Entry> := [];
      for i := 0 to |userEntries|
        invariant filtered == FilterEntries(userEntries[..i], start, end, mealType)
      {
        var e := userEntries[i];
        FilterEntriesStep(userEntries, i, start, end, mealType, filtered);
        if !start.Absent? {
          var s := Bound(start);
          if e.eatenAt < s {
            continue;
          }
        }
        if !end.Absent? {
          var t := Bound(end);
          if e.eatenAt > t + SecondsPerDay {
            continue;
          }
        }
        if mealType != "" && e.mealType != mealType {
          continue;
        }
        filtered := filtered + [e];
      }
      assert userEntries[..|userEntries|] == userEntries;
      ListEntriesMembers(entries, uid, start, end, mealType);
      r := Ok(filtered);
    }

    method GetEntry(id: string) returns (r: Response<Entry>)
      requires currentUser.Some?
      ensures FindEntry(entries, id, currentUser.value.id).None? ==> r == NotFound
      ensures FindEntry(entries, id, currentUser.value.id).Some? ==>
                r == Ok(entries[FindEntry(entries, id, currentUser.value.id).value])
      ensures r.Ok? ==> r.value in entries && r.value.id == id && Owned(r.value, currentUser.value.id)
    {
      for i := 0 to |entries|
        invariant forall j :: 0 <= j < i ==> !(entries[j].id == id && Owned(entries[j], currentUser.value.id))
      {
        var e := entries[i];
        if e.id == id && e.userId == currentUser.value.id {
          return Ok(e);
        }
      }
      return NotFound;
    }

    /** The food-lookup loop shared by CreateEntry and UpdateEntry: the first
        food with the id, if any. */
    method LookupFood(id: string) returns (food: Option<Food>)
      ensures FindFood(foods, id).None? ==> food == None
      ensures FindFood(foods, id).Some? ==> food == Some(foods[FindFood(foods, id).value])
    {
      food := None;
      for i := 0 to |foods|
        invariant forall j :: 0 <= j < i ==> foods[j].id != id
      {
        if foods[i].id == id {
          food := Some(foods[i]);
          return;
        }
      }
    }

    method CreateEntry(req: CreateEntryRequest, eatenAt: Option<Time>, freshId: string, now: Time, saveOk: bool)
      returns (r: Response<Entry>)
      requires currentUser.Some?
      modifies this`entries
      ensures FindFood(foods, req.foodId).None? ==> r == NotFound && entries == old(entries)
      ensures FindFood(foods, req.foodId).Some? && eatenAt.None? ==> r == BadRequest && entries == old(entries)
      ensures FindFood(foods, req.foodId).Some? && eatenAt.Some? ==>
                var food := foods[FindFood(foods, req.foodId).value];
                var entry := NewEntry(req, food, freshId, currentUser.value.id, eatenAt.value, now);
                if saveOk then entries == old(entries) + [entry] && r == Created(entry)
                else entries == old(entries) && r == Internal
      ensures r.Created? ==>
                var food := foods[FindFood(foods, req.foodId).value];
                && r.value.foodName == food.name
                && r.value.userId == currentUser.value.id
                && r.value.calories == food.calories * req.quantity
                && r.value.protein == food.protein * req.quantity
                && r.value.carbs == food.carbs * req.quantity
                && r.value.fats == food.fats * req.quantity
    {
      var food := LookupFood(req.foodId);
      if food.None? {
        return NotFound;
      }
      if eatenAt.None? {
        return BadRequest;
      }
      var entry := NewEntry(req, food.value, freshId, currentUser.value.id, eatenAt.value, now);
      if !saveOk {
        return Internal;
      }
      entries := entries + [entry];
      r := Created(entry);
    }

    method UpdateEntry(id: string, req: UpdateEntryRequest, eatenAt: Option<Time>, saveOk: bool)
      returns (r: Response<Entry>)
      requires currentUser.Some?
      modifies this`entries
      ensures FindEntry(old(entries), id, currentUser.value.id).None? ==> r == NotFound && entries == old(entries)
      ensures FindEntry(old(entries), id, currentUser.value.id).Some? ==>
                var i := FindEntry(old(entries), id, currentUser.value.id).value;
                var e := old(entries)[i];
                if FindFood(foods, e.foodId).None? then
                  r == NotFound && entries == old(entries)
                else if eatenAt.None? then
                  r == BadRequest && entries == old(entries)
                else if !saveOk then
                  r == Internal && entries == old(entries)
                else
                  var food := foods[FindFood(foods, e.foodId).value];
                  entries == old(entries)[i := Reweighed(e, food, req, eatenAt.value)] && r == Ok(entries[i])
    {
      for i := 0 to |entries|
        invariant forall j :: 0 <= j < i ==> !(entries[j].id == id && Owned(entries[j], currentUser.value.id))
      {
        var e := entries[i];
        if e.id == id && e.userId == currentUser.value.id {
          var food := LookupFood(e.foodId);
          if food.None? {
            return NotFound;
          }
          if eatenAt.None? {
            return BadRequest;
          }
          var updated := entries[i := Reweighed(e, food.value, req, eatenAt.value)];
          if !saveOk {
            return Internal;
          }
          entries := updated;
          return Ok(entries[i]);
        }
      }
      return NotFound;
    }

    method DeleteEntry(id: string, saveOk: bool) returns (r: Response<()>)
      requires currentUser.Some?
      modifies this`entries
      ensures FindEntry(old(entries), id, currentUser.value.id).None? ==> r == NotFound && entries == old(entries)
      ensures FindEntry(old(entries), id, currentUser.value.id).Some? ==>
                var i := FindEntry(old(entries), id, currentUser.value.id).value;
                if !saveOk then r == Internal && entries == old(entries)
                else entries == RemoveAt(old(entries), i) && r == NoContent
    {
      for i := 0 to |entries|
        invariant forall j :: 0 <= j < i ==> !(entries[j].id == id && Owned(entries[j], currentUser.value.id))
      {
        if entries[i].id == id && entries[i].userId == currentUser.value.id {
          var remaining := entries[..i] + entries[i + 1..];
          if !saveOk {
            return Internal;
          }
          entries := remaining;
          return NoContent;
        }
      }
      return NotFound;
    }

    // ----------------------------------------------------------- nutrition

    method GetDailySummary(dateStr: string, date: Option<Time>) returns (r: Response<NutritionSummary>)
      requires currentUser.Some?
      ensures date.None? ==> r == BadRequest
      ensures date.Some? ==> r == Ok(Summarize(dateStr, DayEntries(entries, currentUser.value.id, Day(date.value))))
      ensures r.Ok? ==>
                && r.value.date == dateStr
                && r.value.calories == Sum(r.value.entries, Calories)
                && r.value.protein == Sum(r.value.entries, Protein)
                && r.value.carbs == Sum(r.value.entries, Carbs)
                && r.value.fats == Sum(r.value.entries, Fats)
    {
      if date.None? {
        return BadRequest;
      }
      var uid := currentUser.value.id;
      var day := Day(date.value);
      var dayEntries: seq<Entry> := [];
      var totalCalories, totalProtein, totalCarbs, totalFats := 0.0, 0.0, 0.0, 0.0;
      for i := 0 to |entries|
        invariant NutritionSummary(dateStr, totalCalories, totalProtein, totalCarbs, totalFats, dayEntries)
               == Summarize(dateStr, DayEntries(entries[..i], uid, day))
      {
        var e := entries[i];
        if e.userId != uid {
          DailySkip(entries, i, uid, day, dateStr, totalCalories, totalProtein, totalCarbs, totalFats, dayEntries);
          continue;
        }
        if Day(e.eatenAt) == day {
          DailyTake(entries, i, uid, day, dateStr, totalCalories, totalProtein, totalCarbs, totalFats, dayEntries);
          dayEntries := dayEntries + [e];
          totalCalories := totalCalories + e.calories;
          totalProtein := totalProtein + e.protein;
          totalCarbs := totalCarbs + e.carbs;
          totalFats := totalFats + e.fats;
        } else {
          DailySkip(entries, i, uid, day, dateStr, totalCalories, totalProtein, totalCarbs, totalFats, dayEntries);
        }
      }
      assert entries[..|entries|] == entries;
      r := Ok(NutritionSummary(dateStr, totalCalories, totalProtein, totalCarbs, totalFats, dayEntries));
    }

    /** The seven empty buckets, keyed by the calendar days `start`,
        `start` - 1 day, ..., `start` - 6 days. */
    static method SeedWeek(start: Time, format: int -> string) returns (buckets: map<int, NutritionSummary>)
      ensures forall d :: d in buckets <==> Day(start) - 7 < d <= Day(start)
      ensures forall d :: d in buckets ==> buckets[d] == Summarize(format(d), [])
    {
      buckets := map[];
      for i := 0 to 7
        invariant forall d :: d in buckets <==> Day(start) - i < d <= Day(start)
        invariant forall d :: d in buckets ==> buckets[d] == Summarize(format(d), [])
      {
        var date := start - i * SecondsPerDay;
        DayMinusDays(start, i);
        var key := Day(date);
        buckets := buckets[key := NutritionSummary(format(key), 0.0, 0.0, 0.0, 0.0, [])];
      }
    }

    /** The aggregation loop of the weekly summary: each of the caller's
        entries inside the window goes to the bucket of its own day, if that
        day has one. */
    method AddToBuckets(seeded: map<int, NutritionSummary>, uid: string, start: Time, format: int -> string)
      returns (buckets: map<int, NutritionSummary>)
      requires forall d :: d in seeded ==> seeded[d] == Summarize(format(d), [])
      ensures buckets.Keys == seeded.Keys
      ensures BucketsHold(buckets, entries, uid, start, format)
    {
      var endDate := start - 7 * SecondsPerDay;
      buckets := seeded;
      forall d | d in buckets
        ensures buckets[d] == Summarize(format(d), WindowEntries(entries[..0], uid, start, d))
      {
      }
      for i := 0 to |entries|
        invariant buckets.Keys == seeded.Keys
        invariant BucketsHold(buckets, entries[..i], uid, start, format)
      {
        var e := entries[i];
        assert entries[..i + 1] == entries[..i] + [e];
        if e.userId != uid {
          SkipEntryStep(buckets, entries[..i], e, uid, start, format);
          continue;
        }
        if e.eatenAt > endDate && e.eatenAt < start + SecondsPerDay {
          var key := Day(e.eatenAt);
          if key in buckets {
            var summary := buckets[key];
            AddEntryStep(buckets, entries[..i], e, uid, start, format);
            buckets := buckets[key := AddEntry(summary, e)];
          } else {
            SkipEntryStep(buckets, entries[..i], e, uid, start, format);
          }
        } else {
          SkipEntryStep(buckets, entries[..i], e, uid, start, format);
        }
      }
      assert entries[..|entries|] == entries;
    }

    method GetWeeklySummary(start: DateParam, now: Time, format: int -> string)
      returns (r: Response<map<int, NutritionSummary>>)
      requires currentUser.Some?
      ensures start.Malformed? <==> r == BadRequest
      ensures !start.Malformed? ==> r == Ok(WeeklySummaries(entries, currentUser.value.id, WeekStart(start, now), format))
      ensures r.Ok? ==> WeeklyShape(r.value, entries, currentUser.value.id, Day(WeekStart(start, now)), format)
    {
      if start.Malformed? {
        return BadRequest;
      }
      var s := if start.Parsed? then start.time else now;
      var uid := currentUser.value.id;
      var buckets := SeedWeek(s, format);
      buckets := AddToBuckets(buckets, uid, s, format);
      BucketsAreWeeklySummaries(buckets, entries, uid, s, format);
      WeeklySummariesShape(entries, uid, s, format);
      r := Ok(buckets);
    }

    method GetGoals() returns (r: Response<NutritionGoals>)
      requires currentUser.Some?
      ensures r == Ok(GoalsOf(currentUser.value))
    {
      var u := currentUser.value;
      r := Ok(NutritionGoals(u.dailyCalorieGoal, u.dailyProteinGoal, u.dailyCarbsGoal, u.dailyFatsGoal));
    }

    method UpdateGoals(goals: NutritionGoals, saveOk: bool) returns (r: Response<NutritionGoals>)
      requires currentUser.Some?
      modifies this`users, this`currentUser
      ensures FindUserById(old(users), old(currentUser).value.id).None? ==>
                r == NotFound && users == old(users) && currentUser == old(currentUser)
      ensures FindUserById(old(users), old(currentUser).value.id).Some? ==>
                var i := FindUserById(old(users), old(currentUser).value.id).value;
                if !saveOk then
                  r == Internal && users == old(users) && currentUser == old(currentUser)
                else
                  && users == old(users)[i := WithGoals(old(users)[i], goals)]
                  && currentUser == Some(WithGoals(old(currentUser).value, goals))
                  && r == Ok(goals)
    {
      for i := 0 to |users|
        invariant forall j :: 0 <= j < i ==> users[j].id != currentUser.value.id
      {
        if users[i].id == currentUser.value.id {
          var updated := users[i := WithGoals(users[i], goals)];
          if !saveOk {
            return Internal;
          }
          users := updated;
          currentUser := Some(WithGoals(currentUser.value, goals));
          return Ok(goals);
        }
      }
      return NotFound;
    }
  }
}
