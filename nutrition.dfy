/** What the nutrition handler (backend/handlers/nutrition.go) computes: the
    entries of one calendar day, their macro totals, the seven buckets of the
    weekly summary, and the goals view of a user. */
module Nutrition {
  import opened Collections
  import opened Models
  import opened Entries

  function Calories(e: Entry): real { e.calories }
  function Protein(e: Entry): real { e.protein }
  function Carbs(e: Entry): real { e.carbs }
  function Fats(e: Entry): real { e.fats }

  /** The caller's entries eaten on calendar day `day`, in stored order. */
  function DayEntries(entries: seq<Entry>, uid: string, day: int): seq<Entry>
  {
    Filter(entries, (e: Entry) => Owned(e, uid) && Day(e.eatenAt) == day)
  }

  /** A day's entries are the caller's entries eaten on that day, kept in
      stored order. */
  lemma DayEntriesMembers(entries: seq<Entry>, uid: string, day: int)
    ensures var r := DayEntries(entries, uid, day);
            && (forall k :: 0 <= k < |r| ==> r[k] in entries && Owned(r[k], uid) && Day(r[k].eatenAt) == day)
            && (forall k :: 0 <= k < |entries| ==>
                  (entries[k] in r <==> Owned(entries[k], uid) && Day(entries[k].eatenAt) == day))
            && IsSubsequence(r, entries)
  {
    FilterIsSubsequence(entries, (e: Entry) => Owned(e, uid) && Day(e.eatenAt) == day);
  }

  /** A day's entries keep every copy of each of them. */
  lemma DayEntriesCounts(entries: seq<Entry>, uid: string, day: int)
    ensures forall e :: multiset(DayEntries(entries, uid, day))[e]
                        == if Owned(e, uid) && Day(e.eatenAt) == day then multiset(entries)[e] else 0
  {
    FilterCounts(entries, (e: Entry) => Owned(e, uid) && Day(e.eatenAt) == day);
  }

  lemma DayEntriesSnoc(entries: seq<Entry>, e: Entry, uid: string, day: int)
    ensures DayEntries(entries + [e], uid, day)
         == DayEntries(entries, uid, day) + (if Owned(e, uid) && Day(e.eatenAt) == day then [e] else [])
  {
    FilterSnoc(entries, e, (x: Entry) => Owned(x, uid) && Day(x.eatenAt) == day);
  }

  /** A summary labelled `date` whose totals are the sums of the macros of
      `es`. */
  function Summarize(date: string, es: seq<Entry>): NutritionSummary
  {
    NutritionSummary(date, Sum(es, Calories), Sum(es, Protein), Sum(es, Carbs), Sum(es, Fats), es)
  }

  /** Adding an entry to a summary, as the handlers do field by field. */
  lemma SummarizeSnoc(date: string, es: seq<Entry>, e: Entry)
    ensures Summarize(date, es + [e])
         == Summarize(date, es).(calories := Sum(es, Calories) + e.calories,
                                 protein := Sum(es, Protein) + e.protein,
                                 carbs := Sum(es, Carbs) + e.carbs,
                                 fats := Sum(es, Fats) + e.fats,
                                 entries := es + [e])
  {
    SumSnoc(es, e, Calories);
    SumSnoc(es, e, Protein);
    SumSnoc(es, e, Carbs);
    SumSnoc(es, e, Fats);
  }

  /** The seven calendar days of a week that ends on `lastDay`. */
  function WeekDays(lastDay: int): set<int>
  {
    var d := lastDay;
    {d, d - 1, d - 2, d - 3, d - 4, d - 5, d - 6}
  }

  /** The week is the seven consecutive days up to and including `lastDay`. */
  lemma WeekDaysSpan(lastDay: int)
    ensures |WeekDays(lastDay)| == 7
    ensures forall d :: d in WeekDays(lastDay) <==> lastDay - 6 <= d <= lastDay
  {
  }

  /** Stepping back whole days from an instant steps back its calendar day. */
  lemma DayMinusDays(t: Time, i: int)
    ensures Day(t - i * SecondsPerDay) == Day(t) - i
  {
    var q, r := t / SecondsPerDay, t % SecondsPerDay;
    assert t == q * SecondsPerDay + r && 0 <= r < SecondsPerDay;
    assert t - i * SecondsPerDay == (q - i) * SecondsPerDay + r;
  }

  /** The instants the weekly loop admits, `(start - 7 days, start + 24 hours)`
      exclusive at both ends, as coded. */
  predicate InWindow(t: Time, start: Time)
  {
    start - 7 * SecondsPerDay < t < start + SecondsPerDay
  }

  /** Every instant on one of the seven bucket days lies in the window, so the
      window test never drops an entry that has a bucket. */
  lemma WeekDayInWindow(t: Time, start: Time)
    requires Day(start) - 6 <= Day(t) <= Day(start)
    ensures InWindow(t, start)
  {
    var qs, rs := start / SecondsPerDay, start % SecondsPerDay;
    var qt, rt := t / SecondsPerDay, t % SecondsPerDay;
    assert start == qs * SecondsPerDay + rs && 0 <= rs < SecondsPerDay;
    assert t == qt * SecondsPerDay + rt && 0 <= rt < SecondsPerDay;
    assert (qs - 6) * SecondsPerDay <= qt * SecondsPerDay <= qs * SecondsPerDay;
  }

  /** The window alone admits days outside the week (the day before the first
      bucket, and the day after the last when `start` is not a midnight): the
      bucket lookup is what keeps them out. */
  lemma WindowIsWiderThanWeek()
    ensures InWindow(-7 * SecondsPerDay + 1, 0) && Day(-7 * SecondsPerDay + 1) !in WeekDays(0)
    ensures InWindow(SecondsPerDay, 1) && Day(SecondsPerDay) !in WeekDays(Day(1))
  {
  }

  /** The entries the weekly loop adds to bucket `day`, tested as coded. */
  function WindowEntries(entries: seq<Entry>, uid: string, start: Time, day: int): seq<Entry>
  {
    Filter(entries, (e: Entry) => Owned(e, uid) && InWindow(e.eatenAt, start) && Day(e.eatenAt) == day)
  }

  lemma WindowEntriesSnoc(entries: seq<Entry>, e: Entry, uid: string, start: Time, day: int)
    ensures WindowEntries(entries + [e], uid, start, day)
         == WindowEntries(entries, uid, start, day)
            + (if Owned(e, uid) && InWindow(e.eatenAt, start) && Day(e.eatenAt) == day then [e] else [])
  {
    FilterSnoc(entries, e, (x: Entry) => Owned(x, uid) && InWindow(x.eatenAt, start) && Day(x.eatenAt) == day);
  }

  /** Every bucket holds the summary of the entries of `es` the weekly loop
      has put there so far. */
  ghost predicate BucketsHold(buckets: map<int, NutritionSummary>, es: seq<Entry>, uid: string, start: Time, format: int -> string)
  {
    forall d :: d in buckets ==> buckets[d] == Summarize(format(d), WindowEntries(es, uid, start, d))
  }

  /** A loop step that adds `e` to no bucket keeps every bucket right, when
      `e` belongs to none of them. */
  lemma SkipEntryStep(buckets: map<int, NutritionSummary>, es: seq<Entry>, e: Entry, uid: string, start: Time, format: int -> string)
    requires BucketsHold(buckets, es, uid, start, format)
    requires !(Owned(e, uid) && InWindow(e.eatenAt, start) && Day(e.eatenAt) in buckets)
    ensures BucketsHold(buckets, es + [e], uid, start, format)
  {
    forall d | d in buckets
      ensures buckets[d] == Summarize(format(d), WindowEntries(es + [e], uid, start, d))
    {
      WindowEntriesSnoc(es, e, uid, start, d);
      assert !(Owned(e, uid) && InWindow(e.eatenAt, start) && Day(e.eatenAt) == d);
      assert WindowEntries(es + [e], uid, start, d) == WindowEntries(es, uid, start, d);
    }
  }

  /** A summary after the weekly loop adds `e` to it, field by field. */
  function AddEntry(b: NutritionSummary, e: Entry): NutritionSummary
  {
    b.(calories := b.calories + e.calories, protein := b.protein + e.protein,
       carbs := b.carbs + e.carbs, fats := b.fats + e.fats, entries := b.entries + [e])
  }

  /** Adding an entry field by field to a summary of `es` gives the summary of
      `es` followed by that entry. */
  lemma AddEntrySummarizes(date: string, es: seq<Entry>, e: Entry)
    ensures AddEntry(Summarize(date, es), e) == Summarize(date, es + [e])
  {
    SummarizeSnoc(date, es, e);
  }

  /** An admitted entry joins the window entries of its own day ... */
  lemma WindowEntriesOwnDay(es: seq<Entry>, e: Entry, uid: string, start: Time)
    requires Owned(e, uid) && InWindow(e.eatenAt, start)
    ensures WindowEntries(es + [e], uid, start, Day(e.eatenAt)) == WindowEntries(es, uid, start, Day(e.eatenAt)) + [e]
  {
    WindowEntriesSnoc(es, e, uid, start, Day(e.eatenAt));
  }

  /** ... and leaves those of every other day as they were. */
  lemma WindowEntriesOtherDay(es: seq<Entry>, e: Entry, uid: string, start: Time, d: int)
    requires Day(e.eatenAt) != d
    ensures WindowEntries(es + [e], uid, start, d) == WindowEntries(es, uid, start, d)
  {
    WindowEntriesSnoc(es, e, uid, start, d);
    assert WindowEntries(es, uid, start, d) + [] == WindowEntries(es, uid, start, d);
  }

  /** One step of the daily loop that takes `entries[i]`, owned by the
      caller and eaten on `day`: adding it to the running totals and list
      keeps them the summary of the day's entries seen so far. */
  lemma DailyTake(entries: seq<Entry>, i: nat, uid: string, day: int, date: string,
                  calories: real, protein: real, carbs: real, fats: real, es: seq<Entry>)
    requires i < |entries| && Owned(entries[i], uid) && Day(entries[i].eatenAt) == day
    requires NutritionSummary(date, calories, protein, carbs, fats, es) == Summarize(date, DayEntries(entries[..i], uid, day))
    ensures var e := entries[i];
            NutritionSummary(date, calories + e.calories, protein + e.protein, carbs + e.carbs, fats + e.fats, es + [e])
            == Summarize(date, DayEntries(entries[..i + 1], uid, day))
  {
    var e := entries[i];
    assert entries[..i + 1] == entries[..i] + [e];
    DayEntriesSnoc(entries[..i], e, uid, day);
    AddEntrySummarizes(date, DayEntries(entries[..i], uid, day), e);
  }

  /** One step of the daily loop that passes over `entries[i]`, owned by
      someone else or eaten on another day: the running totals and list stay
      the summary of the day's entries seen so far. */
  lemma DailySkip(entries: seq<Entry>, i: nat, uid: string, day: int, date: string,
                  calories: real, protein: real, carbs: real, fats: real, es: seq<Entry>)
    requires i < |entries| && !(Owned(entries[i], uid) && Day(entries[i].eatenAt) == day)
    requires NutritionSummary(date, calories, protein, carbs, fats, es) == Summarize(date, DayEntries(entries[..i], uid, day))
    ensures NutritionSummary(date, calories, protein, carbs, fats, es) == Summarize(date, DayEntries(entries[..i + 1], uid, day))
  {
    var e := entries[i];
    assert entries[..i + 1] == entries[..i] + [e];
    DayEntriesSnoc(entries[..i], e, uid, day);
    assert DayEntries(entries[..i], uid, day) + [] == DayEntries(entries[..i], uid, day);
  }

  /** A loop step that adds `e` to the bucket of its day keeps every bucket
      right. */
  lemma AddEntryStep(buckets: map<int, NutritionSummary>, es: seq<Entry>, e: Entry, uid: string, start: Time, format: int -> string)
    requires BucketsHold(buckets, es, uid, start, format)
    requires Owned(e, uid) && InWindow(e.eatenAt, start) && Day(e.eatenAt) in buckets
    ensures BucketsHold(buckets[Day(e.eatenAt) := AddEntry(buckets[Day(e.eatenAt)], e)], es + [e], uid, start, format)
  {
    var key := Day(e.eatenAt);
    var nb := buckets[key := AddEntry(buckets[key], e)];
    forall d | d in nb
      ensures nb[d] == Summarize(format(d), WindowEntries(es + [e], uid, start, d))
    {
      if d == key {
        AddEntrySummarizes(format(key), WindowEntries(es, uid, start, key), e);
        WindowEntriesOwnDay(es, e, uid, start);
      } else {
        WindowEntriesOtherDay(es, e, uid, start, d);
      }
    }
  }

  /** Two maps with the same keys and the same value at every key are equal. */
  lemma MapsAgree<K, V>(a: map<K, V>, b: map<K, V>)
    requires a.Keys == b.Keys
    requires forall k :: k in a ==> a[k] == b[k]
    ensures a == b
  {
  }

  /** After the loop, the buckets are the weekly summary. */
  lemma BucketsAreWeeklySummaries(buckets: map<int, NutritionSummary>, entries: seq<Entry>, uid: string, start: Time, format: int -> string)
    requires forall d :: d in buckets <==> Day(start) - 7 < d <= Day(start)
    requires BucketsHold(buckets, entries, uid, start, format)
    ensures buckets == WeeklySummaries(entries, uid, start, format)
  {
    var w := WeeklySummaries(entries, uid, start, format);
    WeekDaysSpan(Day(start));
    assert forall d :: d in w <==> Day(start) - 6 <= d <= Day(start);
    assert buckets.Keys == w.Keys;
    forall d | d in buckets
      ensures buckets[d] == w[d]
    {
      WindowEntriesAreDayEntries(entries, uid, start, d);
    }
    MapsAgree(buckets, w);
  }

  /** A weekly result has seven buckets, one for each day of the week ending
      on `lastDay`, each labelled by its day and holding that day's entries of
      the caller with their totals. */
  ghost predicate WeeklyShape(w: map<int, NutritionSummary>, entries: seq<Entry>, uid: string, lastDay: int, format: int -> string)
  {
    && |w| == 7
    && (forall d :: d in w <==> lastDay - 6 <= d <= lastDay)
    && (forall d :: d in w ==>
          && w[d].date == format(d)
          && w[d].entries == DayEntries(entries, uid, d)
          && w[d].calories == Sum(w[d].entries, Calories)
          && w[d].protein == Sum(w[d].entries, Protein)
          && w[d].carbs == Sum(w[d].entries, Carbs)
          && w[d].fats == Sum(w[d].entries, Fats))
  }

  lemma WeeklySummariesShape(entries: seq<Entry>, uid: string, start: Time, format: int -> string)
    ensures WeeklyShape(WeeklySummaries(entries, uid, start, format), entries, uid, Day(start), format)
  {
    var w := WeeklySummaries(entries, uid, start, format);
    WeekDaysSpan(Day(start));
    assert w.Keys == WeekDays(Day(start));
  }

  /** For every bucket day, the window test is redundant: the bucket holds
      exactly that day's entries of the caller. */
  lemma WindowEntriesAreDayEntries(entries: seq<Entry>, uid: string, start: Time, day: int)
    requires Day(start) - 6 <= day <= Day(start)
    ensures WindowEntries(entries, uid, start, day) == DayEntries(entries, uid, day)
  {
    var p := (e: Entry) => Owned(e, uid) && InWindow(e.eatenAt, start) && Day(e.eatenAt) == day;
    var q := (e: Entry) => Owned(e, uid) && Day(e.eatenAt) == day;
    forall k | 0 <= k < |entries|
      ensures p(entries[k]) == q(entries[k])
    {
      if Day(entries[k].eatenAt) == day {
        WeekDayInWindow(entries[k].eatenAt, start);
      }
    }
    FilterAgree(entries, p, q);
  }

  /** The instant the week ends on: the parsed start_date, or the clock when
      none is given. */
  function WeekStart(start: DateParam, now: Time): Time
    requires !start.Malformed?
  {
    if start.Parsed? then start.time else now
  }

  /** The weekly summary as a map from calendar day to bucket: one bucket per
      day of the week ending on `start`'s day, labelled by `format`. */
  function WeeklySummaries(entries: seq<Entry>, uid: string, start: Time, format: int -> string): map<int, NutritionSummary>
  {
    map d | d in WeekDays(Day(start)) :: Summarize(format(d), DayEntries(entries, uid, d))
  }

  /** The position of the first stored user with the given id. */
  function FindUserById(users: seq<User>, id: string): (r: Option<nat>)
    ensures r.Some? ==> r.value < |users| && users[r.value].id == id
    ensures r.Some? ==> forall j :: 0 <= j < r.value ==> users[j].id != id
    ensures r.None? <==> forall j :: 0 <= j < |users| ==> users[j].id != id
  {
    FirstIndex(users, (u: User) => u.id == id)
  }

  function GoalsOf(u: User): NutritionGoals
  {
    NutritionGoals(u.dailyCalorieGoal, u.dailyProteinGoal, u.dailyCarbsGoal, u.dailyFatsGoal)
  }

  /** `u` with its four goals replaced; every other field is kept, and reading
      the goals back gives `g`. */
  function WithGoals(u: User, g: NutritionGoals): (r: User)
    ensures GoalsOf(r) == g
    ensures r.id == u.id && r.email == u.email && r.name == u.name
    ensures r.password == u.password && r.createdAt == u.createdAt
  {
    u.(dailyCalorieGoal := g.dailyCalorieGoal, dailyProteinGoal := g.dailyProteinGoal,
       dailyCarbsGoal := g.dailyCarbsGoal, dailyFatsGoal := g.dailyFatsGoal)
  }
}
