/** What the entry handler (backend/handlers/entries.go) computes: ownership,
    the date and meal filters of the listing, the lookup by id and owner, and
    the records that create and update write. */
module Entries {
  import opened Collections
  import opened Models

  predicate Owned(e: Entry, uid: string)
  {
    e.userId == uid
  }

  /** The caller's entries, in stored order (the first listing loop). */
  function UserEntries(entries: seq<Entry>, uid: string): (r: seq<Entry>)
    ensures forall k :: 0 <= k < |r| ==> r[k] in entries && Owned(r[k], uid)
    ensures forall k :: 0 <= k < |entries| ==> (entries[k] in r <==> Owned(entries[k], uid))
    ensures IsSubsequence(r, entries)
  {
    FilterIsSubsequence(entries, (e: Entry) => Owned(e, uid));
    Filter(entries, (e: Entry) => Owned(e, uid))
  }

  /** The caller's entries keep every copy of each of them. */
  lemma UserEntriesCounts(entries: seq<Entry>, uid: string)
    ensures forall e :: multiset(UserEntries(entries, uid))[e] == if Owned(e, uid) then multiset(entries)[e] else 0
  {
    FilterCounts(entries, (e: Entry) => Owned(e, uid));
  }

  lemma UserEntriesSnoc(entries: seq<Entry>, e: Entry, uid: string)
    ensures UserEntries(entries + [e], uid)
         == UserEntries(entries, uid) + (if Owned(e, uid) then [e] else [])
  {
    FilterSnoc(entries, e, (x: Entry) => Owned(x, uid));
  }

  /** One step of the first listing loop over `entries[i]`. */
  lemma UserEntriesStep(entries: seq<Entry>, i: nat, uid: string, acc: seq<Entry>)
    requires i < |entries| && acc == UserEntries(entries[..i], uid)
    ensures Owned(entries[i], uid) ==> acc + [entries[i]] == UserEntries(entries[..i + 1], uid)
    ensures !Owned(entries[i], uid) ==> acc == UserEntries(entries[..i + 1], uid)
  {
    assert entries[..i + 1] == entries[..i] + [entries[i]];
    UserEntriesSnoc(entries[..i], entries[i], uid);
    assert acc + [] == acc;
  }

  /** The bound a given date filter compares against. The handler drops the
      parse error, so a malformed date still yields Go's zero time. */
  function Bound(p: DateParam): Time
    requires !p.Absent?
  {
    if p.Malformed? then GoZeroTime else p.time
  }

  /** start_date: the entry is not strictly before the start. */
  predicate AfterStart(e: Entry, start: DateParam)
  {
    start.Absent? || e.eatenAt >= Bound(start)
  }

  /** end_date: the entry is not strictly after 24 hours past the end date's
      midnight, so an entry exactly at that instant is kept. */
  predicate BeforeEnd(e: Entry, end: DateParam)
  {
    end.Absent? || e.eatenAt <= Bound(end) + SecondsPerDay
  }

  /** The end date is inclusive through the instant 24 hours past its
      midnight; an entry at that instant is kept, one a second later is not. */
  lemma EndBoundIsInclusive(e: Entry, end: Time)
    ensures BeforeEnd(e.(eatenAt := end + SecondsPerDay), Parsed(end))
    ensures !BeforeEnd(e.(eatenAt := end + SecondsPerDay + 1), Parsed(end))
  {
  }

  /** A malformed date is not ignored: as a start bound it admits every entry
      from year 1 on, and as an end bound it drops every entry after the
      second day of year 1. */
  lemma MalformedBounds(e: Entry)
    ensures e.eatenAt >= GoZeroTime ==> AfterStart(e, Malformed)
    ensures e.eatenAt > GoZeroTime + SecondsPerDay ==> !BeforeEnd(e, Malformed)
  {
  }

  predicate MealMatches(e: Entry, mealType: string)
  {
    mealType == "" || e.mealType == mealType
  }

  predicate PassesFilters(e: Entry, start: DateParam, end: DateParam, mealType: string)
  {
    AfterStart(e, start) && BeforeEnd(e, end) && MealMatches(e, mealType)
  }

  /** The second listing loop, over the caller's entries. */
  function FilterEntries(es: seq<Entry>, start: DateParam, end: DateParam, mealType: string): seq<Entry>
  {
    Filter(es, (e: Entry) => PassesFilters(e, start, end, mealType))
  }

  lemma FilterEntriesSnoc(es: seq<Entry>, e: Entry, start: DateParam, end: DateParam, mealType: string)
    ensures FilterEntries(es + [e], start, end, mealType)
         == FilterEntries(es, start, end, mealType) + (if PassesFilters(e, start, end, mealType) then [e] else [])
  {
    FilterSnoc(es, e, (x: Entry) => PassesFilters(x, start, end, mealType));
  }

  /** One step of the second listing loop over `es[i]`. */
  lemma FilterEntriesStep(es: seq<Entry>, i: nat, start: DateParam, end: DateParam, mealType: string, acc: seq<Entry>)
    requires i < |es| && acc == FilterEntries(es[..i], start, end, mealType)
    ensures PassesFilters(es[i], start, end, mealType) ==> acc + [es[i]] == FilterEntries(es[..i + 1], start, end, mealType)
    ensures !PassesFilters(es[i], start, end, mealType) ==> acc == FilterEntries(es[..i + 1], start, end, mealType)
  {
    assert es[..i + 1] == es[..i] + [es[i]];
    FilterEntriesSnoc(es[..i], es[i], start, end, mealType);
    assert acc + [] == acc;
  }

  /** Filtering the caller's entries keeps, in stored order, exactly the
      stored entries the caller owns that pass the filters. */
  lemma FilterEntriesOfMine(mine: seq<Entry>, entries: seq<Entry>, uid: string, start: DateParam, end: DateParam, mealType: string)
    requires mine == UserEntries(entries, uid)
    ensures var r := FilterEntries(mine, start, end, mealType);
            && (forall k :: 0 <= k < |r| ==> r[k] in entries && Owned(r[k], uid) && PassesFilters(r[k], start, end, mealType))
            && (forall k :: 0 <= k < |entries| ==>
                  (entries[k] in r <==> Owned(entries[k], uid) && PassesFilters(entries[k], start, end, mealType)))
            && IsSubsequence(r, entries)
  {
    var p := (e: Entry) => PassesFilters(e, start, end, mealType);
    assert FilterEntries(mine, start, end, mealType) == Filter(mine, p);
    FilterIsSubsequence(mine, p);
    SubsequenceTransitive(Filter(mine, p), mine, entries);
    forall k | 0 <= k < |entries| && entries[k] in mine
      ensures entries[k] in Filter(mine, p) <==> p(entries[k])
    {
      var j :| 0 <= j < |mine| && mine[j] == entries[k];
      assert mine[j] in Filter(mine, p) <==> p(mine[j]);
    }
  }

  /** The listing: exactly the caller's entries that pass the three filters,
      in stored order. */
  function ListEntries(entries: seq<Entry>, uid: string, start: DateParam, end: DateParam, mealType: string): (r: seq<Entry>)
    ensures forall k :: 0 <= k < |r| ==> r[k] in entries && Owned(r[k], uid) && PassesFilters(r[k], start, end, mealType)
    ensures forall k :: 0 <= k < |entries| ==>
              (entries[k] in r <==> Owned(entries[k], uid) && PassesFilters(entries[k], start, end, mealType))
    ensures IsSubsequence(r, entries)
  {
    var mine := UserEntries(entries, uid);
    FilterEntriesOfMine(mine, entries, uid, start, end, mealType);
    FilterEntries(mine, start, end, mealType)
  }

  /** The listing keeps every copy of a listed entry and none of the others. */
  lemma ListEntriesCounts(entries: seq<Entry>, uid: string, start: DateParam, end: DateParam, mealType: string)
    ensures forall e :: multiset(ListEntries(entries, uid, start, end, mealType))[e] ==
              if Owned(e, uid) && PassesFilters(e, start, end, mealType) then multiset(entries)[e] else 0
  {
    var mine := UserEntries(entries, uid);
    UserEntriesCounts(entries, uid);
    FilterCounts(mine, (e: Entry) => PassesFilters(e, start, end, mealType));
    assert ListEntries(entries, uid, start, end, mealType)
        == Filter(mine, (e: Entry) => PassesFilters(e, start, end, mealType));
  }

  /** The listing holds an entry exactly when it is stored, the caller owns it
      and it passes the filters. */
  lemma ListEntriesMembers(entries: seq<Entry>, uid: string, start: DateParam, end: DateParam, mealType: string)
    ensures forall e :: e in ListEntries(entries, uid, start, end, mealType) <==>
              e in entries && Owned(e, uid) && PassesFilters(e, start, end, mealType)
  {
    var r := ListEntries(entries, uid, start, end, mealType);
    forall e | e in entries
      ensures e in r <==> Owned(e, uid) && PassesFilters(e, start, end, mealType)
    {
      var k :| 0 <= k < |entries| && entries[k] == e;
    }
  }

  /** The position of the first entry with the given id that the caller owns. */
  function FindEntry(entries: seq<Entry>, id: string, uid: string): (r: Option<nat>)
    ensures r.Some? ==> r.value < |entries| && entries[r.value].id == id && Owned(entries[r.value], uid)
    ensures r.Some? ==> forall j :: 0 <= j < r.value ==> !(entries[j].id == id && Owned(entries[j], uid))
    ensures r.None? <==> forall j :: 0 <= j < |entries| ==> !(entries[j].id == id && Owned(entries[j], uid))
  {
    FirstIndex(entries, (e: Entry) => e.id == id && Owned(e, uid))
  }

  /** The entry CreateEntry appends: the request's food, quantity and meal,
      the food's name, and the food's macros scaled by the quantity. */
  function NewEntry(req: CreateEntryRequest, food: Food, id: string, uid: string, eatenAt: Time, now: Time): Entry
  {
    Entry(id, uid, req.foodId, food.name, req.quantity, req.mealType, eatenAt,
          food.calories * req.quantity, food.protein * req.quantity,
          food.carbs * req.quantity, food.fats * req.quantity, now)
  }

  /** `e` after UpdateEntry: new quantity, meal and time, macros recomputed
      from `food` (the entry's own food) and the new quantity. */
  function Reweighed(e: Entry, food: Food, req: UpdateEntryRequest, eatenAt: Time): (r: Entry)
    ensures r.quantity == req.quantity && r.mealType == req.mealType && r.eatenAt == eatenAt
    ensures r.id == e.id && r.userId == e.userId && r.foodId == e.foodId
    ensures r.foodName == e.foodName && r.createdAt == e.createdAt
    ensures r.calories == food.calories * r.quantity && r.protein == food.protein * r.quantity
    ensures r.carbs == food.carbs * r.quantity && r.fats == food.fats * r.quantity
  {
    e.(quantity := req.quantity, mealType := req.mealType, eatenAt := eatenAt,
       calories := food.calories * req.quantity, protein := food.protein * req.quantity,
       carbs := food.carbs * req.quantity, fats := food.fats * req.quantity)
  }
}
