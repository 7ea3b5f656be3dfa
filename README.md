# myjunkpal handlers in Dafny

A model of the request handlers of the myjunkpal nutrition tracker, a Go
web service. Its users register and log in, keep a catalog of foods (shared
system foods plus their own), log entries ("ate 2 servings of Apple at
breakfast"), and read daily and weekly macro totals and their goals.

Every handler loads a whole collection (users, foods or entries), runs a
linear filter, lookup or sum over it, and may change it and write it back.
The model is one class, `Server.App`. Its fields are the three stored
collections and the process-wide current-user slot. Each handler is a
method of that class and returns a `Response` datatype whose variants
mirror the HTTP outcomes (Ok, Created, NoContent, BadRequest, Unauthorized,
Forbidden, NotFound, Conflict, Internal).

Each method is proved against functions of the stored state: the
visibility and filter predicates of the food catalog, the date and meal
filters of the entry listing, the day filter and sums of the summaries.
Lemmas about those functions prove the properties the handlers promise:
listings are order-preserving subsequences that keep every included
element as often as it is stored, e-mail addresses stay distinct, and
totals are the sums over exactly the included entries. They
also prove that the weekly window test never drops an entry whose day has
a bucket.

Files:

- `collections.dfy`: order-preserving filter, subsequence, first match,
  splice removal and sums.
- `models.dfy`: the records, time as integer seconds, the response type.
- `auth.dfy`, `foods.dfy`, `entries.dfy`, `nutrition.dfy`: what each
  handler file computes.
- `server.dfy`: the handlers as methods of `App`.
- `walkthrough.dfy`: one session from a fresh server.

Modelling conventions:

- A load reads a field.
- A save assigns the field. A `saveOk` parameter says whether the save
  succeeds; when it fails the handler answers Internal and the state stays
  as it was.
- The authentication middleware (backend/main.go:33-51) guards every
  handler except Register and Login. It is the precondition
  `currentUser.Some?` on each guarded handler except GetCurrentUser, which
  repeats the nil check itself (backend/handlers/auth.go:99-102) and so is
  modelled without the precondition, answering Unauthorized when nobody is
  logged in.
- Fresh ids (`uuid.New`), the clock (`time.Now`), and the results of time
  parsing are parameters.
- Time is integer seconds since the Unix epoch in one fixed offset, and the
  calendar day of `t` is `t / 86400`, rounded down.

Two behaviours of the entry listing's date filters follow the code as
written:

- The end_date filter keeps an entry eaten exactly 24 hours after the end
  date's midnight, because it drops only entries strictly after that
  instant (backend/handlers/entries.go:51-52, `Entries.EndBoundIsInclusive`).
- A date filter that does not parse is not ignored. The parse error is
  discarded (backend/handlers/entries.go:44 and 51) and Go's zero time
  (0001-01-01) is used as the bound. As a start bound this admits
  everything; as an end bound it drops every entry later than the second
  day of year 1 (`Entries.MalformedBounds`).

## Model

| member | source | states |
|---|---|---|
| Server.App.constructor | backend/handlers/auth.go:14 | the server starts with the stored collections and nobody logged in |
| Server.App.Register | backend/handlers/auth.go:24-71 | a taken e-mail gives Conflict and no change; a failed save gives Internal and no change; otherwise exactly one new user goes at the end, with the request's e-mail, name and password and goals 2000/150/250/65; the current user becomes that user without its password, and distinct e-mails stay distinct |
| Auth.RegisterKeepsEmailsDistinct | backend/handlers/auth.go:36-56 | appending an account whose e-mail is not taken keeps all e-mails pairwise distinct |
| Auth.Redacted | backend/handlers/auth.go:65-68 | the copy that leaves the server has an empty password and agrees with the stored user on every other field |
| Auth.FindLogin | backend/handlers/auth.go:85-93 | the chosen account is the first in stored order whose e-mail and password both equal the request's; none is chosen exactly when no account matches |
| Server.App.Login | backend/handlers/auth.go:73-96 | login succeeds exactly when some account matches; on success the current user is the first match without its password; on failure Unauthorized and the current user is untouched |
| Server.App.GetCurrentUser | backend/handlers/auth.go:98-108 | Unauthorized exactly when nobody is logged in; otherwise the current user with an empty password |
| Foods.LowerCharSame | handlers/foods.go:40-44 | two characters lower-case to the same character exactly when they are equal or are the upper- and lower-case forms of one ASCII letter |
| Foods.ToLowerHasNoUpper | handlers/foods.go:40 | a lower-cased string holds no ASCII upper-case letter |
| Foods.ToLowerIdempotent | handlers/foods.go:40 | lower-casing an already lower-cased string changes nothing |
| Foods.EqualFoldIff | handlers/foods.go:44 | the category test holds exactly when both strings have the same length and agree at every position up to ASCII case |
| Foods.ContainsIff | handlers/foods.go:40 | the substring test holds exactly when the query stands at some position of the name |
| Foods.ListFoods | handlers/foods.go:33-49 | the listing is an order-preserving subsequence of the catalog holding exactly the foods that are system or own foods and pass the name and category filters |
| Foods.ListFoodsCounts | handlers/foods.go:33-49 | a listed food occurs in the listing as often as in the catalog, and an unlisted one not at all |
| Server.App.GetFoods | handlers/foods.go:24-53 | the filter loop returns exactly that listing: a subsequence of the catalog, and a food is in it exactly when it is visible to the caller and passes both filters |
| Foods.FindFood | handlers/foods.go:62-63 | the index found is that of the first food with the id; none exactly when no food has it |
| Server.App.GetFood | handlers/foods.go:55-77 | the first food with the id is returned when it is visible to the caller; an unknown id or another user's private food gives NotFound |
| Foods.NewFood | handlers/foods.go:89-101 | a created food has the fresh id, the caller as owner and the clock's time |
| Server.App.CreateFood | handlers/foods.go:79-113 | one food built from the request and owned by the caller is appended; earlier foods are unchanged; a failed save changes nothing |
| Foods.UpdatedFood | handlers/foods.go:136-144 | an update keeps the food's id, owner and creation time and takes every other field from the request |
| Server.App.UpdateFood | handlers/foods.go:115-158 | an unknown id gives NotFound; a food the caller does not own, system foods included, gives Forbidden; in both cases and on a failed save nothing changes; otherwise only the first food with the id is rewritten |
| Collections.RemoveAt | handlers/foods.go:176 | removal drops exactly the element at the index and keeps the others in order |
| Server.App.DeleteFood | handlers/foods.go:160-189 | an unknown id gives NotFound, another owner Forbidden, a failed save Internal, all with no change; otherwise exactly the first food with the id is removed and the order of the rest is kept |
| Collections.Filter | handlers/foods.go:33-49 | the filtered sequence holds exactly the elements that satisfy the predicate |
| Collections.FilterCounts | handlers/foods.go:33-49 | every element that satisfies the predicate occurs in the filtered sequence as often as in the input, and every other element not at all |
| Collections.FilterIsSubsequence | handlers/foods.go:33-49 | a filtered sequence is an order-preserving subsequence of its input |
| Collections.SubsequenceTransitive | backend/handlers/entries.go:28-62 | filtering an already filtered sequence still gives a subsequence of the original |
| Entries.UserEntries | backend/handlers/entries.go:27-33 | the first loop keeps exactly the caller's entries, in stored order |
| Entries.UserEntriesCounts | backend/handlers/entries.go:27-33 | each of the caller's entries is kept as often as it is stored, and no other entry is kept |
| Entries.UserEntriesStep | backend/handlers/entries.go:29-33 | each step of the first loop keeps the collected list equal to the caller's entries seen so far |
| Entries.EndBoundIsInclusive | backend/handlers/entries.go:50-55 | the end date keeps an entry exactly 24 hours after its midnight and drops one a second later |
| Entries.MalformedBounds | backend/handlers/entries.go:43-55 | a malformed date is used as year 1: as the start it admits every later entry, as the end it drops every entry after the second day of year 1 |
| Entries.FilterEntriesOfMine | backend/handlers/entries.go:39-62 | filtering the caller's entries by date and meal gives a subsequence of all stored entries that holds exactly the caller's entries passing the filters |
| Entries.ListEntries | backend/handlers/entries.go:27-62 | the listing is a subsequence of the stored entries holding exactly those the caller owns that pass the start, end and meal filters |
| Entries.ListEntriesCounts | backend/handlers/entries.go:27-62 | an entry the caller owns that passes the filters is listed as often as it is stored; any other entry is not listed |
| Entries.ListEntriesMembers | backend/handlers/entries.go:27-62 | an entry is listed exactly when it is stored, the caller owns it, and it passes the filters |
| Server.App.GetEntries | backend/handlers/entries.go:23-66 | the two loops return exactly that listing: a subsequence of the stored entries, and an entry is in it exactly when the caller owns it and it passes the filters |
| Entries.FindEntry | backend/handlers/entries.go:75-76 | the index found is the first entry with both the id and the caller as owner; none exactly when there is no such entry |
| Server.App.GetEntry | backend/handlers/entries.go:68-84 | an entry is returned only when both its id and its owner match; otherwise NotFound |
| Server.App.LookupFood | backend/handlers/entries.go:97-103 | the food lookup yields the first food with the id, or nothing |
| Server.App.CreateEntry | backend/handlers/entries.go:86-147 | an unknown food gives NotFound, checked before the timestamp; a timestamp that does not parse gives BadRequest; a failed save gives Internal; none of these changes the entries; otherwise one entry is appended with the caller as owner, the food's name, and each macro equal to the food's macro times the quantity |
| Entries.Reweighed | backend/handlers/entries.go:188-195 | an updated entry keeps its id, owner, food, food name and creation time, takes quantity, meal and time from the request, and has each macro equal to the food's macro times the new quantity |
| Server.App.UpdateEntry | backend/handlers/entries.go:149-209 | an entry the caller does not own or that does not exist gives NotFound; then the entry's stored food is looked up again (NotFound if gone); a bad timestamp gives BadRequest; none of these and no failed save changes anything; otherwise only that entry is reweighed |
| Server.App.DeleteEntry | backend/handlers/entries.go:211-234 | exactly the first entry with the id and the caller as owner is removed, with the rest in order; otherwise NotFound or Internal and no change |
| Nutrition.DayEntriesMembers | backend/handlers/nutrition.go:41-50 | a day's entries are exactly the caller's entries whose calendar day is that day, as an order-preserving subsequence of the stored entries |
| Nutrition.DayEntriesCounts | backend/handlers/nutrition.go:41-50 | each of the caller's entries of that day occurs among the day's entries as often as it is stored, and no other entry occurs |
| Nutrition.SummarizeSnoc | backend/handlers/nutrition.go:50-54 | adding one entry to a summary adds its four macros to the totals and appends it to the entries |
| Nutrition.DailyTake | backend/handlers/nutrition.go:46-54 | adding an owned entry of the day to the running totals and list keeps them the summary of the day's entries seen so far |
| Nutrition.DailySkip | backend/handlers/nutrition.go:41-45 | passing over an entry of another user or another day leaves the running totals and list the summary of the day's entries seen so far |
| Server.App.GetDailySummary | backend/handlers/nutrition.go:22-69 | a date that does not parse gives BadRequest; otherwise the summary carries the date string, exactly that day's entries of the caller, and totals equal to the sums of their macros (zero when there are none) |
| Nutrition.DayMinusDays | backend/handlers/nutrition.go:98-100 | stepping back i whole days from an instant steps its calendar day back by i |
| Server.App.SeedWeek | backend/handlers/nutrition.go:97-105 | the seeded buckets are the seven days ending on the start's day, each empty and with zero totals |
| Nutrition.WeekDaysSpan | backend/handlers/nutrition.go:97-105 | the bucket days are exactly seven, the start's day and the six days before it |
| Nutrition.WeekDayInWindow | backend/handlers/nutrition.go:88-113 | every instant on one of the seven bucket days passes the (start minus 7 days, start plus 24 hours) window test |
| Nutrition.WindowIsWiderThanWeek | backend/handlers/nutrition.go:113-115 | the window test alone admits days that have no bucket, so the bucket lookup is needed |
| Nutrition.WindowEntriesAreDayEntries | backend/handlers/nutrition.go:108-123 | for each bucket day, the entries that pass the owner, window and day tests are exactly that day's entries of the caller |
| Nutrition.AddEntryStep | backend/handlers/nutrition.go:113-121 | adding an admitted entry to its own day's bucket keeps every bucket equal to the summary of the entries seen so far |
| Nutrition.AddEntrySummarizes | backend/handlers/nutrition.go:115-120 | adding an entry to a bucket field by field gives the summary of the bucket's entries followed by that entry |
| Nutrition.SkipEntryStep | backend/handlers/nutrition.go:109-115 | an entry of another user, outside the window or without a bucket changes no bucket |
| Server.App.AddToBuckets | backend/handlers/nutrition.go:107-123 | the aggregation loop keeps the bucket days and leaves each bucket holding the summary of the admitted entries of its day |
| Nutrition.BucketsAreWeeklySummaries | backend/handlers/nutrition.go:97-123 | after the loop each bucket is the summary of its day's entries of the caller |
| Nutrition.WeeklySummariesShape | backend/handlers/nutrition.go:95-129 | the weekly result has exactly seven buckets, for the start's day and the six before, each labelled with its date, holding that day's entries of the caller, with totals equal to their sums |
| Server.App.GetWeeklySummary | backend/handlers/nutrition.go:71-133 | a start date that does not parse gives BadRequest; otherwise the result is the weekly summary of the week ending on the start date, or on today when none is given, with the seven-bucket shape above |
| Nutrition.FindUserById | backend/handlers/nutrition.go:159-160 | the index found is the first stored user with the current user's id; none exactly when there is no such user |
| Server.App.GetGoals | backend/handlers/nutrition.go:135-145 | the answer is exactly the current user's four goals |
| Nutrition.WithGoals | backend/handlers/nutrition.go:161-175 | writing goals changes only the four goal fields: reading them back gives the new goals and every other field is kept |
| Server.App.UpdateGoals | backend/handlers/nutrition.go:147-184 | with no stored user of the current id, NotFound and nothing changes; a failed save changes nothing; otherwise only that user's four goals are rewritten, all other users are kept, and the current user gets the same goals after the save |
| Walkthrough.LogAndSummarize | backend/handlers/nutrition.go:22-69 | after registering, adding a 100-kcal food and logging two servings of it, the daily summary shows one breakfast entry of Apple and 200 kcal |

## Left out

- File storage: reading and writing the JSON files, directory creation and the reader-writer lock are not modelled. Handlers ignore load errors, so a load is a field read; a save is an assignment, and its failure is the `saveOk` parameter.
- Concurrency: the unsynchronised global current-user slot and concurrent requests are out of scope; the model has one sequential caller.
- HTTP and JSON: request decoding (a malformed body gives BadRequest before anything else happens), error texts, headers, routing, and JSON encoding of empty versus nil lists are not modelled; requests and responses are datatypes.
- The authentication middleware is the precondition `currentUser.Some?`, not a separate operation; backend/middleware/auth.go is not part of this model.
- Floating point: macros are `real`, so float64 rounding in products and sums is not modelled.
- Sub-second precision: instants are whole seconds, so an entry eaten a fraction of a second after the end bound (say 0.5 s after the end date's midnight plus 24 hours), which the strict After test at backend/handlers/entries.go:52 drops, has no counterpart in the model.
- Time parsing: RFC 3339 and `2006-01-02` parsing are inputs (`Option<Time>` or `DateParam`); time zones and daylight saving are not modelled, and every instant lies in one fixed offset.
- The clock and fresh ids are parameters; the model does not assume an id is fresh, since the handlers do not check it either.
- Case folding: `strings.ToLower` and `strings.EqualFold` are modelled on ASCII letters only; Unicode case mapping is not modelled.
- Server.App.GetWeeklySummary: buckets are keyed by calendar day number and labelled by a `format` parameter, in place of Go's map keyed by the formatted date; this assumes the date format is one-to-one on days. The order of the output list comes from map iteration and is not modelled.
- Server.App.GetWeeklySummary: the buckets are updated through pointers in the source; the model replaces a bucket in the map, which only its key reaches.
- Server.App.Register and Server.App.Login: the current user aliases a local copy whose password is cleared right after; the model stores the redacted copy directly, which is the state the aliasing produces.
- Server.App.CreateEntry: as coded, the food is looked up by id without a visibility check, so another user's private food can be logged; the model keeps this.
- The frontend and the route table are not part of this model.
