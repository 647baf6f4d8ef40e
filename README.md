# Habit tracker core: habit directory, day toggle and focus-time recorder

This project models the domain core of the elitetracker API: the two Express controllers
`HabitsController` and `FocusTimeContoller`. The HTTP layer, schema validation and the MongoDB
driver are not modelled. What remains is an in-memory store plus operations that return typed
results (`Outcomes.Result`, with the errors `DuplicateName`, `NotFound` and `InvalidInterval`).

- `day_keys.dfy` (module `DayKeys`): the start-of-day key that `toggle` computes for "now".
  Instants are integer milliseconds. A key is the instant floored to a whole day of
  86 400 000 ms in one fixed frame. `MidnightOffsetMs` (0, i.e. UTC) says where midnight falls.
  The lemmas hold for any value of that constant.
- `completed_dates.dfy` (module `CompletedDates`): the operations on a habit's
  `completedDates` list:
  - the `find` lookup;
  - MongoDB's `$pull`, which removes every equal entry;
  - `$push`, which appends;
  - `Toggled`, the combined toggle;
  - the toggle-twice and day-equivalence lemmas.
- `name_order.dfy` (module `NameOrder`): ascending lexicographic order on names, which
  `sort({ name: 1 })` uses.
- `habits.dfy` (module `Habits`): the habit record, the invariant of the collection, the
  lookups by name and by id, deletion by id, the listing sort, and the class
  `HabitsController`. The class has the fields `habits` and `nextId` and the methods `Store`,
  `Index`, `Remove` and `Toggle`. Three client methods follow the class:
  - `StoreTwice`: storing the same name twice is refused the second time.
  - `ToggleSameDayTwice`: two toggles on the same day cancel out.
  - `MeditateScenario`: create "Meditate", list, toggle at 08:00 and at 23:00 of one day.
- `focus_time.dfy` (module `FocusTime`): the interval record, the `isBefore` check, and the
  class `FocusTimeController` with its `Store` method. `IntervalExamples` shows that an end
  before the start is refused and that equal instants are stored.

Both state-holding handlers are classes whose methods reassign a `seq` field. Each
state-changing method (`HabitsController.Store`, `Remove`, `Toggle` and
`FocusTimeController.Store`) `requires` and `ensures` the class's `Valid()` invariant:
- habits: unique ids below `nextId`, unique names, and completion keys that are day starts
  with no duplicates;
- intervals: `timeFrom <= timeTo`, and unique ids.

Each method also states its whole new state in terms of the old one.

In two places the model follows the code where one might expect otherwise:
- The habit schema is `z.string()`, so the code accepts an empty name, although a habit name
  is meant to be non-empty. The model accepts any name.
- The code keeps `completedDates` as a list, appended by `$push`. The model keeps a list.
  Two toggles of a day that was absent restore the list exactly. Two toggles of a day that was
  present give the list without the key, then the key appended
  (`CompletedDates.ToggleTwicePresent`). Without duplicates that restores the multiset of keys,
  but not always the order: `[a, b]` toggled twice at `a` becomes `[b, a]`
  (`CompletedDates.ToggleTwiceReorders`). Only membership is meaningful for a set of completed
  days, so this is not a defect.

## Model

| member | source | states |
|---|---|---|
| DayKeys.DayKey | src/controllers/habits.controller.ts:94 | the key is a day start, is at most the instant, and is less than one day before it |
| DayKeys.DayKeyUnique | src/controllers/habits.controller.ts:94 | a day start is the key of every instant in the day that follows it, so the key is determined |
| DayKeys.DayKeyIdempotent | src/controllers/habits.controller.ts:94 | normalising a key again gives the same key |
| DayKeys.SameDayIff | src/controllers/habits.controller.ts:94 | two instants have the same key if and only if the second lies within the first one's day |
| DayKeys.DayKeyMonotonic | src/controllers/habits.controller.ts:94 | a later instant never gets an earlier key |
| CompletedDates.FindDate | src/controllers/habits.controller.ts:96-98 | the lookup finds an entry if and only if the key is in the list, and what it finds equals the key |
| CompletedDates.Pull | src/controllers/habits.controller.ts:100-113 | `$pull` leaves exactly the entries other than the key, with multiplicities: the key's count drops to zero and every other count is kept |
| CompletedDates.Toggled | src/controllers/habits.controller.ts:96-130 | the key is present afterwards exactly when it was absent before; every other key keeps its membership; a present key is removed with all its copies; an absent key is appended |
| CompletedDates.PullNoDup | src/controllers/habits.controller.ts:101-113 | `$pull` never introduces a duplicate |
| CompletedDates.ToggledNoDup | src/controllers/habits.controller.ts:96-130 | the toggle keeps "no duplicate day keys" |
| CompletedDates.PullAppended | src/controllers/habits.controller.ts:101-130 | pulling a key that was just pushed onto a list without it gives back the list |
| CompletedDates.ToggleTwiceMembership | src/controllers/habits.controller.ts:94-132 | two toggles with the same key restore the membership of every key; when the key was absent they restore the list exactly |
| CompletedDates.ToggleTwiceNoDup | src/controllers/habits.controller.ts:94-132 | on a list without duplicates, two toggles with the same key restore its multiset |
| CompletedDates.ToggleTwicePresent | src/controllers/habits.controller.ts:100-130 | two toggles of a present key give the list without the key, then the key appended |
| CompletedDates.ToggleTwiceReorders | src/controllers/habits.controller.ts:101-130 | `[a, b]` toggled twice at `a` becomes `[b, a]`, so the list's order is not always restored |
| CompletedDates.SameDayTogglesCancel | src/controllers/habits.controller.ts:94-130 | toggles at two instants of the same day cancel out: membership is restored, and without duplicates the multiset is restored too |
| NameOrder.NameLeTotal | src/controllers/habits.controller.ts:39 | any two names are ordered one way or the other |
| NameOrder.NameLeTransitive | src/controllers/habits.controller.ts:39 | the name order is transitive |
| NameOrder.NameLeAntisymmetric | src/controllers/habits.controller.ts:39 | names ordered both ways are equal |
| Habits.FindByName | src/controllers/habits.controller.ts:22-24 | gives no result exactly when no habit has the name; otherwise the first index holding it |
| Habits.FindById | src/controllers/habits.controller.ts:56-59 | gives no result exactly when no habit has the id; otherwise the first index holding it |
| Habits.WithoutId | src/controllers/habits.controller.ts:65-67 | the result holds exactly the habits whose id differs from the given one |
| Habits.WithoutIdAt | src/controllers/habits.controller.ts:56-67 | with unique ids, deleting by the id of the habit at index i removes exactly that habit and keeps the order of the rest |
| Habits.InsertByName | src/controllers/habits.controller.ts:39 | inserting adds the habit to the multiset of the collection and nothing else |
| Habits.SortByName | src/controllers/habits.controller.ts:39 | the listing is a permutation of the collection |
| Habits.InsertByNameSorted | src/controllers/habits.controller.ts:39 | inserting into a list sorted by name keeps it sorted |
| Habits.SortByNameSorted | src/controllers/habits.controller.ts:39 | the listing is sorted by name, ascending |
| Habits.SortedArrangementUnique | src/controllers/habits.controller.ts:39 | with unique names, two sorted permutations of one collection are equal |
| Habits.ListingIndependentOfInsertionOrder | src/controllers/habits.controller.ts:39 | with unique names, the listing depends only on which habits are stored, not on their insertion order |
| Habits.UniqueNamesPermutation | src/controllers/habits.controller.ts:22-33 | rearranging a collection keeps its names unique |
| Habits.HabitsController.Store | src/controllers/habits.controller.ts:22-35 | fails with DuplicateName exactly when the name is taken, leaving the store unchanged; otherwise appends one habit with that name, a fresh id and no completed dates, and changes nothing else; it keeps the invariant |
| Habits.HabitsController.Index | src/controllers/habits.controller.ts:38-41 | returns every stored habit, ascending by name: a sorted permutation of the collection |
| Habits.HabitsController.Remove | src/controllers/habits.controller.ts:56-69 | fails with NotFound exactly when no habit has the id, leaving the store unchanged; otherwise deletes exactly that habit, so no habit has the id afterwards and the others are kept |
| Habits.HabitsController.Toggle | src/controllers/habits.controller.ts:85-132 | fails with NotFound exactly when no habit has the id, leaving the store unchanged; otherwise replaces only the target's completedDates with their toggle at the day key of `now` and returns the updated habit; it keeps the invariant (no duplicate keys, keys are day starts) |
| Habits.StoreTwice | src/controllers/habits.controller.ts:22-33 | after any store of a name, a second store of that name fails with DuplicateName |
| Habits.ToggleSameDayTwice | src/controllers/habits.controller.ts:94-132 | two toggles of one habit on the same day give every habit back its id, its name and its set of completed days |
| FocusTime.CheckInterval | src/controllers/focus-time.controller.ts:28-32 | rejects with InvalidInterval exactly when timeTo is strictly before timeFrom, so equal instants pass |
| FocusTime.FocusTimeController.Store | src/controllers/focus-time.controller.ts:25-41 | fails with InvalidInterval exactly when timeTo < timeFrom, leaving the collection unchanged; otherwise appends exactly one interval holding the given instants unchanged under a fresh id; it keeps "every interval has timeFrom <= timeTo" |

## Left out

- HTTP: request and response objects, status codes and JSON bodies. Outcomes are `Result` values instead.
- Schema validation with zod, `z.coerce.date()` and the error-message helper. Inputs are taken as already well-typed. The helper is not part of this model.
- MongoDB: the driver calls, `_id` generation and document serialisation. Ids come from the `nextId` counter of each controller.
- Concurrency. The check-then-insert race in `store` and the read-then-update race in `toggle` are outside a sequential model. So is the case where `findOneAndUpdate` returns null because the habit was deleted in between.
- dayjs: local time zones and daylight saving in `startOf('day')`. The day is a fixed 86 400 000 ms in one frame.
- The ambient clock `dayjs()`. It becomes the parameter `now` of `Toggle`.
- The ISO-8601 string round trip `dayjs(String(item)).toISOString()` at line 97. Keys are compared as integers.
- MongoDB collation in `sort({ name: 1 })`. The order is plain lexicographic order on code points. MongoDB's own sort algorithm is stood in for by a functional insertion sort. Only its result (a sorted permutation, unique under unique names) is claimed.
- `src/routes.ts`: route binding and the package metadata endpoint. It holds no domain logic.
- Storage failures (an opaque storage error). The in-memory store cannot fail.
