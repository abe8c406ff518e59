# Home dashboard logic, modelled in Dafny

This project models the decision logic of the personal home page of a
rehabilitation-exercise web app (`home.js`). The page shows three cards:

- **Prescription history**: the first five stored prescriptions, each with its
  date and its summary cut to 100 characters (with `...` when it was longer),
  and a note with the number of records not shown.
- **Exercise plan**: the number of plan days, the number of distinct activity
  types, and per type its number of days and its rounded percentage of the
  plan. The counting is the imperative `forEach` over the plan that fills a
  `typeCount` dictionary, modelled as a method with a loop.
- **Check-ins**: the number of completed check-ins, the completion rate against
  the plan length, a progress bar, and the current streak. The streak is the
  `for` loop of `calculateStreakDays` with its early `break`, modelled as a
  method.

Browser state becomes parameters. The parsed prescription history is a
`seq<Prescription>`, and the check-in data is a `map` from day numbers to
records. The static plan is a `seq<PlanEntry>`. The current day `today` is a
day number supplied by the caller. A date key `YYYY-MM-DD` is represented by
the number of its day. Zero-padded ISO dates sort lexicographically in
calendar order, so the source's `sort().reverse()` is a descending sort of
day numbers.

Files: `rounding.dfy` (module `Rounding`: `Math.round` of a percentage),
`streak.dfy` (module `Streak`), `exercise_plan.dfy` (module `ExercisePlan`),
`checkin_summary.dfy` (module `CheckinSummary`), `prescriptions.dfy`
(module `Prescriptions`).

Two behaviours of the code are worth stating plainly:

- `calculateStreakDays` (home.js:186-197) compares the i-th most recent
  completed date with today - i. It does not test whether today - i is
  completed. A completed date later than today therefore sorts first and
  makes the streak 0, even when today is completed (`Streak.FutureDateNoStreak`).
- The completion rate at home.js:135 divides by the plan length without a
  guard. For an empty plan the result is JavaScript's `NaN` (no check-ins) or
  `Infinity` (some check-ins), and the model returns exactly those values
  (`CheckinSummary.CompletionRate`).

## Model

| member | source | states |
|---|---|---|
| `Streak.CompletedDates` | home.js:175-176 | The filtered dates are stored dates, and a stored date is among them exactly when its record is completed. |
| `Streak.StreakDays` | home.js:174-201 | The streak, the run of the descending completed dates from position 0, is at most the number of completed dates, and every day from today - streak + 1 up to today is completed. |
| `Streak.Descending` | home.js:175-178 | The completed dates come out each exactly once, strictly most recent first, so the list has as many entries as there are completed dates. |
| `Streak.RunFrom` | home.js:186-197 | The scan stops at the first position i whose date is not today - i, or at the end. The result is the longest prefix matching today, today - 1, ... and is at most the list length. |
| `Streak.CalculateStreakDays` | home.js:174-201 | The loop with its early break returns the streak. The streak is at most the number of completed dates, and every day from today - streak + 1 up to today is completed. |
| `Streak.NothingCompletedNoStreak` | home.js:175-180 | With no record marked completed, the streak is 0. |
| `Streak.IncompleteRecordIgnored` | home.js:175-176 | Storing a not-completed record at a date with no completed record never changes the streak. |
| `Streak.NoTodayNoStreak` | home.js:186-197 | If today is not completed the streak is 0, even when yesterday and earlier days form a run. |
| `Streak.FutureDateNoStreak` | home.js:175-197 | A completed date after today sorts first and makes the streak 0. |
| `Streak.StreakIsRunBackFromToday` | home.js:174-201 | With no future dates, the streak k is the closed form: today, ..., today - k + 1 are completed and today - k is not. |
| `Streak.StreakUnique` | home.js:174-201 | The closed form has one solution: any k with those two properties equals the streak. |
| `Streak.TodayOnlyExample` | home.js:174-201 | Only today completed gives a streak of 1. |
| `Streak.TwoDayExample` | home.js:174-201 | Today and yesterday completed, and the day before not completed, gives a streak of 2. |
| `Streak.YesterdayOnlyExample` | home.js:174-201 | Only yesterday completed gives a streak of 0. |
| `Rounding.RoundedPercent` | home.js:105 | The percentage p satisfies p - 1/2 <= 100 * count / total < p + 1/2 (nearest integer, halves up). It is at most 100 when count <= total. |
| `Rounding.RoundedPercentUnique` | home.js:105 | Only one integer satisfies the rounding condition, so it determines the percentage. |
| `ExercisePlan.ActivityTypes` | home.js:77 | The set of activity types holds the type of every plan day and nothing else. |
| `ExercisePlan.Occurrences` | home.js:83-86 | The number of days of a type is at most the plan length, and at least 1 exactly when the type is one of the plan's activity types. |
| `ExercisePlan.FirstAppearance` | home.js:83-103 | The key order of `typeCount` lists every activity type exactly once, has as many entries as there are distinct types, and starts with the type of the first plan day. |
| `ExercisePlan.OccursIffActivityType` | home.js:77-86 | A type is one of the plan's activity types exactly when its day count is at least 1. |
| `ExercisePlan.KeysListTypes` | home.js:77-86 | The dictionary key order lists each activity type of the plan exactly once. |
| `ExercisePlan.KeysCountTypes` | home.js:77-78 | The number of dictionary keys equals the number of distinct types (`activityTypes.size`). |
| `ExercisePlan.CountByType` | home.js:83-86 | The forEach loop produces keys in order of first appearance. The keys are exactly the activity types, each count equals the number of days of that type and is at least 1, and the counts sum to the plan length. |
| `ExercisePlan.BuildRows` | home.js:103-118 | There is one row per key, in key order, with the key's count and the rounded percentage of the plan length. The row day counts add up to the dictionary total. |
| `ExercisePlan.LoadExercisePlanVisualization` | home.js:65-125 | The card shows the plan length and the number of distinct types. The "no plan" message appears exactly when the plan is empty. Otherwise there is one row per type in first-appearance order, with days >= 1 equal to the type's occurrences, rows summing to the plan length, and the rounded percentage <= 100. |
| `ExercisePlan.PercentagesNearHundred` | home.js:103-105 | Rounding per row may miss 100. With n rows the total lies in (100 - n/2, 100 + n/2]. |
| `ExercisePlan.ThreeDayPlanExample` | home.js:83-105 | Two walking days and one rest day give rows walking (2 days, 67%) and rest (1 day, 33%), and the percentages add up to 100. |
| `CheckinSummary.CompletedCount` | home.js:133 | The completed count is at most the number of records. It is 0 exactly when no record is completed. |
| `CheckinSummary.CompletionRate` | home.js:135 | For a non-empty plan the rate is the half-up rounded percentage, and at most 100 when completed <= plan days. For an empty plan the rate is NaN (0 / 0) or Infinity (n / 0). |
| `CheckinSummary.LoadCheckinVisualization` | home.js:128-171 | The card shows the completed count, the streak (never above the completed count) and the completion rate. The "start checking in" message appears exactly when nothing is completed; otherwise a progress bar shows completed / plan days with the rate. |
| `Prescriptions.Excerpt` | home.js:49 | A summary of at most 100 characters is shown whole. A longer one shows exactly its first 100 characters followed by `...`. |
| `Prescriptions.LoadPrescriptionHistory` | home.js:27-62 | The "no records" message appears exactly for an empty history. Otherwise the first min(5, n) records are shown in stored order with excerpted summaries. The "more" note appears exactly when n > 5 and then holds n - 5. |
| `Prescriptions.ShownPlusHiddenIsAll` | home.js:41-59 | Shown records plus the note's count equal the length of the history. |

## Left out

- Page wiring: DOM lookups and writes, `innerHTML` templating, event listeners and navigation to other pages (home.js:6-24). This is browser plumbing. The early returns when a container element is missing (home.js:31, 71, 148) are left out too: the model assumes every element exists.
- Storage: reading `localStorage` and `JSON.parse` (home.js:28, 129). The parsed history and check-in map are parameters. A stored record without a `summary` would throw in the source; the model's records always have one.
- The plan data `EXERCISE_PLAN_DATA` is defined outside `home.js`, so it is a parameter.
- Clock and calendar: `new Date()`, `setHours` and `setDate` (home.js:183-191) are replaced by day numbers, with `today` supplied by the caller. `new Date("YYYY-MM-DD")` parses a date key as UTC midnight, while `setHours(0, 0, 0, 0)` and "today" use local time. West of UTC the two can fall on different calendar days. The model treats every key as its own calendar day. The code that writes the keys is not part of this model, so which day a key means cannot be settled here. Malformed date keys (`Invalid Date`) are not modelled.
- `Rounding.RoundedPercent`: does not model floating-point division. `Math.round(count / total * 100)` is modelled as exact rounding, halves up. A float quotient a hair below a true .5 could round down in the source.
- Display names, colours and HTML of the plan rows (home.js:88-100, 106-117), and the unrounded width of the progress bar (home.js:158, 167), are presentation only.
- `Prescriptions.Excerpt`: counts characters, whereas JavaScript `substring` and `length` count UTF-16 code units. Summaries outside the Basic Multilingual Plane may be cut differently.
- `ExercisePlan.CountByType`: assumes ordinary type names. JavaScript lists integer-like object keys first, in numeric order. A type named like an `Object.prototype` member (`constructor`, `toString`) would read an inherited value in `typeCount[day.type] || 0`.
- `completed` is a boolean. The source tests any truthy value.
