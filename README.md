# SimpleStepStatistics core in Dafny

A Dafny model of the parts of the SimpleStepStatistics Android app that hold actual logic:

- **`StepStatisticModel`**: the in-memory statistic of the current step period.
  - It holds a list of per-day records (date, step count, optional cycled distance) and keeps the list sorted by date.
  - `addCyclingDay` merges a cycling distance into the record of the same local date, or adds a new record.
  - It derives the goal figures from the list: the total, the figure needed today to break even, the per-day figure for the remaining days, and the difference on the latest day.
- **`DateHelper`**: start of today, start of a past day, whether two instants fall on the same local date, and the start of the most recent given weekday.
- **The `DayOfWeek` enum** and its 1..7 numbering.
- **The two `StepProgressView` classes**, root package and `ui` package: the clamped `goal`/`progress` state and the rectangles computed in `onSizeChanged`.

Modules:

| file | module | models |
|---|---|---|
| wrappers.dfy | `Wrappers` | `Option` (Kotlin's nullable values) and `Result` (a value or a thrown exception) |
| int32.dfy | `Int32` | Kotlin `Int`: 32-bit range, two's-complement wrap, `abs`, truncating `/` |
| settings.dfy | `Settings` | `DayOfWeek` and `number` |
| date_helper.dfy | `DateHelper` | the `DateHelper` object, with clock and zone as parameters |
| step_statistic_day.dfy | `StepStatisticDays` | `StepStatisticDay`, `totalSteps`, and the list operations `StepStatisticModel` uses: stable `sortBy { it.date }`, `find`, `remove` |
| step_statistic_model.dfy | `Repository` | class `StepStatisticModel` |
| progress_values.dfy | `ProgressValues` | the clamping of `setGoal`/`setProgress`, `RectF`, the square geometry of both views |
| progress_view.dfy | `ProgressView` | class `StepProgressView` of the root package |
| ui_progress_view.dfy | `UiProgressView` | class `StepProgressView` of the `ui` package |

Modelling choices:

- **Time.**
  - Instants are integers. `isSameDay` takes epoch milliseconds, as `Date(ms)` does. The `getStartOf*` functions take and return epoch seconds.
  - The current instant `now` is a parameter. `getStartOfSpecifiedDay` reads the clock twice, once for today's weekday and once more inside `getStartOfPastDay`, so its model takes both readings.
  - The system zone is a parameter: a fixed offset from UTC.
  - The local date is `(epochSecond + offset) / 86400` (floor division). Day 0 is 1970-01-01, a Thursday, which fixes the ISO weekday numbering (Monday = 1).
- **Kotlin library behaviour, written out.**
  - `sortBy` is stable. It is modelled as insertion in list order, each record going behind every record already placed whose date is not later.
  - `find` returns the first match.
  - `MutableList.remove(element)` drops the first equal element.
  - `Double.roundToInt()` rounds half up.
  - `Double.toInt()` truncates toward zero (the `Float` distance times the `Double` factor 1.5 is a `Double`).
  - `Int` division truncates toward zero.
  - `abs(Int.MIN_VALUE)` is `Int.MIN_VALUE`.
- **Numbers.** Float and Double values (cycled distance, daily goal, view coordinates) are exact reals. Step counts and sums are unbounded integers.
- **StepStatisticModel.**
  - `addDay`'s default argument `cycledDistance: Float? = null` becomes an explicit `None` at the call sites that leave it out.
  - The class keeps its list in a `seq` field that its methods reassign.
  - Its invariant `Valid()` is that the list is sorted by date.
  - Each method is tied to a function of the old list (`Insert`, `MergeCycling`). The properties of those functions are lemmas in `StepStatisticDays`.

## Model

Source paths are relative to the repository root.

| member | source | states |
|---|---|---|
| Settings.Number | app/src/main/java/com/akdogan/simplestepstatistics/ui/main/settings/DayOfWeek.kt:5-33 | every constant's `number` lies in 1..7 |
| Settings.WithNumber | app/src/main/java/com/akdogan/simplestepstatistics/ui/main/settings/DayOfWeek.kt:5-33 | the lookup from a number to its constant: a constant exactly for 1..7, and that constant has the given number |
| Settings.NumberInjective | app/src/main/java/com/akdogan/simplestepstatistics/ui/main/settings/DayOfWeek.kt:5-33 | no two constants share a number |
| Settings.WithNumberOfNumber | app/src/main/java/com/akdogan/simplestepstatistics/ui/main/settings/DayOfWeek.kt:5-33 | looking up a constant's number gives the constant back |
| Settings.NumberOnto | app/src/main/java/com/akdogan/simplestepstatistics/ui/main/settings/DayOfWeek.kt:5-33 | each of 1..7 is the number of exactly one constant |
| Settings.NumbersFollowDeclarationOrder | app/src/main/java/com/akdogan/simplestepstatistics/ui/main/settings/DayOfWeek.kt:5-33 | the constant in declaration position k (MONDAY first) has number k + 1 |
| DateHelper.LocalDay | app/src/main/java/com/akdogan/simplestepstatistics/helper/DateHelper.kt:26 | `toLocalDate()` of an instant: the day number whose 86400-second span, shifted by the zone offset, contains the instant |
| DateHelper.StartOfDay | app/src/main/java/com/akdogan/simplestepstatistics/helper/DateHelper.kt:25-28 | `atStartOfDay` is the first second of the local day: it is on that day and the second before it is on the previous day |
| DateHelper.LocalDayRange | app/src/main/java/com/akdogan/simplestepstatistics/helper/DateHelper.kt:25-28 | an instant is on a local day exactly when it is within the 24 hours from that day's start |
| DateHelper.IsoDayOfWeek | app/src/main/java/com/akdogan/simplestepstatistics/helper/DateHelper.kt:64 | `dayOfWeek.value` lies in 1..7 |
| DateHelper.IsoDayOfWeekNext | app/src/main/java/com/akdogan/simplestepstatistics/helper/DateHelper.kt:64 | the next day has the next weekday, Sunday wrapping to Monday |
| DateHelper.Weekday | app/src/main/java/com/akdogan/simplestepstatistics/helper/DateHelper.kt:64 | the enum constant whose number is the ISO weekday of the day |
| DateHelper.StartOfToday | app/src/main/java/com/akdogan/simplestepstatistics/helper/DateHelper.kt:25-28 | the start of today is at most `now` and less than a day before it, and on the same local day |
| DateHelper.StartOfPastDay | app/src/main/java/com/akdogan/simplestepstatistics/helper/DateHelper.kt:36-39 | the start of the local day `days` days before today's local day |
| DateHelper.StartOfPastDayMonotonic | app/src/main/java/com/akdogan/simplestepstatistics/helper/DateHelper.kt:36-39 | going back 0 days gives the start of today; going back n more days starts exactly n * 86400 seconds earlier |
| DateHelper.IsSameDay | app/src/main/java/com/akdogan/simplestepstatistics/helper/DateHelper.kt:42-50 | instants in the same second are on the same local date, and instants on the same local date are less than a day apart |
| DateHelper.IsSameDayMeansSameStart | app/src/main/java/com/akdogan/simplestepstatistics/helper/DateHelper.kt:42-50 | two instants are on the same local date exactly when their days start at the same second |
| DateHelper.IsSameDayEquivalence | app/src/main/java/com/akdogan/simplestepstatistics/helper/DateHelper.kt:42-50 | `isSameDay` is reflexive, symmetric and transitive |
| DateHelper.IsSameDayExamples | app/src/test/java/com/akdogan/simplestepstatistics/helper/DateHelperTest.kt:9-21 | in UTC, 15 March 2022 19:17:08 and 05:09:08 are the same day; 16 March 05:09:08 is not; 15 March is a Tuesday |
| DateHelper.Offset | app/src/main/java/com/akdogan/simplestepstatistics/helper/DateHelper.kt:66-70 | for weekdays in 1..7 the offset lies in 0..6, is 0 exactly when `today == day`, and `today - offset - day` is a multiple of 7 |
| DateHelper.StartOfSpecifiedDay | app/src/main/java/com/akdogan/simplestepstatistics/helper/DateHelper.kt:59-73 | the `IllegalArgumentException` is thrown exactly when the day is outside 1..7 |
| DateHelper.SpecifiedDayIsMostRecent | app/src/main/java/com/akdogan/simplestepstatistics/helper/DateHelper.kt:52-73 | when both clock reads are on the same local day: for a day in 1..7 the result starts a local day with that weekday, is not after either read, is less than 7 days back, and no later day up to today has that weekday |
| DateHelper.SpecifiedDayDrift | app/src/main/java/com/akdogan/simplestepstatistics/helper/DateHelper.kt:64-71 | for any two clock reads, the weekday of the result is `day` moved forward by the number of local midnights between the reads |
| DateHelper.SpecifiedDayAcrossMidnight | app/src/main/java/com/akdogan/simplestepstatistics/helper/DateHelper.kt:64-71 | asking for Thursday with the reads at 23:59:59 and 00:00:00 UTC returns the start of the Friday |
| Int32.Wrap | app/src/main/java/com/akdogan/simplestepstatistics/ui/StepProgressView.kt:136 | Kotlin `Int` arithmetic: the 32-bit value congruent to the exact one, equal to it when in range |
| Int32.Abs | app/src/main/java/com/akdogan/simplestepstatistics/ui/StepProgressView.kt:136 | `abs` is the non-negative value of the same magnitude, except that `abs(MIN)` is `MIN` |
| Int32.TruncDiv | app/src/main/java/com/akdogan/simplestepstatistics/ui/StepProgressView.kt:173-174 | Kotlin `/` on `Int` rounds toward zero, for both signs of the dividend |
| StepStatisticDays.TruncateToInt | app/src/main/java/com/akdogan/simplestepstatistics/repository/StepStatisticModel.kt:118 | `toInt()` drops the fraction, rounding toward zero |
| StepStatisticDays.RoundHalfUp | app/src/main/java/com/akdogan/simplestepstatistics/repository/StepStatisticModel.kt:62 | `roundToInt()` is the nearest integer, ties upwards |
| StepStatisticDays.TotalSteps | app/src/main/java/com/akdogan/simplestepstatistics/repository/StepStatisticModel.kt:115-121 | `steps` without a distance; otherwise `steps` plus 1.5 times the distance truncated toward zero |
| StepStatisticDays.SumTotalSteps | app/src/main/java/com/akdogan/simplestepstatistics/repository/StepStatisticModel.kt:52-54 | the empty list totals 0 |
| StepStatisticDays.SumTotalStepsNonNegative | app/src/main/java/com/akdogan/simplestepstatistics/repository/StepStatisticModel.kt:52-54 | records without negative steps or distance total no fewer than 0 |
| StepStatisticDays.SumTotalStepsAppend | app/src/main/java/com/akdogan/simplestepstatistics/repository/StepStatisticModel.kt:52-54 | the total of a concatenation is the sum of the totals |
| StepStatisticDays.SumTotalStepsPermutation | app/src/main/java/com/akdogan/simplestepstatistics/repository/StepStatisticModel.kt:52-54 | lists holding the same records have the same total, whatever the order |
| StepStatisticDays.Insert | app/src/main/java/com/akdogan/simplestepstatistics/repository/StepStatisticModel.kt:37-38 | putting a record into its place adds exactly one record |
| StepStatisticDays.InsertIndex | app/src/main/java/com/akdogan/simplestepstatistics/repository/StepStatisticModel.kt:38 | the place a stable sort gives a new record: behind every leading record not later than it, before the first later one |
| StepStatisticDays.InsertShape | app/src/main/java/com/akdogan/simplestepstatistics/repository/StepStatisticModel.kt:38 | an insertion splits the list at that place and puts the record between the parts |
| StepStatisticDays.InsertMultiset | app/src/main/java/com/akdogan/simplestepstatistics/repository/StepStatisticModel.kt:37-38 | an insertion adds exactly the new record and keeps every other record |
| StepStatisticDays.InsertSorted | app/src/main/java/com/akdogan/simplestepstatistics/repository/StepStatisticModel.kt:38 | inserting into a date-sorted list keeps it sorted |
| StepStatisticDays.SumTotalStepsInsert | app/src/main/java/com/akdogan/simplestepstatistics/repository/StepStatisticModel.kt:52-54 | an insertion raises the total by the new record's total |
| StepStatisticDays.SortByDate | app/src/main/java/com/akdogan/simplestepstatistics/repository/StepStatisticModel.kt:38 | `sortBy` keeps the length |
| StepStatisticDays.SortByDateSorted | app/src/main/java/com/akdogan/simplestepstatistics/repository/StepStatisticModel.kt:38 | `sortBy { it.date }` puts the list in date order |
| StepStatisticDays.SortByDatePermutation | app/src/main/java/com/akdogan/simplestepstatistics/repository/StepStatisticModel.kt:38 | `sortBy` is a permutation of its input |
| StepStatisticDays.SortByDateStable | app/src/main/java/com/akdogan/simplestepstatistics/repository/StepStatisticModel.kt:38 | `sortBy` is stable: the records of each date keep their relative order |
| StepStatisticDays.SortByDateOfSorted | app/src/main/java/com/akdogan/simplestepstatistics/repository/StepStatisticModel.kt:38 | sorting an already sorted list changes nothing |
| StepStatisticDays.SortByDateAppend | app/src/main/java/com/akdogan/simplestepstatistics/repository/StepStatisticModel.kt:37-38 | adding a record to a sorted list and sorting is an insertion of that record |
| StepStatisticDays.LastIsLatest | app/src/main/java/com/akdogan/simplestepstatistics/repository/StepStatisticModel.kt:75 | in a sorted list the last record has the latest date |
| StepStatisticDays.RemoveFirst | app/src/main/java/com/akdogan/simplestepstatistics/repository/StepStatisticModel.kt:46 | `remove` of an element that is absent leaves the list as it is |
| StepStatisticDays.RemoveFirstMultiset | app/src/main/java/com/akdogan/simplestepstatistics/repository/StepStatisticModel.kt:46 | `remove` of a present element drops one occurrence of it and nothing else |
| StepStatisticDays.RemoveFirstAt | app/src/main/java/com/akdogan/simplestepstatistics/repository/StepStatisticModel.kt:46 | removing `s[i]` by value removes position `i` when no earlier element equals it |
| StepStatisticDays.SumTotalStepsRemoveAt | app/src/main/java/com/akdogan/simplestepstatistics/repository/StepStatisticModel.kt:52-54 | removing a record lowers the total by that record's total |
| StepStatisticDays.FindSameDay | app/src/main/java/com/akdogan/simplestepstatistics/repository/StepStatisticModel.kt:42 | `find` gives the first record on the local date of `date`, or nothing when none is |
| StepStatisticDays.FoundIsFirstEqual | app/src/main/java/com/akdogan/simplestepstatistics/repository/StepStatisticModel.kt:42-46 | no record before the one found equals it, so `remove(existingItem)` removes the found position |
| StepStatisticDays.MergeCycling | app/src/main/java/com/akdogan/simplestepstatistics/repository/StepStatisticModel.kt:41-50 | `addCyclingDay` on the list: one more record when no record is on that local date, the same number otherwise |
| StepStatisticDays.MergeCyclingNewDay | app/src/main/java/com/akdogan/simplestepstatistics/repository/StepStatisticModel.kt:42-49 | with no same-day record, `(date, 0, distance)` is inserted in date order: one more record, sorted, total raised by its total |
| StepStatisticDays.MergeCyclingExistingDay | app/src/main/java/com/akdogan/simplestepstatistics/repository/StepStatisticModel.kt:45-49 | with a same-day record, the length stays; that record is replaced by one with its date and steps and the new distance; the list stays sorted; the total changes by the difference of the two records' totals |
| StepStatisticDays.MergeCyclingInPlace | app/src/main/java/com/akdogan/simplestepstatistics/repository/StepStatisticModel.kt:45-49 | when no later record shares the found record's date, it is overwritten at its own position |
| StepStatisticDays.FindInserted | app/src/main/java/com/akdogan/simplestepstatistics/repository/StepStatisticModel.kt:42-46 | a record inserted as the only one on its day is what a later `find` returns, and removing it gives back the list before |
| StepStatisticDays.MergeCyclingOverwrites | app/src/main/java/com/akdogan/simplestepstatistics/repository/StepStatisticModel.kt:41-50 | two merges on one local date, where at most one record is on that date, equal the second merge alone |
| Repository.StepStatisticModel.constructor | app/src/main/java/com/akdogan/simplestepstatistics/repository/StepStatisticModel.kt:20-24 | a new model has the given goal and period and no records |
| Repository.StepStatisticModel.GetDaysAsList | app/src/main/java/com/akdogan/simplestepstatistics/repository/StepStatisticModel.kt:93-95 | the copy equals the current list, in order, and the model is unchanged |
| Repository.StepStatisticModel.AddDay | app/src/main/java/com/akdogan/simplestepstatistics/repository/StepStatisticModel.kt:36-39 | the list gains exactly the new record, in date order, keeps every old record and stays sorted; the total grows by the record's total |
| Repository.StepStatisticModel.AddCyclingDay | app/src/main/java/com/akdogan/simplestepstatistics/repository/StepStatisticModel.kt:41-50 | the list becomes the cycling merge of the old list: a new `(date, 0, distance)` record, or the first same-day record with its distance replaced; sorted either way, with the length and total of each case |
| Repository.StepStatisticModel.DailyGoal | app/src/main/java/com/akdogan/simplestepstatistics/repository/StepStatisticModel.kt:29 | `dailyGoal` times the number of days in the period is the goal |
| Repository.StepStatisticModel.TotalStepCount | app/src/main/java/com/akdogan/simplestepstatistics/repository/StepStatisticModel.kt:52-54 | an empty model totals 0 |
| Repository.StepStatisticModel.DiffToWeeklyGoal | app/src/main/java/com/akdogan/simplestepstatistics/repository/StepStatisticModel.kt:56-58 | the missing steps and the total together make the goal; with no records the whole goal is missing |
| Repository.StepStatisticModel.RequiredTodayForBreakEven | app/src/main/java/com/akdogan/simplestepstatistics/repository/StepStatisticModel.kt:60-63 | the figure plus the total is `size * goal / daysInPeriod` rounded to the nearest step |
| Repository.StepStatisticModel.RequiredPerDayUpcoming | app/src/main/java/com/akdogan/simplestepstatistics/repository/StepStatisticModel.kt:65-72 | with no days left, the rest of the goal; otherwise the rest of the goal per remaining day, rounded to the nearest step |
| Repository.StepStatisticModel.DiffLatestDay | app/src/main/java/com/akdogan/simplestepstatistics/repository/StepStatisticModel.kt:74-77 | the daily goal rounded on an empty list; otherwise the daily goal less the last record's steps, rounded |
| Repository.StepStatisticModel.Clear | app/src/main/java/com/akdogan/simplestepstatistics/repository/StepStatisticModel.kt:80-82 | the list is empty afterwards |
| Repository.UpcomingReachesGoal | app/src/main/java/com/akdogan/simplestepstatistics/repository/StepStatisticModel.kt:65-72 | walking the per-day figure on every remaining day reaches the goal to within half a step per day |
| Repository.BreakEvenAtPeriodEnd | app/src/main/java/com/akdogan/simplestepstatistics/repository/StepStatisticModel.kt:60-72 | when the number of records equals the period length, the break-even figure equals the rest of the goal |
| Repository.BreakEvenPastPeriodEnd | app/src/main/java/com/akdogan/simplestepstatistics/repository/StepStatisticModel.kt:60-72 | with more records than days in the period, the break-even figure exceeds the rest of the goal by the rounded target less the goal: never negative for a non-negative goal, and exactly the surplus of records when the goal is one step per day |
| Repository.DiffLatestDayReadsLatest | app/src/main/java/com/akdogan/simplestepstatistics/repository/StepStatisticModel.kt:74-77 | the record `diffLatestDay` reads has the latest date of the list |
| Repository.MergeTwiceOverwrites | app/src/main/java/com/akdogan/simplestepstatistics/repository/StepStatisticModel.kt:41-50 | two `addCyclingDay` calls on one local date leave the model as one call with the second distance |
| ProgressValues.StoredGoal | app/src/main/java/com/akdogan/simplestepstatistics/ui/StepProgressView.kt:135-139 | `setGoal` stores the absolute value, 0 exactly for 0, and `MIN` for `MIN` |
| ProgressValues.StoredProgress | app/src/main/java/com/akdogan/simplestepstatistics/ui/StepProgressView.kt:145-149 | `setProgress` stores the larger of the value and 0 |
| ProgressValues.StoredValuesIdempotent | app/src/main/java/com/akdogan/simplestepstatistics/ui/StepProgressView.kt:135-149 | setting a stored value again changes nothing |
| ProgressValues.Inset | app/src/main/java/com/akdogan/simplestepstatistics/StepProgressView.kt:176-181 | the inner rectangle is narrower and lower by twice the padding and has the same centre |
| ProgressValues.Min | app/src/main/java/com/akdogan/simplestepstatistics/StepProgressView.kt:160 | `min` is the smaller argument |
| ProgressValues.CenteredSquare | app/src/main/java/com/akdogan/simplestepstatistics/StepProgressView.kt:169-175 | the background square has side `min(w, h)` and is centred at `(w/2, h/2)` |
| ProgressValues.CenteredSquareInsideView | app/src/main/java/com/akdogan/simplestepstatistics/StepProgressView.kt:169-175 | for non-negative sizes the square lies inside the view |
| ProgressValues.AvailableWidth | app/src/main/java/com/akdogan/simplestepstatistics/ui/StepProgressView.kt:160 | the width less the left and right padding, in either layout direction |
| ProgressValues.AvailableHeight | app/src/main/java/com/akdogan/simplestepstatistics/ui/StepProgressView.kt:161 | the height less the top and bottom padding; no more than the height when the padding is not negative |
| ProgressValues.PaddedSquare | app/src/main/java/com/akdogan/simplestepstatistics/ui/StepProgressView.kt:160-182 | side `min(availableWidth, availableHeight)`; corner `available / 2 - side / 2 + padding` with truncating division |
| ProgressValues.PaddedSquareFitsContentBox | app/src/main/java/com/akdogan/simplestepstatistics/ui/StepProgressView.kt:160-182 | with a non-negative content box the square lies inside the padding; when the width is the narrower axis it spans the box from left to right, and when the height is, from top to bottom |
| ProgressView.StepProgressView.constructor | app/src/main/java/com/akdogan/simplestepstatistics/StepProgressView.kt:32-40 | initially `goal = 1`, `progress = 0`, no padding and empty rectangles |
| ProgressView.StepProgressView.SetGoal | app/src/main/java/com/akdogan/simplestepstatistics/StepProgressView.kt:134-138 | `goal` becomes the stored absolute value; nothing else changes |
| ProgressView.StepProgressView.SetProgress | app/src/main/java/com/akdogan/simplestepstatistics/StepProgressView.kt:144-148 | `progress` becomes `max(value, 0)`; nothing else changes |
| ProgressView.StepProgressView.GetProgress | app/src/main/java/com/akdogan/simplestepstatistics/StepProgressView.kt:150 | returns the stored progress |
| ProgressView.StepProgressView.OnSizeChanged | app/src/main/java/com/akdogan/simplestepstatistics/StepProgressView.kt:158-186 | the padding is `min(w, h) * 0.06`, the background is the centred square, the ring's rectangle is the square inset by the padding; goal and progress unchanged |
| ProgressView.SettersAreIndependent | app/src/main/java/com/akdogan/simplestepstatistics/StepProgressView.kt:134-150 | `getProgress` returns what the last `setProgress` stored, whatever `setGoal` did in between |
| UiProgressView.StepProgressView.constructor | app/src/main/java/com/akdogan/simplestepstatistics/ui/StepProgressView.kt:33-41 | initially `goal = 1`, `progress = 0`, no padding and empty rectangles |
| UiProgressView.StepProgressView.SetGoal | app/src/main/java/com/akdogan/simplestepstatistics/ui/StepProgressView.kt:135-139 | `goal` becomes the stored absolute value; nothing else changes |
| UiProgressView.StepProgressView.SetProgress | app/src/main/java/com/akdogan/simplestepstatistics/ui/StepProgressView.kt:145-149 | `progress` becomes `max(value, 0)`; nothing else changes |
| UiProgressView.StepProgressView.GetProgress | app/src/main/java/com/akdogan/simplestepstatistics/ui/StepProgressView.kt:151 | returns the stored progress |
| UiProgressView.StepProgressView.OnSizeChanged | app/src/main/java/com/akdogan/simplestepstatistics/ui/StepProgressView.kt:158-193 | the padding is `min(availableWidth, availableHeight) * 0.06`, the background is the padded square, the ring's rectangle is the square inset by the padding; goal and progress unchanged |

## Left out

- Clock and time zone: `Instant.now()` and `ZoneId.systemDefault()` become the parameters `now` and `zone`. A zone is a fixed UTC offset, so daylight-saving transitions are not modelled.
- `getNow`, `getSystemZone`, `nowZoned`: replaced by those parameters.
- The date and time string formatters of `DateHelper`, and `StepStatisticDay.toString`/`StepStatisticModel.toString`: text formatting only.
- `println`, `Log.i` and `invalidate()`: output and redraw requests, with no effect on the modelled state.
- `createSampleData`: it draws random numbers.
- `CyclingUnit`: a data class that the core does not use.
- IEEE floating point: Float and Double are exact reals. The constants 1.5 and 0.06 are taken as written, and `toFloat()` of a pixel coordinate is exact.
- Repository.StepStatisticModel.RequiredTodayForBreakEven: requires `daysInPeriod != 0`. With a zero period `dailyGoal` is NaN when `goal` is 0 and infinite otherwise, and the break-even product is NaN on an empty list (0 times infinity). `Double.roundToInt()` then throws `IllegalArgumentException` on NaN and saturates to `Int.MAX_VALUE` or `Int.MIN_VALUE` on an infinity. Reals cannot express these values. The app itself always builds the model with the constant `FALLBACK_DAYS_IN_PERIOD` as the period.
- Repository.StepStatisticModel.DiffLatestDay: requires `daysInPeriod != 0`, for the same reason. On a zero period `roundToInt()` of the NaN or infinite difference throws or saturates as above.
- Repository.StepStatisticModel.TotalStepCount: does not model 32-bit wrap-around of `sumBy`, nor the saturation of `Double.toInt()` for huge distances. Step sums are unbounded integers.
- UiProgressView.StepProgressView.OnSizeChanged: does not model 32-bit wrap-around of `w - paddingStart - paddingEnd` and the corner arithmetic. These are computed on unbounded integers.
- `sweepAngle`/`calculateSweepAngle`, the paints and their size factors, and `textPaddingGoal`/`textPaddingProgress`: float drawing parameters. They are not part of the clamped state the model follows.
- `onDraw`, `runAnimation`, the colour setters and the theme colour lookup: Android drawing and resources.
- `dataList`/`getDaysAsList` return a copy. In the model the list is a value, so there is nothing to alias and the copy is the value itself.
- StepStatisticDays.MergeCyclingOverwrites: stated only for lists with at most one record on that local date. The overwrite fails only when another record has the very same `date` timestamp as the one found: the re-added record is sorted behind it, and a later `addCyclingDay` finds that other record. Several records on one local date with different timestamps still overwrite, but the lemma does not cover them.
- Repository.MergeTwiceOverwrites: stated under the same requirement, at most one record on that local date, for the same reason.
- DateHelper.SpecifiedDayIsMostRecent: stated for two clock reads on the same local day. Reads on either side of a local midnight give the start of the day after the requested weekday; DateHelper.SpecifiedDayDrift and DateHelper.SpecifiedDayAcrossMidnight state that case.
- Google Fit access (`FitnessRepository`), Jetpack DataStore (`DataStoreRepository`), the activities, fragments, view model, list adapter, widget and job service: SDK and platform code outside this model.
