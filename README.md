# Habit and sleep tracker, modelled in Dafny

This project models the state logic of a single-page habit tracker
(`app.js`). The page keeps the following in memory:

- a habit grid `gridData`: records `{ name, days }` under generated keys, in
  insertion order, where `days[d]` says whether day `d` of the month was ticked;
- a sleep log `sleepData`: hours slept, by day of the month;
- a flag `isInitializing`, which keeps `save` from writing to local storage
  while the page is still loading.

The user can rename a habit, tick a day, log today's sleep and reset the
month. From the same state the page derives:

- a completion dashboard;
- a power score;
- a sleep-consistency figure;
- the series of points for the sleep chart.

Modules, one file each:

- `Text` (`text.dfy`): JavaScript's `String.prototype.trim`. The white-space
  set is ECMAScript's WhiteSpace and LineTerminator characters.
- `Habits` (`habits.dfy`): the habit record and the pure rules about it. These
  are how an unwritten day reads, what a toggle writes, when `renderTable`
  appends a blank row, and when a checkbox is rendered disabled.
- `Percent` (`percent.dfy`): `Math.round(x / y * 100)`.
- `Stats` (`stats.dfy`): `updatePowerScore` and `updateDashboard`. Each is a
  loop method proved against a recursive specification function, with lemmas
  on how toggles and resets move those functions.
- `Sleep` (`sleep.dfy`): `logSleep`'s guard over JavaScript numbers (NaN and
  the infinities included), the consistency figure and the chart series.
- `App` (`tracker.dfy`): the class `Tracker`. Its fields are the key order,
  the record map, the sleep map, the init flag, and a ghost copy of what local
  storage holds. Its methods are the user actions and `save`. `Load` runs the
  page's script from top to bottom.

The calendar values `DAYS` and `TODAY_DATE` are constants of the tracker with
`1 <= TODAY_DATE <= DAYS <= 31`. The key of a new row (`"h" + Date.now()` in
the source) is passed in as a parameter and must not be in use. The answer of
the confirmation dialog of `resetMonth` is a boolean parameter. The number
`parseFloat` reads in `logSleep` is a parameter of type `Sleep.Number`.

Some behaviour of `app.js` is easy to misread; the model follows the code:

- A checkbox is disabled when the habit has no name *or* the day is past
  (`app.js:121`). `toggleCheck` itself refuses only past days (`app.js:139`).
  Both rules are modelled, and `Habits.DisabledVersusGuard` relates them.
- Completion is counted from day 1 through today inclusive. The power score
  counts every ticked day of every record, named or not, whatever the day.
- `renderTable` appends at most one blank row and does not render again. It
  only makes sure the *last* row is blank. Renaming a middle row to blank
  leaves two blank rows, and nothing removes one.
- `renderTable` tests `!lastKey`, which is also true for the key `""`. A
  blank row is therefore appended after a record stored under that key
  whenever it is the last key, even when its name is blank.
- `updateHabitName` saves before it renders, so that call does not store the
  blank row the render appends; the next save does. The same holds for the
  render at the end of `resetMonth`.
- `resetMonth` writes to local storage directly, so it ignores
  `isInitializing`.

## Model

| member | source | states |
|---|---|---|
| `Text.Trim` | app.js:133 | `trim` never lengthens the name |
| `Text.TrimEnds` | app.js:133 | `trim` yields the empty string exactly when the input is all white space; otherwise the result neither starts nor ends with white space |
| `Text.TrimIsSlice` | app.js:133 | the trimmed name is the input with a white-space prefix and a white-space suffix removed, and nothing else |
| `Text.TrimIdempotent` | app.js:133 | a name stored by a rename is already trimmed: trimming it again changes nothing |
| `Text.TrimKeeps` | app.js:103 | a name that neither starts nor ends with white space is unchanged by `trim` |
| `Habits.Values` | app.js:174 | `Object.values(gridData)` has one record per key, in key order |
| `Habits.ValuesUpdate` | app.js:140 | writing one habit in place changes that record's position in `Object.values` and no other |
| `Habits.FlipOnlyThatDay` | app.js:140 | a toggle negates `days[day]` as read with "absent means false", keeps every other day and the name |
| `Habits.FlipTwice` | app.js:140 | toggling the same day twice leaves every day reading as before |
| `Habits.DisabledVersusGuard` | app.js:121 | an enabled checkbox is always accepted by `toggleCheck`; for a named habit, disabled exactly when `toggleCheck` refuses the day; every checkbox of an unnamed habit is disabled |
| `Habits.ClearDays` | app.js:55-57 | clearing the days of every record keeps the set of keys |
| `Habits.ClearKeepsBlankRowTest` | app.js:103 | a month reset keeps the names, so it does not change whether `renderTable` appends a row |
| `Habits.BlankRowSettles` | app.js:100-107 | after a blank row is appended under a non-empty key, a second render appends nothing |
| `Percent.RoundedPercent` | app.js:161 | `Math.round(part / whole * 100)` is the integer nearest to the percentage, a half rounding up; it lies in 0..100 when `part <= whole`, is 100 when they are equal and 0 when `part` is 0 |
| `Stats.PowerScore` | app.js:172-178 | the loop's total equals the sum over all records of their ticked days |
| `Stats.ScoreFlip` | app.js:175 | toggling a day moves that habit's ticked count by exactly one: down if it was ticked, up if not |
| `Stats.PowerUpdate` | app.js:174-176 | replacing one record changes the power score by the difference of the two records' ticked counts |
| `Stats.PowerCleared` | app.js:55-57 | records whose `days` are all empty give a power score of 0 |
| `Stats.Named` | app.js:150 | the filtered list holds only named records and is no longer than the input |
| `Stats.NamedCounts` | app.js:150 | the filtered list has exactly one entry per named record of the input, equal records counted separately |
| `Stats.NamedFilter` | app.js:150 | every record the filter keeps comes from the input, and every named record of the input is kept |
| `Stats.DoneThrough` | app.js:155-156 | the inner loop's count for one habit is the number of ticked days among 1..n, hence at most n |
| `Stats.CountDays` | app.js:155-157 | the inner loop counts as ticked exactly the ticked days among 1..today, and every one of those days is counted once, ticked or not |
| `Stats.DoneSumBound` | app.js:154-158 | the completed total over a list of habits is at most the number of habits times the days considered |
| `Stats.Dashboard` | app.js:149-161 | the number of named habits (one per named record, counted record by record), the completed habit-days through today, `completed + notCompleted == habits × today`, and a rate in 0..100 that is 0 when there is nothing to count and otherwise the rounded percentage |
| `Stats.CompletedIsDoneSum` | app.js:150-158 | filtering the named records and summing their ticked days through today equals the record-by-record count, in which an unnamed record contributes nothing |
| `Stats.CompletedUpdate` | app.js:150-158 | replacing one record changes the completed count by the difference of the two records' contributions and by nothing else |
| `Stats.DoneThroughFlip` | app.js:155-156 | a toggle changes a habit's count through day n by one when the day lies in 1..n and not otherwise |
| `Stats.FiguresAfterFlip` | app.js:138-143 | an accepted toggle moves the power score by exactly one, down if the day was ticked; it leaves the completed count alone for a day after today and moves it by exactly one for today's box of a named habit |
| `Stats.CompletedCleared` | app.js:55-57 | after every `days` map is emptied nothing counts as completed |
| `Stats.DashboardExample` | app.js:149-176 | habits ticked on days {1, 2} and {1}, today the 3rd: power score 3, two named habits, 3 completed, rate 50 |
| `Sleep.AcceptedRange` | app.js:188 | `logSleep`'s JavaScript guard lets through exactly the finite values in (0, 24]: NaN, the infinities, 0, negative values and values above 24 are refused |
| `Sleep.Consistency` | app.js:204-206 | the consistency is the rounded percentage of logged nights of at least seven hours: within 0..100, 0 for an empty log or when no night reaches seven hours, 100 when every night does |
| `Sleep.Series` | app.js:214-215 | the chart has exactly one point per day of the month |
| `Sleep.SeriesAfterLog` | app.js:190 | logging today's hours changes the chart at today's point only, to the logged value |
| `Sleep.SeriesCleared` | app.js:60 | an empty sleep log draws every point at 0 |
| `Sleep.SeriesBounded` | app.js:215 | when every logged value is in range, every point of the chart lies in 0..24 |
| `Sleep.ConsistencyExample` | app.js:204-206 | nights of 6, 8 and 7 hours give a consistency of 67 |
| `App.Tracker.constructor` | app.js:31-32 | the page starts from what storage held, with the in-memory and stored copies equal and saving locked |
| `App.Tracker.FinishInit` | app.js:250 | saving is unlocked after the first render |
| `App.Tracker.Save` | app.js:37-42 | while the page loads, storage is unchanged; afterwards storage equals the grid and the sleep log in memory |
| `App.Tracker.RenderTable` | app.js:100-107 | a blank row is appended under the new key exactly when the grid is empty, its last key is falsy or its last name is not blank; existing records are untouched, at most one is added, the last row is then blank, nothing is stored |
| `App.Tracker.UpdateHabitName` | app.js:132-136 | the habit takes the trimmed value as its name and keeps its days; no other record changes; the renamed grid, without any blank row the render then appends, is what this call stores unless the page is loading |
| `App.Tracker.ToggleCheck` | app.js:138-144 | a day before today changes nothing; otherwise only `days[day]` of that habit is negated, whatever its name, and the grid is saved unless the page is loading |
| `App.ToggleFigures` | app.js:138-143 | for the grid update that an accepted toggle makes, the power score moves by exactly one, and the completed count moves only for today's box of a named habit, by exactly one |
| `App.Tracker.ClearAllDays` | app.js:55-57 | the `forEach` empties every habit's `days` and keeps every name |
| `App.Tracker.StartNewMonth` | app.js:55-64 | days and sleep are cleared and both are written to storage, even while the page is loading |
| `App.Tracker.ResetMonth` | app.js:48-81 | on cancel nothing changes; on confirmation the keys and names stay, every `days` map and the sleep log are empty, storage holds the cleared state, and the power score and completed count are 0 |
| `App.Tracker.LogSleep` | app.js:185-196 | a refused number changes nothing; an accepted one becomes today's entry only, is saved unless the page is loading, shows as last night's hours, moves the chart at today's point only, and keeps every logged value in range |
| `App.NothingTicked` | app.js:172-176 | a grid with no day written has power score 0 and nothing completed |
| `App.Load` | app.js:241-250 | loading the page writes nothing to storage and ends with saving unlocked; in memory it appends one `Blank` record under the new key exactly when the stored grid needs a blank row, and otherwise keeps the stored grid as it is |

## Left out

- The markup. This covers the HTML strings and `innerHTML`, the header row,
  the input and checkbox elements of `buildRow`, and writing the figures into
  the page (`app.js:91-129`, `app.js:163-166`, `app.js:208-210`). Only the
  state changes, the `disabled` predicate and the figures are modelled.
- Local storage and JSON (`app.js:31-32`, `app.js:40-41`, `app.js:63-64`).
  They are replaced by a ghost copy of the stored grid and log. The model
  assumes stored data parses to well-formed records, that JSON turning day
  numbers into string keys changes no lookup, and that no habit key looks
  like an array index, so `Object.keys` keeps insertion order. A
  `JSON.parse` failure is not modelled.
- The `confirm` and `alert` dialogs. The answer to the confirmation is a
  boolean parameter; the alert is not modelled.
- The chart library (`app.js:217-235`) and the chart's `destroy` lifecycle,
  step 4 of `resetMonth`. The library is an external collaborator; only the
  data series handed to it is modelled.
- The date header and its one-minute timer (`app.js:11-17`). This is clock
  and locale formatting.
- `new Date()` (`app.js:22-26`). `DAYS` and `TODAY_DATE` are constants of
  the tracker.
- `Date.now()` for new keys (`app.js:104`). The new key is a parameter that
  must not already be in use.
- `parseFloat` on the text field, and clearing the field (`app.js:186-187`,
  `app.js:193`). `logSleep` receives the parsed number.
- The sleep average and its `toFixed(1)` text (`app.js:199-202`). This is
  floating-point formatting.
- Percent.RoundedPercent: computed on exact rationals. The floating-point
  error of `completed / total * 100` in the source, which can flip a
  rounding at an exact half, is not modelled.
- The `updateDashboard`, `updatePowerScore`, `updateSleepDashboard` and
  `drawSleepChart` calls after each action are not repeated inside the
  action methods. Those calls change no state. Instead, the contracts of
  `resetMonth` and `logSleep` state their effect on the figures, and the
  lemma `App.ToggleFigures` states that of a toggle.
- App.Tracker.ToggleCheck, App.Tracker.UpdateHabitName: both require a key
  of the grid. In the source, any other key throws a `TypeError`, and the
  only callers are rendered rows, whose keys are always in the grid.
