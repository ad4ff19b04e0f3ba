# Study-plan viewer: navigation, completion toggle and progress chart

This project models the logic of a single-page study-plan viewer. It is a
fourteen-day mathematics curriculum shown one day at a time. It has three
buttons (Previous, Mark as Completed / Incomplete, Next) and a bar chart of
progress per subject section. Everything else in `src/App.js` is rendering.

The model has six modules:

- `Plan` (`plan.dfy`): the constant `studyPlan` table and the `sections`
  list. Each lesson keeps only its `day` label, its topic and its section.
- `Navigation` (`navigation.dfy`): the Previous/Next index arithmetic.
  JavaScript's `%` truncates toward zero, while Dafny's `%` is Euclidean.
  The model writes the JavaScript operator out as `JsRem`. For the operands
  the application can produce, the two agree.
- `Completion` (`completion.dfy`): `toggleCompletion`. The completed days are
  an array used as a set. The filter branch is `RemoveAll` and the spread
  branch is an append.
- `Progress` (`progress.dfy`): `progressData`. For each section it counts
  the lessons and the completed lessons, using recursive counts over prefixes
  of the plan.
- `StudyApp` (`study_app.dfy`): the two pieces of screen state as a
  `ViewState`, the buttons as `Action`s, and the reachable-state invariant.
  It also holds the concrete facts about the fixed table.
- `Seqs` (`seqs.dfy`): the duplicate-free predicate on sequences.

`completedDays` is an array used as a set, and the model keeps it as a
sequence. Toggling twice restores the set of members. It does not always
restore the list: a present index comes back at the end
(`Completion.ToggleTwicePresent`, `Completion.ToggleTwiceReorders`).
`toggleCompletion` does not check its index (src/App.js:163-169), so
`Completion.Toggle` accepts any integer. The range invariant comes from the
toggle button passing the current day (`StudyApp.Valid`,
`StudyApp.Reachable`).

## Model

| member | source | states |
|---|---|---|
| Plan.PlanWellFormed | src/App.js:15-157 | the table has 14 records; record `i` has `day == i + 1`; every section is in `sections`; `sections` has no duplicates |
| Navigation.JsRem | src/App.js:207 | JavaScript's truncating `%`: the result differs from the dividend by a multiple of `n`, lies in `[0, n)` for a non-negative dividend and in `(-n, 0]` for a negative one |
| Navigation.Next | src/App.js:222 | from a valid index, Next stays in `[0, n)`, steps forward by one, and wraps from `n - 1` to `0` |
| Navigation.Prev | src/App.js:207 | from a valid index, Previous stays in `[0, n)`, steps back by one, and wraps from `0` to `n - 1` |
| Navigation.PrevNextInverse | src/App.js:207-222 | Previous then Next, and Next then Previous, both restore every valid index |
| Navigation.ForwardIsShift | src/App.js:222 | `k` presses of Next from `day` land on `(day + k) mod n` |
| Navigation.BackwardIsShift | src/App.js:207 | `k` presses of Previous from `day` land on `(day - k) mod n` |
| Navigation.FullCycle | src/App.js:204-224 | `n` presses in either direction return to the starting day |
| Completion.RemoveAll | src/App.js:165 | the filter drops every copy of the index and keeps every other entry with its multiplicity; an absent index leaves the list unchanged; a duplicate-free list stays duplicate-free |
| Completion.RemoveAllAppend | src/App.js:165 | filtering distributes over concatenation, so the surviving entries keep their order |
| Completion.Toggle | src/App.js:163-169 | the toggled index's membership flips; every other index keeps its membership; the present case is the order-keeping filter that drops all copies; the absent case appends the index after the unchanged old list; duplicate-freedom is preserved |
| Completion.ToggleTwiceSameMembers | src/App.js:163-169 | toggling the same index twice restores the membership of every index |
| Completion.ToggleTwiceAbsent | src/App.js:164-167 | toggling an absent index twice gives back the identical list |
| Completion.ToggleTwicePresent | src/App.js:164-167 | toggling a present index twice in a duplicate-free list moves it to the end; the list is unchanged exactly when the index was already last |
| Completion.ToggleTwiceReorders | src/App.js:163-169 | toggling `0` twice in `[0, 1]` gives `[1, 0]` |
| Progress.Total | src/App.js:172 | a section's lesson count is at most the number of lessons |
| Progress.Completed | src/App.js:173-175 | a section's completed count never exceeds its lesson count |
| Progress.ProgressData | src/App.js:171-177 | one entry per section, in section order, each labelled with its section and with `completed <= total <= lessons` |
| Progress.TotalIsCardinality | src/App.js:172 | `total` equals the number of lesson indices whose section matches |
| Progress.CompletedIsCardinality | src/App.js:173-175 | `completed` equals the number of matching lesson indices that are listed as done, each counted once |
| Progress.ProgressDataEntry | src/App.js:171-177 | entry `j` holds section `j` with that section's total and completed counts |
| Progress.ProgressDataCounts | src/App.js:171-177 | entry `j`'s `total` and `completed` are the sizes of the matching index sets |
| Progress.SumsOverSections | src/App.js:150-177 | when every lesson's section is listed and no section is listed twice, the totals sum to the number of lessons and the completed counts sum to the number of listed lesson indices |
| StudyApp.Init | src/App.js:160-161 | the screen starts on day index 0 with nothing completed, and that state satisfies the invariant |
| StudyApp.IsCompleted | src/App.js:215-218 | in a valid state the button reads "Mark as Incomplete" exactly when the displayed lesson is among the indices counted in its section's completed bar |
| StudyApp.Step | src/App.js:204-224 | a button press changes only its own piece of state and keeps the state invariant |
| StudyApp.RunKeepsValid | src/App.js:160-224 | any sequence of presses from a valid state ends in a valid state |
| StudyApp.Reachable | src/App.js:160-224 | from the initial state (`day = 0`, no completed days), every reachable state has an index in `[0, 14)` and a duplicate-free completed list of valid indices |
| StudyApp.CurrentLesson | src/App.js:192-199 | in a valid state the displayed record exists, has `day` one more than the index, and belongs to a known section |
| StudyApp.ToggleFlipsCurrent | src/App.js:212-221 | the toggle button flips the current day's completed flag and leaves every other day's flag alone |
| StudyApp.ChartSums | src/App.js:171-177 | in every valid state the chart totals sum to 14 and the completed counts sum to the number of days marked done |
| StudyApp.SectionTotals | src/App.js:15-157 | the sections hold 6, 1, 2, 2, 2 and 1 lessons |
| StudyApp.NothingCompleted | src/App.js:173-175 | with no day marked done, every section's completed count is 0 |
| StudyApp.InitialChart | src/App.js:171-177 | the initial chart is Algebra 0/6, Commercial Mathematics 0/1, Geometry 0/2, Statistics 0/2, Coordinate Geometry 0/2, Others 0/1 |
| StudyApp.WrapAroundScenario | src/App.js:207-222 | Previous from day index 0 gives 13, and Next from there gives 0 |
| StudyApp.MarkFirstDayScenario | src/App.js:163-177 | marking day index 0 done lists it, sets its flag, and raises Algebra's completed count from 0 to 1 |
| StudyApp.UnmarkFirstDayScenario | src/App.js:163-177 | marking day index 0 done and then undone empties the list, clears the flag, and brings Algebra's completed count back to 0 |

## Left out

- Rendering (src/App.js:179-249), the `Card` and `Button` components, and Tailwind classes: presentation only. The components are not part of this model.
- `framer-motion` animation (src/App.js:181-186): visual and timing-based.
- The `recharts` bar chart (src/App.js:235-244): a foreign library that only consumes `progressData`. The model stops at the data it is given (`StudyApp.Chart`).
- React `useState` and re-render scheduling (src/App.js:160-161): the two state variables are an explicit `ViewState`, changed by the pure function `StudyApp.Step`.
- The `details` checklist strings of each lesson: display text with no behaviour.
- Navigation.JsRem: requires a positive divisor. A zero divisor would give `NaN` in JavaScript, but the divisor is always the table length, 14.
- Navigation.Next: its contract speaks only of indices in `[0, n)`. For other indices it still computes the JavaScript result, but no property of that result is stated. The application only produces indices in range (`StudyApp.Reachable`).
- Navigation.Prev: same restriction as `Navigation.Next`.
