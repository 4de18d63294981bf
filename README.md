# Journal core in Dafny

This project is a Dafny model of the core of a paper-notebook style journaling app, a React
single-page application. The Daily, Weekly, Monthly and Yearly pages each edit one record
per period: a day, an ISO week, a month or a year. Each edit writes the whole record back to
the browser's local store with a fresh `updatedAt` time. The mandala page edits a single
chart and hands it to a `mandalaEntries` table that the database does not declare, so the
chart is never stored (see "## Left out").

The model covers the following parts of the app:

- **The day timeline** (`src/components/Timeline.tsx`):
  - the hour strip;
  - creating an event by dragging;
  - the layout that puts overlapping events side by side, in the fewest columns;
  - editing, deleting and merging events imported from a calendar.
- **The swipe gesture** (`src/hooks/useSwipe.ts`): the gesture that turns a page.
- **The ISO week id** (`<year>-<week>`, the week number unpadded): the weekly and daily pages compute it.
- **Record edits**: the field-by-field saves of the Weekly, Daily, Monthly and Yearly pages, and the mandala chart.
- **The History page**: its search over all records.

The modules are laid out as follows:

| module | file | models |
|---|---|---|
| `Wrappers`, `Text`, `Lists` | `wrappers.dfy`, `text.dfy`, `lists.dfy` | results; the JavaScript string, number and array operations the core relies on (`padStart`, `String(n)`, `Number`, `parseInt`, `split`, `||`, a stable `sort`) |
| `Records`, `Items` | `records.dfy`, `items.dfy` | the stored record types of `src/db.ts`; the shared edits of task and check-item lists |
| `TimelineClock` | `timeline_clock.dfy` | `timeToMinutes`, `minutesToTime`, `getMinutesFromY` |
| `TimelineLayout` | `timeline_layout.dfy` | the `positionedEvents` computation, as methods with loops, proved against fold functions |
| `TimelineClusters`, `TimelineColumns`, `TimelinePlacement` | three files | what the layout promises: the clusters, the minimal column count, every event placed once, inside the strip |
| `TimelineWidget` | `timeline_widget.dfy` | the component's state (`Timeline` class): drag, edit modal, delete, update, calendar import |
| `Swipe` | `swipe.dfy` | the hook's state (`SwipeState` class) and the release decision |
| `IsoWeek` | `iso_week.dfy` | the proleptic Gregorian calendar as day numbers and the ISO 8601 week number, with JavaScript's reading of years 0-99 in `new Date(y, 0, 4)` |
| `WeeklyView`, `DailyView`, `MonthlyView`, `YearlyView`, `MandalaView`, `HistoryView` | one file each | each page's handlers and its `saveEntry` |

**How the model is written**

- A page handler becomes a function from the stored record to the record it saves.
- Where the source keeps mutable state, the model uses a class:
  - the timeline component;
  - the swipe hook;
  - the yearly page's `localGoals`;
  - the mandala page's `localEntry`.
- Its operations are methods whose `ensures` give the whole new state.

**JavaScript behaviour that the model writes out**

- **Truncating `%`.** `%` truncates toward zero, so a negative minute count prints a `-` inside the time.
- **`||`.** The operator falls back on any falsy value, such as an empty string.
- **`parseInt`.** It reads a digit prefix, and NaN is `None`.
- **`split`.** A missing part prints as `undefined`.
- **`Array.prototype.sort`.** The sort is stable.

**Parameters**

- `Date.now()`, `Math.random()` ids and colours, cursor coordinates and element sizes are parameters.
- The calendar's `formatTime` is a parameter.
- The History page's `Date` formatting and its case folding are parameters.

## Model

| member | source | states |
|---|---|---|
| Text.NatToString | src/components/Timeline.tsx:37 | `String(n)` of a natural number is a non-empty run of decimal digits, without a leading zero, whose value is `n` |
| Text.IntToString | src/WeeklyView.tsx:57 | `String(n)` of an integer: a `-` before the digits exactly when `n` is negative |
| Text.IntRoundTrip | src/DailyView.tsx:407 | an integer printed by `String(n)`, as an object key is, reads back as itself through `Number` |
| Text.PadStart2 | src/components/Timeline.tsx:37 | `padStart(2, '0')` keeps a string of two or more characters and left-pads a shorter one to exactly two |
| Text.JsNumber | src/components/Timeline.tsx:29-32 | `Number(s)` of a run of digits is its decimal value, and of `-` followed by digits the negative of that value |
| Text.ParseInt | src/HistoryView.tsx:91-98 | `parseInt` of a string that starts with a digit reads the longest leading run of digits; the empty string, or one that starts with neither a digit nor a sign, gives NaN (`None`) |
| Text.PaddedNatRoundTrip | src/components/Timeline.tsx:29-38 | a printed natural, padded to two characters, is all digits and reads back as itself through `Number` |
| Text.Split | src/HistoryView.tsx:74 | `split(sep)` always yields at least one part |
| Text.SplitDigitPair | src/WeeklyView.tsx:61 | two runs of digits joined by a non-digit separator split back into exactly the two runs |
| Text.OrElse | src/HistoryView.tsx:75 | `a || b` on strings yields one of the two, and is empty only when both are |
| Lists.Filter | src/components/Timeline.tsx:261 | a filter never grows the list |
| Lists.FilterCount | src/components/Timeline.tsx:261 | a filter keeps every passing element as often as it occurs, and no other element |
| Lists.FilterMembers | src/components/Timeline.tsx:261 | an element is in the filtered list exactly when it is in the list and passes |
| Lists.FilterKeepsAll | src/components/Timeline.tsx:261 | a filter that every element passes returns the list unchanged |
| Lists.FilterDropsAll | src/components/Timeline.tsx:261 | a filter that no element passes returns the empty list |
| Lists.SortBy | src/components/Timeline.tsx:132 | the comparator sort returns a permutation of the list, ascending by key |
| Lists.SortByStable | src/components/Timeline.tsx:132 | the sort is stable: the elements of one key keep their relative order |
| Lists.Map | src/components/Timeline.tsx:266 | `map` keeps the length and applies the function at each index |
| Lists.FilterAfterMap | src/MonthlyView.tsx:57 | a map that fixes every kept element, and keeps every dropped one dropped, does not change what a later filter keeps |
| Lists.SortedSplit | src/components/Timeline.tsx:132 | both halves of a sorted list are sorted, and the first lies below the second |
| Items.SetTaskText | src/WeeklyView.tsx:108-112 | the text edit replaces the text of exactly the tasks with that id |
| Items.ToggleTask | src/WeeklyView.tsx:114-118 | the toggle flips the mark of exactly the tasks with that id |
| Items.DeleteTask | src/WeeklyView.tsx:120-124 | the delete never grows the list and leaves no task with that id |
| Items.TaskEditsKeepShape | src/WeeklyView.tsx:108-118 | text edits and toggles keep every task's id and priority; the text edit keeps marks and other tasks, the toggle keeps texts and flips exactly the matching marks |
| Items.ToggleTaskTwice | src/WeeklyView.tsx:114-118 | toggling one id twice restores the list |
| Items.SetTaskTextIdempotent | src/WeeklyView.tsx:108-112 | setting the same text twice equals setting it once |
| Items.DeleteTaskExact | src/WeeklyView.tsx:120-124 | the delete keeps every task with another id exactly as often as before, in order, and drops the others |
| Items.SetItemText | src/WeeklyView.tsx:146-153 | the text edit of a check item touches only the items with that id |
| Items.ToggleItem | src/WeeklyView.tsx:155-162 | the toggle of a check item flips only the items with that id |
| Items.DeleteItem | src/WeeklyView.tsx:164-171 | the delete never grows the list and leaves no check item with that id |
| Items.ItemEditsKeepShape | src/MonthlyView.tsx:46-54 | check item text edits and toggles keep ids; the text edit changes exactly the matching texts and the toggle exactly the matching marks |
| Items.ToggleItemTwice | src/MonthlyView.tsx:51-54 | toggling a check item twice restores the list |
| Items.DeleteItemExact | src/MonthlyView.tsx:56-59 | the delete keeps every check item with another id exactly as often as before, in order, and drops the others |
| IsoWeek.ShiftDays | src/WeeklyView.tsx:54 | `setDate(getDate() + k)` for a shift of at most three days moves the day number by `k` and yields a valid date |
| IsoWeek.Thursday | src/WeeklyView.tsx:52-54 | the date moved to its week's Thursday is a Thursday, 3 days minus the days since Monday away |
| IsoWeek.ThursdayShift | src/WeeklyView.tsx:54 | the shift `3 - (getDay() + 6) % 7` lies within three days and lands on that Thursday |
| IsoWeek.FirstThursdayFacts | src/WeeklyView.tsx:55-56 | the year's first Thursday is a Thursday within the year's first seven days |
| IsoWeek.WeekNumberExact | src/WeeklyView.tsx:55-56 | the `Math.round` formula is an exact count of whole weeks, plus one, from the first Thursday of the year `week1` lands in; from year 100 on that is the Thursday's own year and the count lies in 1..53 |
| IsoWeek.EarlyYearWeekNegative | src/WeeklyView.tsx:55-57 | for a Thursday in years 1 to 99, `new Date(y, 0, 4)` lands in 1900 + y, so the week number is negative and the id prints `<year>--<n>` |
| IsoWeek.FourthOfJanuaryInWeekOne | src/WeeklyView.tsx:51-58 | from year 100 on, 4 January lies in week 1 of its own year |
| IsoWeek.WeekIdParts | src/WeeklyView.tsx:57 | for a Thursday from year 100 on, the week id splits at `-` into the year of the week's Thursday and the unpadded week number, which is at least 1 |
| IsoWeek.SameIdIffSameWeek | src/WeeklyView.tsx:51-58 | two dates from year 1 on get the same week id if and only if they lie in the same Monday-to-Sunday week |
| TimelineClock.JsRem | src/components/Timeline.tsx:36 | JavaScript's `%` by a positive divisor: the usual remainder for a non-negative dividend, and a value in `(-b, 0]` for a negative one |
| TimelineClock.MinutesToTimeFormat | src/components/Timeline.tsx:34-38 | a minute count in one day prints as `HH:MM` with two-digit hours below 24 and minutes below 60 |
| TimelineClock.TimeRoundTrip | src/components/Timeline.tsx:29-38 | `timeToMinutes(minutesToTime(m)) == m` for every non-negative minute count, past midnight included |
| TimelineClock.PrintedParts | src/components/Timeline.tsx:34-38 | a printed non-negative time splits at `:` into the padded hours and the padded minutes |
| TimelineClock.MinutesFromYFormula | src/components/Timeline.tsx:124-128 | from the top of the strip down, the time is 06:00 plus 15 minutes for every whole 12 pixels |
| TimelineClock.MinutesFromYSnapped | src/components/Timeline.tsx:124-128 | every computed time lies on a 15-minute mark, for any offset, above the strip included |
| TimelineClock.MinutesFromYMonotone | src/components/Timeline.tsx:124-128 | on the strip the time is at least 06:00, and a lower cursor never gives an earlier time |
| TimelineClock.MinutesFromYUnclamped | src/components/Timeline.tsx:124-128 | there is no upper clamp: every further 12 pixels add 15 minutes, past 22:00 and past midnight |
| TimelineLayout.FirstFit | src/components/Timeline.tsx:158-165 | the leftmost column whose last event ends by the event's start, or the column count when none fits |
| TimelineLayout.Place | src/components/Timeline.tsx:155-167 | placing an event keeps every column non-empty |
| TimelineLayout.Columns | src/components/Timeline.tsx:153-167 | a cluster gets at least one and at most one column per event; no column is empty, and in each column every event starts when the one before it has ended |
| TimelineLayout.EmitColumn | src/components/Timeline.tsx:169-178 | a column emits one box per event |
| TimelineLayout.GroupSorted | src/components/Timeline.tsx:136-150 | the grouping loop returns the cluster fold of the sorted slots |
| TimelineLayout.PlaceEvent | src/components/Timeline.tsx:156-166 | the inner placement loop computes `Place` |
| TimelineLayout.AssignColumns | src/components/Timeline.tsx:153-167 | the column loop computes `Columns` of the cluster |
| TimelineLayout.EmitPlaced | src/components/Timeline.tsx:169-178 | the output loop emits each column's events with its `EmitColumn` geometry, column by column |
| TimelineLayout.PlaceGroup | src/components/Timeline.tsx:153-179 | one cluster's contribution: its columns, placed |
| TimelineLayout.PositionEvents | src/components/Timeline.tsx:131-182 | the whole `positionedEvents` memo equals the reference `Layout` of the events |
| TimelineClusters.MaxEnd | src/components/Timeline.tsx:148 | the running end is non-negative, no event ends after it, and it is 0 or one of the ends |
| TimelineClusters.ScanLastEnd | src/components/Timeline.tsx:138-149 | the grouping scan's `lastEventEnd` is the running end of the open cluster |
| TimelineClusters.ClustersPartition | src/components/Timeline.tsx:136-150 | the clusters are non-empty and, concatenated, are exactly the sorted events |
| TimelineClusters.ClustersSeparated | src/components/Timeline.tsx:136-150 | every event of a later cluster starts at or after the end of every event of an earlier one |
| TimelineClusters.ClustersLinked | src/components/Timeline.tsx:136-150 | inside a cluster each event after the first starts before the latest end of those before it, so no cluster could be split |
| TimelineClusters.ClustersSorted | src/components/Timeline.tsx:132-150 | every cluster is sorted by start |
| TimelineClusters.IsolatedEventAlone | src/components/Timeline.tsx:136-150 | when every event of the sorted list has positive length and starts at or after minute 0, an event that overlaps no other event of its cluster is a cluster of its own |
| TimelineClusters.OverlapPartner | src/components/Timeline.tsx:136-150 | in a cluster of two or more positive-length events, every event overlaps some other event of it |
| TimelineColumns.DepthIsBusy | src/components/Timeline.tsx:153-167 | from the cluster's last start on, the number of events in progress equals the number of occupied columns |
| TimelineColumns.DepthAtMostColumns | src/components/Timeline.tsx:153-167 | no moment has more running events than there are columns |
| TimelineColumns.ColumnsAttained | src/components/Timeline.tsx:153-167 | some moment has as many running events as there are columns |
| TimelineColumns.ColumnCountIsMaxDepth | src/components/Timeline.tsx:153-169 | for a sorted cluster of positive-length events the column count is exactly the largest number of events in progress at once |
| TimelineColumns.FirstFitFewestColumns | src/components/Timeline.tsx:153-169 | for a sorted cluster of positive-length events, any column assignment that puts overlapping events in different columns uses at least as many columns as first fit opens |
| TimelineColumns.ZeroLengthTakesAColumn | src/components/Timeline.tsx:158-166 | an event of zero length still takes a column, though it is never in progress |
| TimelineColumns.ClusterColumnsMinimal | src/components/Timeline.tsx:131-169 | every cluster of the day's layout of positive-length events gets exactly its peak overlap as column count |
| TimelinePlacement.PlaceAddsEvent | src/components/Timeline.tsx:155-166 | placing an event adds it, and only it, to the multiset of placed events |
| TimelinePlacement.ColumnsPermutation | src/components/Timeline.tsx:153-167 | the columns of a cluster hold exactly its events |
| TimelinePlacement.EmitGroupEvents | src/components/Timeline.tsx:169-178 | a placed cluster emits exactly its events |
| TimelinePlacement.LayoutPermutation | src/components/Timeline.tsx:131-182 | the layout's boxes carry every input event exactly as often as the input does |
| TimelinePlacement.EmitGroupInStrip | src/components/Timeline.tsx:169-178 | every box of a cluster lies inside the strip, and all share the width `1 / colCount` |
| TimelinePlacement.LayoutInStrip | src/components/Timeline.tsx:131-182 | every box of the whole layout lies inside the strip |
| TimelinePlacement.SingletonFullWidth | src/components/Timeline.tsx:169-178 | a one-event cluster gets the full width at offset 0 |
| TimelinePlacement.IsolatedEventFullWidth | src/components/Timeline.tsx:131-182 | when every timed event has positive length and starts at or after minute 0, an event that overlaps no other event of its cluster is drawn at offset 0 and full width |
| TimelinePlacement.ColumnsSorted | src/components/Timeline.tsx:132-166 | when a cluster is sorted by start, so is each of its columns |
| TimelinePlacement.ChainedApart | src/components/Timeline.tsx:158-166 | in a column sorted by start, each event starts at or after the end of every earlier event of it, whatever the events' lengths |
| TimelinePlacement.ColumnsDisjoint | src/components/Timeline.tsx:155-166 | for a cluster sorted by start, two events placed in one column never overlap, even when an event ends before it starts |
| TimelinePlacement.LayoutColumnsDisjoint | src/components/Timeline.tsx:131-166 | in the layout of any day whose times parse, two events placed in the same column of a cluster never overlap; imported events that end before they start (an overnight event printed as `HH:mm`) included |
| TimelineWidget.DeleteEventContents | src/components/Timeline.tsx:260-263 | the delete removes every event with that id, and keeps every other event as often as before |
| TimelineWidget.DeleteEventInOrder | src/components/Timeline.tsx:260-263 | the delete keeps the surviving events in their order: deleting from two joined lists is joining the two deletions |
| TimelineWidget.UpdateEventText | src/components/Timeline.tsx:265-267 | the update keeps the number of events |
| TimelineWidget.UpdateEventTextFields | src/components/Timeline.tsx:265-267 | the update changes the text of just the events with that id, and keeps ids, times and colours |
| TimelineWidget.UpdateEventTextIdempotent | src/components/Timeline.tsx:265-267 | updating the same text twice equals updating it once |
| TimelineWidget.DeleteAfterUpdate | src/components/Timeline.tsx:260-267 | deleting an event after editing its text equals deleting it straight away |
| TimelineWidget.UpdateKeepsSlots | src/components/Timeline.tsx:265-267 | a text update keeps every event's times readable and its slot unchanged, so the layout does not move |
| TimelineWidget.Imported | src/components/Timeline.tsx:93-100 | an imported calendar event gets a `google-` prefixed id and the palette colour of its position |
| TimelineWidget.ImportAll | src/components/Timeline.tsx:93-100 | the import maps the fetched events one for one, in order |
| TimelineWidget.MergeContents | src/components/Timeline.tsx:93-103 | after a sync, the events are the user's own events in order, then the imported ones; no earlier import survives |
| TimelineWidget.MergeIdempotent | src/components/Timeline.tsx:93-103 | syncing the same calendar twice gives what syncing once gives |
| TimelineWidget.MergeKeepsCreated | src/components/Timeline.tsx:102-103 | an event whose id does not start with `google-` survives every sync unchanged |
| TimelineWidget.Base36IdIsLocal | src/components/Timeline.tsx:242 | an id drawn as base-36 digits never starts with the `google-` import prefix |
| TimelineWidget.CreatedEventSurvivesSync | src/components/Timeline.tsx:238-249 | the event a drag creates, with its base-36 id, is in the list after any later sync |
| TimelineWidget.NewEventSpan | src/components/Timeline.tsx:241-247 | a dragged event's printed times read back as the dragged start and end, at least one snap step apart |
| TimelineWidget.TextOf | src/components/Timeline.tsx:68-76 | the editor's text is empty when no event has the edited id, and otherwise the text of the first event with that id, wherever it stands in the list |
| TimelineWidget.Timeline.constructor | src/components/Timeline.tsx:40-45 | the component starts with the given events, no drag and no event being edited |
| TimelineWidget.Timeline.Press | src/components/Timeline.tsx:184-208 | unless the editor is open or the strip is not mounted, a press starts a drag at the snapped time under the cursor, with the end one snap step later; otherwise nothing changes |
| TimelineWidget.Timeline.Move | src/components/Timeline.tsx:210-231 | during a drag the end follows the cursor's time but never comes closer than one snap step to the start; outside a drag nothing changes |
| TimelineWidget.Timeline.Release | src/components/Timeline.tsx:233-258 | a release ends the drag; after a real drag it appends one empty event from start to current time and opens it for editing; it keeps every earlier event, and the only event it adds has no import prefix |
| TimelineWidget.Timeline.Open | src/components/Timeline.tsx:340-343 | clicking an event opens the editor on it with the text of the first event carrying its id (`TextOf`); the events and the drag are unchanged |
| TimelineWidget.Timeline.Type | src/components/Timeline.tsx:390 | typing replaces the modal's text and nothing else |
| TimelineWidget.Timeline.Close | src/components/Timeline.tsx:377-384 | the backdrop or the close button closes the modal; the events are unchanged and the text resets |
| TimelineWidget.Timeline.Delete | src/components/Timeline.tsx:260-263 | the delete button saves the events without that id and closes the modal |
| TimelineWidget.Timeline.SaveAndClose | src/components/Timeline.tsx:402-405 | the save button writes the modal's text into the edited event and closes the modal |
| TimelineWidget.Timeline.Sync | src/components/Timeline.tsx:91-103 | the calendar sync saves the merge of the user's events with the fresh import, and keeps every event without the import prefix |
| Swipe.Decide | src/hooks/useSwipe.ts:72-83 | a callback runs only on a committed swipe, the right one exactly for a rightward swipe when it is given, the left one likewise |
| Swipe.DecideCommits | src/hooks/useSwipe.ts:72-77 | the page turn commits exactly when the distance beats the threshold and the speed beats the minimum |
| Swipe.DecideMirror | src/hooks/useSwipe.ts:77-83 | mirroring the gesture keeps the commitment and swaps the side |
| Swipe.SlowSwipeIgnored | src/hooks/useSwipe.ts:10-15 | with the default settings (50 px, 0.3 px/ms) a swipe of at most 60 px that takes 200 ms or more never turns the page |
| Swipe.Progress | src/hooks/useSwipe.ts:62-63 | the flip progress is in 0..1, is 1 exactly when the drag spans the width, and below that times the width gives the distance dragged |
| Swipe.DirectionOf | src/hooks/useSwipe.ts:195 | the direction is right for a positive offset, left for a negative one and none at zero |
| Swipe.SwipeState.constructor | src/hooks/useSwipe.ts:10-22 | the hook starts idle, with no gesture, no transition and zero progress, under the given callbacks and limits |
| Swipe.SwipeState.Press | src/hooks/useSwipe.ts:24-47 | a press with another mouse button than the left, or on a button, a link or a `data-no-swipe` element, changes nothing; any other press starts the gesture here and now and measures the container |
| Swipe.SwipeState.Move | src/hooks/useSwipe.ts:49-67 | during a gesture, a mostly horizontal move sets the offset and the progress; a mostly vertical one, or a move outside a gesture, changes nothing |
| Swipe.SwipeState.Release | src/hooks/useSwipe.ts:69-94 | a release ends the gesture and runs the callback `Decide` picks; the transition starts exactly when `Decide` commits, and the mouse also resets the progress |
| Swipe.SwipeState.TransitionEnd | src/hooks/useSwipe.ts:85-88 | the timer ends the transition and resets the progress |
| WeeklyView.SaveEntry | src/WeeklyView.tsx:78-95 | the saved week always has the week id and the current time, and keeps its stored start date unless that is empty |
| WeeklyView.SaveEntryFields | src/WeeklyView.tsx:78-95 | the update's field takes the new value; every other field is the stored one, or its default for a new week |
| WeeklyView.SaveEntryIdempotent | src/WeeklyView.tsx:78-95 | saving the same update again later gives what saving it once at that later time gives |
| WeeklyView.ResaveOnlyTouchesClock | src/WeeklyView.tsx:78-95 | saving a field's present value back into a record the page wrote changes only `updatedAt` |
| WeeklyView.NewTask | src/WeeklyView.tsx:99-104 | a new task is empty and open, carries the drawn id and has the priority of its list |
| WeeklyView.AddTaskAppends | src/WeeklyView.tsx:97-106 | adding a task appends one empty, open task of the list's priority to that list |
| WeeklyView.TaskHandlersTouchOneList | src/WeeklyView.tsx:97-124 | each task handler leaves every field but its own list at the stored value or its default |
| WeeklyView.ToggleTaskTwice | src/WeeklyView.tsx:114-118 | toggling a task twice restores the stored list |
| WeeklyView.GoalActionsCases | src/WeeklyView.tsx:127-135 | a stored goal's action list is returned as it is, an action in the earlier format becomes one item with id `migrated-0`, and anything else gives no actions |
| WeeklyView.SaveGoalActionsOnlyThatKey | src/WeeklyView.tsx:137-171 | saving one goal's actions stores them as a list under that key, leaves every other key and every other field as it was |
| WeeklyView.GoalActionHandlers | src/WeeklyView.tsx:137-171 | adding, editing, toggling and deleting a goal action apply that list edit to the goal's current actions |
| WeeklyView.LegacyActionMigrates | src/WeeklyView.tsx:127-153 | editing the text of an action in the earlier format saves a one-item list with the new text and the old mark |
| WeeklyView.NextWeekGoalHandlers | src/WeeklyView.tsx:181-208 | next week's goal handlers edit that list only: a new goal is empty, open and low priority, and the delete keeps exactly the goals with another id |
| DailyView.SaveEntry | src/DailyView.tsx:67-98 | the saved day always has the day id as id and date and the current time; its main task is the stored one, or an empty task under the drawn id for a new day |
| DailyView.SaveEntryFields | src/DailyView.tsx:67-98 | the update's field takes the new value; every other field is the stored one, or the new day's default |
| DailyView.ApplyFields | src/DailyView.tsx:67-98 | applying an update sets its one field and no other |
| DailyView.NewDayDefaults | src/DailyView.tsx:70-91 | a new day is saved with one empty gratitude line, two empty open tasks in each small list, no habit ticked, an empty timeline and mood 0, except in the updated field |
| DailyView.SaveEntryIdempotent | src/DailyView.tsx:67-98 | saving the same update again later gives what saving it once at that later time gives |
| DailyView.ToggleHabitFlipsOne | src/DailyView.tsx:130-134 | toggling a habit flips that habit's mark, a never-ticked habit becoming ticked, and keeps every other habit; toggling twice restores the mark |
| DailyView.GratitudeOf | src/DailyView.tsx:137 | a day with nothing stored has one empty gratitude line |
| DailyView.UpdateGratitudeGuard | src/DailyView.tsx:136-142 | editing a line saves exactly when the line exists, and then replaces that line only |
| DailyView.AddGratitudeAppends | src/DailyView.tsx:144-148 | adding appends one empty line |
| DailyView.SpliceOne | src/DailyView.tsx:153 | `splice(i, 1)` removes at most one element |
| DailyView.RemoveGratitudeExact | src/DailyView.tsx:150-156 | removing saves exactly when more than one line is left, never empties the list, and takes out exactly the named line |
| DailyView.SpliceFromEnd | src/DailyView.tsx:153 | an index of -1 removes the last line, as `splice` counts from the end |
| DailyView.Merge | src/DailyView.tsx:159 | an empty patch changes nothing, and the text and the mark come from the patch when it gives them |
| DailyView.UpdateTaskMergesMatching | src/DailyView.tsx:158-161 | a task update keeps the list's length and order and merges the patch into exactly the tasks with that id |
| DailyView.ToggleTaskFlips | src/DailyView.tsx:163-166 | a toggle flips the mark of exactly the tasks with that id and changes nothing else; toggling twice restores the list |
| DailyView.NewDayToggleSavesNoTasks | src/DailyView.tsx:488-493 | on a day with nothing stored the page shows placeholder tasks, but toggling one saves an empty list |
| DailyView.AddTaskAsWrittenAddsNothing | src/DailyView.tsx:509 | the add-task button as written saves the list unchanged when no stored task carries the drawn id |
| DailyView.AddTaskAppends | src/DailyView.tsx:509 | the corrected add-task keeps the list in front and appends one empty, open task with the drawn id |
| MonthlyView.MonthIdParts | src/MonthlyView.tsx:15 | the month id is the year, a dash and two digits that read back as the month |
| MonthlyView.MonthIdInjective | src/MonthlyView.tsx:15 | different months get different ids |
| MonthlyView.SaveEntry | src/MonthlyView.tsx:20-29 | the saved month keeps its stored id, or takes the month id when new, and carries the current time |
| MonthlyView.SaveEntryMerge | src/MonthlyView.tsx:20-29 | the update's field takes the new value; the others are the stored ones, or empty for a new month |
| MonthlyView.ResaveOnlyTouchesClock | src/MonthlyView.tsx:20-29 | saving a field's own value back changes only `updatedAt` |
| MonthlyView.AddGoalAppends | src/MonthlyView.tsx:36-44 | adding a goal appends one empty, open goal |
| MonthlyView.EditGoalKeepsShape | src/MonthlyView.tsx:46-54 | text edits and toggles keep the list's shape and change only the matching goals; toggling twice restores it |
| MonthlyView.DeleteGoalExact | src/MonthlyView.tsx:56-59 | the copy before the filter changes nothing, and the delete keeps exactly the goals with another id |
| YearlyView.PadGoals | src/YearlyView.tsx:56-64 | the padding loop keeps the stored goals in front and adds empty goals under the drawn ids until there are five |
| YearlyView.SetGoalText | src/YearlyView.tsx:107-115 | the text edit changes just the goal at that index, when it exists |
| YearlyView.ToggleGoalAt | src/YearlyView.tsx:126-137 | the toggle flips just the mark of the goal at that index, when it exists |
| YearlyView.EditMonth | src/YearlyView.tsx:139-167 | a month edit keeps the number of goals |
| YearlyView.SetReflection | src/YearlyView.tsx:169-179 | the reflection edit changes just the reflection of the goal at that index |
| YearlyView.MonthlyEditsTouchOneKey | src/YearlyView.tsx:139-167 | a month edit changes that one month of that one goal: the text or the mark, keeping the other |
| YearlyView.FirstMonthlyEdit | src/YearlyView.tsx:139-167 | a month never planned before starts from an empty, open action |
| YearlyView.TogglesTwice | src/YearlyView.tsx:126-167 | toggling a goal, or a month, twice restores its mark |
| YearlyView.Save | src/YearlyView.tsx:85-99 | the saved year keeps its stored id, or takes the year id when new; each field comes from the update, else the stored year, else the default (the local goals, or five fresh goals when there are none) |
| YearlyView.FreshGoals | src/YearlyView.tsx:21-28 | five empty goals, one under each drawn id |
| YearlyView.YearlyPage.constructor | src/YearlyView.tsx:18-28 | the page starts with five empty local goals under the drawn ids, and no year loaded |
| YearlyView.YearlyPage.SyncEffect | src/YearlyView.tsx:34-51 | a stored list of five or more goals becomes the local goals when the year is first seen, and later whenever no text area has the focus; otherwise nothing changes |
| YearlyView.YearlyPage.PadEffect | src/YearlyView.tsx:54-83 | a stored year with five or more goals is left alone; one with fewer is padded with empty goals to five, every other field kept; a missing year is created with five empty goals; the local goals do not change |
| YearlyView.YearlyPage.SaveField | src/YearlyView.tsx:85-99 | a theme or reflection save stores `Save` of the stored year and keeps the local goals |
| YearlyView.YearlyPage.TextChange | src/YearlyView.tsx:107-115 | typing in a goal changes that local goal's text only, with nothing saved |
| YearlyView.YearlyPage.TextSave | src/YearlyView.tsx:118-124 | leaving a goal field writes the text into the local goal too, since the copy shares the goal objects, and saves the list when the goal exists |
| YearlyView.YearlyPage.Commit | src/YearlyView.tsx:126-179 | when a goal was changed the new list becomes the local goals and is saved; otherwise nothing changes |
| YearlyView.YearlyPage.ToggleGoal | src/YearlyView.tsx:126-137 | the toggle flips the indexed goal's mark in the local goals and saves them as `Save` of the stored year (theme, reflection and id kept); an index out of range changes nothing |
| YearlyView.YearlyPage.UpdateMonthlyAction | src/YearlyView.tsx:139-152 | the month text edit sets that month's text in the local goals and saves them as `Save` of the stored year (theme, reflection and id kept); an index out of range changes nothing |
| YearlyView.YearlyPage.ToggleMonthlyAction | src/YearlyView.tsx:154-167 | the month toggle flips that month's mark in the local goals and saves them as `Save` of the stored year (theme, reflection and id kept); an index out of range changes nothing |
| YearlyView.YearlyPage.UpdateGoalReflection | src/YearlyView.tsx:169-179 | the reflection edit sets that goal's reflection in the local goals and saves them as `Save` of the stored year (theme, reflection and id kept); an index out of range changes nothing |
| MandalaView.CreateEmptyEntry | src/MandalaView.tsx:22-27 | an empty chart has an empty main goal and eight sub-goals, each with eight empty items |
| MandalaView.CellOf | src/MandalaView.tsx:107-111 | every ring position has a cell of the 3×3 grid |
| MandalaView.Render3x3 | src/MandalaView.tsx:84-128 | a grid has nine cells |
| MandalaView.Render3x3Mapping | src/MandalaView.tsx:100-111 | the two tables agree: the centre is the only cell without a position, every other cell shows the item its position names, and each position appears in exactly one cell |
| MandalaView.RingIsClockwise | src/MandalaView.tsx:100-111 | consecutive positions lie in touching cells around the centre, so the ring runs round it |
| MandalaView.MandalaBoard.constructor | src/MandalaView.tsx:29 | the page opens on an empty chart, with no write requested yet |
| MandalaView.MandalaBoard.Store | src/MandalaView.tsx:49-51 | `saveEntry` hands the chart with the current time to `db.mandalaEntries.put` and keeps the local chart; the table is not declared, so the write does not reach the store |
| MandalaView.MandalaBoard.MainGoalChange | src/MandalaView.tsx:53-59 | the main goal edit sets the main goal and stores the chart |
| MandalaView.MandalaBoard.SubGoalTextChange | src/MandalaView.tsx:61-68 | the sub-goal edit sets that sub-goal's text and stores the chart; an index with no sub-goal changes nothing |
| MandalaView.MandalaBoard.SubGoalItemChange | src/MandalaView.tsx:70-77 | the item edit sets that one item and stores the chart; a sub-goal or item index out of range changes nothing |
| MandalaView.MandalaBoard.Reset | src/MandalaView.tsx:242-248 | a confirmed reset stores and shows an empty chart; a cancelled one changes nothing |
| MandalaView.ItemEditIsLocal | src/MandalaView.tsx:70-77 | an item edit changes that item only: the main goal, the sub-goal texts and every other item are kept |
| MandalaView.SubGoalTextEditIsLocal | src/MandalaView.tsx:61-68 | a sub-goal text edit keeps every item, every other sub-goal and the main goal |
| HistoryView.NonEmpty | src/HistoryView.tsx:44 | `.filter(Boolean)` keeps exactly the non-empty texts |
| HistoryView.Take | src/HistoryView.tsx:53 | `slice(0, n)` keeps the first `n` elements, or all of a shorter list |
| HistoryView.DailyResult | src/HistoryView.tsx:48-55 | a day's result is of the daily kind and carries the day's id |
| HistoryView.WeeklyResult | src/HistoryView.tsx:70-77 | a week's result is of the weekly kind and carries the week's id |
| HistoryView.MonthlyResult | src/HistoryView.tsx:91-99 | a month's result is of the monthly kind and carries the month's id |
| HistoryView.YearlyResult | src/HistoryView.tsx:113-120 | a year's result is of the yearly kind and carries the year's id |
| HistoryView.GatherStep | src/HistoryView.tsx:34-57 | one more entry adds its result at the end exactly when its text passes the search |
| HistoryView.Collect | src/HistoryView.tsx:34-57 | one table's loop appends the results of the passing entries, in table order |
| HistoryView.Results | src/HistoryView.tsx:30-127 | the archive is the four tables' results, filtered by type and sorted newest first |
| HistoryView.ArchiveNewestFirst | src/HistoryView.tsx:126 | the timestamps never increase down the archive |
| HistoryView.ArchiveTypeFilter | src/HistoryView.tsx:125 | a type filter keeps only results of that type, and each matching result of that type exactly as often; 'all' keeps every matching result |
| HistoryView.EmptyQueryGathersAll | src/HistoryView.tsx:47 | with an empty query each table contributes one result per entry, in table order |
| HistoryView.EmptyQueryOnePerEntry | src/HistoryView.tsx:34-126 | with an empty query and no type filter the archive holds every stored entry's result exactly once |
| HistoryView.BlankTasksAddNothing | src/HistoryView.tsx:39-44 | blank task texts do not change a day's content |
| HistoryView.DailyContentFirstTexts | src/HistoryView.tsx:35-53 | a day whose only text is its intention shows the intention as its content |
| HistoryView.OnlyIntentionFilled | src/HistoryView.tsx:35-44 | when nothing but the intention is filled in, the day searches the intention alone |
| HistoryView.WeeklyTitleOfWeekId | src/HistoryView.tsx:74 | a week saved under the id of a week whose Thursday is from year 100 on is titled `Week <number>, <year>` with the ISO week number and year |
| HistoryView.MonthlyTitleOfMonthId | src/HistoryView.tsx:91-96 | a month saved under its month id is titled `<year>年 <month>月`, the month without its leading zero |
| HistoryView.TitlesOfIdsWithoutDash | src/HistoryView.tsx:74-96 | for an id without a dash the week title shows `undefined` and the month title `NaN` |
| HistoryView.UndefinedIsNaN | src/HistoryView.tsx:96 | `parseInt` of `undefined` is NaN |

## Left out

- Persistence is left out: the local store (Dexie on IndexedDB) and its live queries. A page's stored record is an `Option` parameter, and a save returns the record it writes. The store's loading state and the race between a write and the live query's next value are not modelled.
- The calendar service is left out: the Google sign-in, `gapi` and `listUpcomingEvents`. The fetched events are a parameter, and so is the `formatTime` that turns their dates into `HH:MM`.
- `Math.random()` is left out: the ids and colours it draws are parameters.
- `Date.now()` is left out: the current time is a parameter.
- Timers and listener registration are left out:
  - The swipe's 600 ms timer is the separate `TransitionEnd` call.
  - The listeners are registered afresh on every render, so `Release` reads the current offset.
- MandalaView's synchronisation effect (`src/MandalaView.tsx:36-47`) is left out: it copies a stored chart into `localEntry`, and no chart is ever stored (see `MandalaView.MandalaBoard.Store` below).
- The daily habit list's `addHabit`, `updateHabit` and `deleteHabit` are left out: they write the habit table rather than a day's record.
- TimelineLayout.PositionEvents: requires every event's times to parse (`Timed`). A time that does not parse gives NaN in the source's sort and overlap tests, and the model does not cover that.
- HistoryView.Results: timestamps are integers, so a NaN date in the sort is not modelled. The case folding (`toLowerCase`), the substring test and the `Date` formatting of titles are parameters.
- Pixel positions in the timeline are integers, where the browser gives fractions. `getMinutesFromY` floors them, so only whole pixels are covered.
- Time zones and daylight saving are left out. The ISO week works on whole days; the source's `Math.round` absorbs a one-hour shift. Years before 1 are not covered.
- IsoWeek.WeekIdParts, IsoWeek.FourthOfJanuaryInWeekOne and HistoryView.WeeklyTitleOfWeekId: stated for Thursdays from year 100 on. For years 1 to 99 the source counts weeks from 4 January of 1900 + year; `IsoWeek.EarlyYearWeekNegative` states what it then computes.
- MandalaView.MandalaBoard.SubGoalItemChange: an item index out of range is modelled as no change. JavaScript would write past the end of the array.
- MandalaView.MandalaBoard.SubGoalTextChange: the shallow copy `{ ...prev }` shares its sub-goal array with the previous state, and the model works on values, so that sharing is lost. The same holds for `SubGoalItemChange`.
- YearlyView.YearlyPage.SyncEffect: the focus test `document.activeElement?.closest('textarea')` is the parameter `typing`. When React runs the effect is left to the caller: the model does not order it against the padding effect or the handlers.
- YearlyView.YearlyPage.PadEffect: treats a year missing from the store as the `null` branch (line 68). The store's lookup resolves to `undefined` there; the store is not part of this model.
- WeeklyView.SaveEntry: `saveEntry` re-reads the store (`await db.weeklyEntries.get(weekId)` at `src/WeeklyView.tsx:79`), while the handlers build their lists from the live query's record. The model takes both to be the same record.
- DailyView.SaveEntry: `saveEntry` re-reads the store in the same way (`await db.dailyEntries.get(dateId)` at `src/DailyView.tsx:69`). The model takes the re-read record to be the live query's record.
- MandalaView.MandalaBoard.Store: records the chart handed to `db.mandalaEntries.put`, not a stored chart. `src/db.ts:78-94` declares no `mandalaEntries` table and defines no `MandalaEntry` type, so the `put` throws and the live query reads no chart. `src/App.tsx` never imports the page. The model's `saved` field is the last write the page requested; what the store would then hold is not modelled.
- Text.ParseInt and Text.JsNumber: leading white space, a `0x` prefix, decimal points, exponents and `Infinity` are not modelled. `parseInt("0x1A")` is 26, where the model reads 0. JavaScript's `parseInt(" 5")` is 5 and `Number("1.5")` is 1.5; the journal's ids and times never contain them.
- Swipe.SwipeState.Move: requires `innerWidth > 0`, because an infinite or NaN progress is not modelled. The element is taken to be mounted.
- The record maps are keyed by integers (months, goal indices). JavaScript object keys are strings that read back as the same integers.
- The drag is not clamped to the strip, because the code does not clamp. `TimelineClock.MinutesFromYUnclamped` states the consequence.
- A mousedown on an event box bubbles to the strip and starts a drag. The model keeps this: `Press` does not look at the target.
- The parent's `onSave` is taken to update the timeline's `events` at once. React's batched re-render is not modelled.
- The mock previews (`src/mocks/`), the calendar picker, the layout shell and the error boundary are left out, because they hold no logic of the core.

## Findings

| source | as written | input that shows it | evidently intended | confidence | as-written member | corrected member |
|---|---|---|---|---|---|---|
| src/DailyView.tsx:509 | The add-task button calls `updateTask` with a freshly drawn id. That only merges into tasks that already carry the id, so nothing is added. | any day whose tasks do not carry the drawn id, for example a day with no tasks | append one empty, open task with the drawn id | not executed | DailyView.AddTaskAsWrittenAddsNothing | DailyView.AddTaskAppends |
