# Day grouping and page state of a to-do and goal tracker

This project models the logic of a small productivity web client. The client
has a daily to-do list and a goal tracker with sub-goals, and both are backed
by a hosted database with three tables: `todos`, `goals` and `sub_goals`.
Two parts of the client have rules worth stating, and both are modelled:

- **Day grouping of to-dos** (`day_grouping.dfy`, module `DayGrouping`).
  `groupTodosByDate` puts the to-dos into one bucket per creation day and
  lists the buckets most recent day first. `formatDate` gives each bucket its
  header: `Today`, `Yesterday` or the long-form date. A creation timestamp is
  an integer day number, and the long-form date is the constructor
  `LongForm(day)`. The method `GroupTodosByDate` follows the source's two
  passes. The first pass, `CollectBuckets`, appends each to-do to its day's
  bucket. The second sorts the keys (`SortNewestFirst`) and collects the
  buckets in key order. The method is proved against `IsDayGrouping`, and the
  lemmas show what that predicate means:
  - the buckets partition the input;
  - each to-do is in its own day's bucket;
  - buckets are non-empty;
  - a bucket keeps input order;
  - the grouping is unique;
  - headers are distinct.
- **Page state of the two list pages** (`schedule_page.dfy`, class
  `SchedulePage.TodoPage`; `goal_page.dfy`, class `GoalCompleter.GoalPage`).
  The fields are the page's state slots: lists, and dictionaries as `map`s.
  Each handler is a method. It takes the outcomes the store gives to the
  calls it may make (`Outcome<T>`: `Ok(data)` or `Err`), and it returns the
  list of store calls it made (`StoreCall`). Its postconditions give every
  field's new value. The dictionary updaters are the functions
  `ToggledExpansion`, `WithSubGoals` and `WithoutGoal`. The rebuild of the
  expansion map is the loop `AutoExpand`. The blank-input guard is
  `Text.IsBlank`, built on a model of `String.prototype.trim`
  (`text.dfy`).

A goal the store reports complete after a successful sub-goal change
collapses. The handler calls `fetchGoals` again
(src/pages/GoalCompleterPage.tsx:104, 124, 169), and `fetchGoals` rebuilds
the expansion map from the fetched goals alone (lines 28-34). See
`GoalCompleter.RebuiltFlags` and the postconditions of
`GoalCompleter.GoalPage.ToggleSubGoal`.

## Model

| member | source | states |
|---|---|---|
| `Text.Trim` | src/pages/SetSchedulePage.tsx:76-81 | the trimmed text is the part of the input that follows its leading whitespace run, everything cut after it is whitespace, and it neither starts nor ends with whitespace |
| `Text.IsBlank` | src/pages/SetSchedulePage.tsx:76 | the blank guard `trim() === ''` (also at src/pages/GoalCompleterPage.tsx:65) holds exactly when every character is whitespace |
| `DayGrouping.FormatDate` | src/pages/SetSchedulePage.tsx:5-23 | the current day gives `Today`, the day before gives `Yesterday`, and every other day gives its long-form date |
| `DayGrouping.FormatDateInjective` | src/pages/SetSchedulePage.tsx:11-21 | two days with the same header are the same day |
| `DayGrouping.OnDay` | src/pages/SetSchedulePage.tsx:29-35 | a day's bucket holds exactly the to-dos created that day |
| `DayGrouping.CollectBuckets` | src/pages/SetSchedulePage.tsx:27-35 | after the `forEach` there is one bucket per creation day and no other, each bucket holds that day's to-dos in input order, and each key is listed once |
| `DayGrouping.SortNewestFirst` | src/pages/SetSchedulePage.tsx:38-39 | the sorted keys are the same keys, strictly descending (most recent day first) |
| `DayGrouping.GroupTodosByDate` | src/pages/SetSchedulePage.tsx:26-46 | the result is the grouped view: buckets strictly newest first, one per creation day, each holding exactly that day's to-dos in input order |
| `DayGrouping.GroupingIsPartition` | src/pages/SetSchedulePage.tsx:26-35 | the buckets, read in order, hold the input to-dos exactly once each (same multiset) |
| `DayGrouping.GroupingPlacesByOwnDay` | src/pages/SetSchedulePage.tsx:30-34 | every to-do is in the bucket keyed by its own creation day and in no bucket of another day |
| `DayGrouping.GroupingBucketsNonEmpty` | src/pages/SetSchedulePage.tsx:31-34 | no bucket is empty, and there are no buckets exactly when there are no to-dos |
| `DayGrouping.OnDayKeepsInputOrder` | src/pages/SetSchedulePage.tsx:29-34 | the k-th to-do of a bucket is the to-do at the k-th input position created that day, and those positions increase |
| `DayGrouping.NewestFirstDetermined` | src/pages/SetSchedulePage.tsx:37-43 | two strictly newest-first key orders over the same days are identical |
| `DayGrouping.GroupingIsUnique` | src/pages/SetSchedulePage.tsx:37-45 | a to-do list has exactly one grouped view |
| `DayGrouping.HeadersDistinct` | src/pages/SetSchedulePage.tsx:174-176 | no two buckets of the grouped view carry the same header, whatever the current day |
| `SchedulePage.TodoPage.constructor` | src/pages/SetSchedulePage.tsx:49-51 | the page starts with no to-dos, an empty input and loading on |
| `SchedulePage.TodoPage.EditNewTodo` | src/pages/SetSchedulePage.tsx:156 | typing replaces the draft and nothing else |
| `SchedulePage.TodoPage.FetchTodos` | src/pages/SetSchedulePage.tsx:54-72 | one select; success replaces the list, failure keeps it, and loading ends either way |
| `SchedulePage.TodoPage.AddTodo` | src/pages/SetSchedulePage.tsx:75-94 | a blank draft makes no call and changes nothing; otherwise the trimmed text is inserted as incomplete, and only a successful insert clears the draft and re-fetches |
| `SchedulePage.TodoPage.ToggleTodo` | src/pages/SetSchedulePage.tsx:97-113 | one update; a re-fetch follows only on success, and a failure changes nothing |
| `SchedulePage.TodoPage.DeleteTodo` | src/pages/SetSchedulePage.tsx:116-132 | one delete; a re-fetch follows only on success, and a failure changes nothing |
| `GoalCompleter.ToggledExpansion` | src/pages/GoalCompleterPage.tsx:177-180 | the toggled goal's flag is negated (missing reads as false), and every other entry is unchanged |
| `GoalCompleter.ToggleTwiceRestoresFlags` | src/pages/GoalCompleterPage.tsx:176-180 | toggling a goal twice leaves every goal's expansion as it was |
| `GoalCompleter.WithSubGoals` | src/pages/GoalCompleterPage.tsx:54-57 | the fetched goal's cache entry is set, and every other entry is unchanged |
| `GoalCompleter.WithoutGoal` | src/pages/GoalCompleterPage.tsx:145-149 | exactly the deleted goal's key leaves the cache, and the other entries are unchanged |
| `GoalCompleter.NeedsSubGoalLoad` | src/pages/GoalCompleterPage.tsx:182-185 | the guard `!expandedGoals[goalId] && !subGoals[goalId]` holds exactly when the toggle opens the goal and its cache has no entry; a cached empty list counts as loaded, because `![]` is false in JavaScript |
| `GoalCompleter.LoadedNeedsNoLoad` | src/pages/GoalCompleterPage.tsx:182-185 | once a goal's sub-goals are cached, even as an empty list, expanding it requests no load |
| `GoalCompleter.AutoExpand` | src/pages/GoalCompleterPage.tsx:28-33 | the rebuilt map sends to true exactly the ids of fetched goals that are not complete, and holds no other key |
| `GoalCompleter.ExpandsExactlyIncompleteUnique` | src/pages/GoalCompleterPage.tsx:27-34 | the rebuilt expansion map depends on the fetched goals alone |
| `GoalCompleter.RebuiltFlags` | src/pages/GoalCompleterPage.tsx:29-33 | after a rebuild a goal is expanded exactly when a fetched goal with its id is incomplete, so goals now complete are collapsed |
| `GoalCompleter.SubGoalDraftBlank` | src/pages/GoalCompleterPage.tsx:85-87 | the guard `!subGoalTitle \|\| subGoalTitle.trim() === ''` holds exactly when the goal has no draft or its draft is all whitespace (an empty draft is both) |
| `GoalCompleter.GoalPage.constructor` | src/pages/GoalCompleterPage.tsx:5-10 | the page starts with nothing loaded, empty drafts, no flags and loading on |
| `GoalCompleter.GoalPage.FetchGoals` | src/pages/GoalCompleterPage.tsx:13-38 | one select; success replaces the goals and rebuilds the expansion map from them alone, failure keeps both, and nothing else changes |
| `GoalCompleter.GoalPage.InitialLoad` | src/pages/GoalCompleterPage.tsx:202-208 | the first `fetchGoals`, after which loading is off whatever its outcome |
| `GoalCompleter.GoalPage.FetchSubGoals` | src/pages/GoalCompleterPage.tsx:41-61 | one select; success sets only that goal's cache entry, failure changes nothing |
| `GoalCompleter.GoalPage.RefreshGoal` | src/pages/GoalCompleterPage.tsx:103-104 | a goal's sub-goals and then the whole goal list are fetched again |
| `GoalCompleter.GoalPage.EditNewGoal` | src/pages/GoalCompleterPage.tsx:231 | typing replaces the goal draft and nothing else |
| `GoalCompleter.GoalPage.EditNewSubGoal` | src/pages/GoalCompleterPage.tsx:277-280 | typing replaces one goal's sub-goal draft and no other |
| `GoalCompleter.GoalPage.ToggleGoalExpansion` | src/pages/GoalCompleterPage.tsx:176-186 | only the goal's flag is negated, and a sub-goal load is requested exactly when the goal was collapsed and has no cache entry |
| `GoalCompleter.GoalPage.AddGoal` | src/pages/GoalCompleterPage.tsx:64-82 | a blank draft makes no call; otherwise the trimmed title is inserted, and on success only the goal draft is cleared and the goals are re-fetched |
| `GoalCompleter.GoalPage.AddSubGoal` | src/pages/GoalCompleterPage.tsx:85-108 | a missing or blank draft makes no call; otherwise the trimmed title is inserted, and on success only that goal's draft is emptied and its sub-goals and the goals are re-fetched |
| `GoalCompleter.GoalPage.ToggleSubGoal` | src/pages/GoalCompleterPage.tsx:111-128 | one update; success re-fetches that goal's sub-goals and then the goals, and failure changes nothing |
| `GoalCompleter.GoalPage.DeleteGoal` | src/pages/GoalCompleterPage.tsx:131-153 | one delete; success re-fetches the goals and drops exactly that goal's cache entry without reading it, and failure changes nothing |
| `GoalCompleter.GoalPage.DeleteSubGoal` | src/pages/GoalCompleterPage.tsx:156-173 | one delete; success re-fetches that goal's sub-goals and then the goals, and failure changes nothing |

## Left out

- Date handling is not modelled: JavaScript `Date` parsing, `toDateString` keys, local time zones and `toLocaleDateString` are library behaviour. A creation timestamp is an integer day number, and the long-form date is the constructor `LongForm(day)`. A missing or malformed timestamp (an "Invalid Date" key) is not modelled.
- `DayGrouping.SortNewestFirst` does not model the algorithm of `Array.prototype.sort`. It inserts each key into a sorted list and proves only the order the comparator defines. The keys are object keys, so they are never repeated, and the method requires that.
- The order of asynchronous calls is not modelled. The re-fetches the handlers start without waiting (for example src/pages/GoalCompleterPage.tsx:103-104) are applied at once, in the order they are started. Interleavings with other handlers are not modelled.
- The store is not modelled. The database client and its configuration read from the environment (src/lib/supabase.ts) are replaced by the outcome parameters of each handler. The rule that makes a goal complete lives in the store and is not modelled.
- The recorded select calls (`SelectTodos`, `SelectGoals`, `SelectSubGoals`) do not carry the order the query asks for: to-dos and sub-goals oldest first (src/pages/SetSchedulePage.tsx:59, src/pages/GoalCompleterPage.tsx:47), goals newest first (src/pages/GoalCompleterPage.tsx:18). That order is the input order a day's bucket keeps, so a bucket lists its to-dos oldest first.
- A successful select whose data is null (`data || []`) is not modelled: `Ok` always carries a list.
- Console logging of errors is not modelled, and a thrown exception is treated like a reported error (`Err`).
- The `Goal` and `SubGoal` record types are imported from src/lib/supabase.ts, but that file declares only `Todo`. Their fields here are the ones the goal page reads and writes.
- JSX rendering is not modelled: the empty-state and loading views, CSS class choice and the "no sub-goals yet" placeholder. The Enter-key handlers are not modelled either; they call the same handlers as the buttons.
- The static timetable page (src/pages/HomePage.tsx), the navigation bars and the router (src/components/Navbar.tsx, components/Navbar.tsx, src/App.tsx) are not part of this model; they hold no rules beyond markup and an active-link comparison.
