# Household chores dashboard: state transitions and analytics reshaping

This project models the two pieces of logic in a small chores dashboard.

- **Task management view.** It holds the task list, the roommate list and the task-type catalog, plus five form fields: the selected task, the selected date, the selected roommate, the new-roommate text and the new-task-type text. It is modelled as the class `TaskManagement.Component`. The mount-time load and the three "add" handlers are methods of that class. Each method takes the outcome of every request it would await as a parameter: `Resolved(data)` or `Rejected`. Each returns the requests it actually issued, in order. So "makes no request", "skips the re-fetch" and "nothing changes on failure" are stated in the methods' contracts. Field-level `modifies` frames (for example ``this`tasks``) say which fields a handler can never touch. The task table's "Completed By" join is a pure function.
- **Task analytics view.** The monthly bar chart comes from a pure map over the server's monthly records. Each record's roommate id is resolved to a name, with "Unknown" as the fallback. Its period is labelled as a short month name from a 12-entry table, a space and the year. Its count is copied unchanged. The label is checked against a parser that reads it back. The view's "no data" starting summaries are modelled too.

Modules: `Outcomes` (Option, Result, Response), `Roommates` (the roommate record and the lookup by id that both views use), `Decimal` (how an integral number prints in a template literal, with its parser), `TaskManagement` and `TaskAnalytics`.

Two points of the load and the catalog that the model makes explicit:
- The mount-time load awaits its three GETs one after another (not concurrently) in one `try`, and the three lists are set only after all three have resolved. So a rejection skips the later GETs and leaves all three lists as they were.
- The task-type catalog grows by the name the server returns, not by the name typed. The catalog is guaranteed to stay free of duplicates when the server echoes the submitted name; `HandleAddTaskType` states that guarantee.

## Model

| member | source | states |
|---|---|---|
| `Roommates.FindById` | src/components/TaskManagement.tsx:252 | `find` by id returns None exactly when no roommate has the id; otherwise it returns a listed roommate with that id |
| `Roommates.FindByIdIsFirst` | src/components/TaskAnalytics.tsx:88 | the lookup returns the roommate at the least index carrying the id |
| `Roommates.FindByIdAppend` | src/components/TaskManagement.tsx:98 | after roommates are appended, a lookup that succeeded gives the same roommate; one that missed is answered by the appended part alone |
| `Decimal.NatToDecimal` | src/components/TaskAnalytics.tsx:91 | a natural number prints as a non-empty string of decimal digits with no leading zero |
| `Decimal.IntToDecimal` | src/components/TaskAnalytics.tsx:91 | the year prints with a leading minus sign exactly when it is negative, followed by decimal digits only, with no leading zero (a lone "0" aside), so together with the round trip the text of every year is fixed |
| `Decimal.IntToDecimalRoundTrip` | src/components/TaskAnalytics.tsx:91 | parsing the printed year gives back the year, negative years included |
| `Decimal.IntToDecimalInjective` | src/components/TaskAnalytics.tsx:91 | distinct years print as distinct texts |
| `Decimal.YearTexts` | src/components/TaskAnalytics.tsx:91 | 2023 and 2024 print as "2023" and "2024" |
| `TaskAnalytics.MonthNamesDistinct` | src/components/TaskAnalytics.tsx:72-85 | the month table has 12 distinct entries of 3 characters each |
| `TaskAnalytics.MonthLabel` | src/components/TaskAnalytics.tsx:91 | a label exists exactly for months 1..12; any other month is an explicit out-of-range error carrying the month; a label has the space at position 3 |
| `TaskAnalytics.MonthLabelAsWritten` | src/components/TaskAnalytics.tsx:91 | as the code is written, a month outside 1..12 labels its bar "undefined" followed by the year |
| `TaskAnalytics.MonthLabelAsWrittenMisindexes` | src/components/TaskAnalytics.tsx:91 | months 13 and 0 of 2024 are both labelled "undefined 2024" as written |
| `TaskAnalytics.MonthLabelAgreesInRange` | src/components/TaskAnalytics.tsx:91 | for months 1..12 the checked label equals the label as written |
| `TaskAnalytics.MonthLabelExamples` | src/components/TaskAnalytics.tsx:72-91 | month 1 of 2024 is "Jan 2024", month 12 of 2023 is "Dec 2023", month 3 of 2024 is "Mar 2024"; months 0 and 13 are rejected |
| `TaskAnalytics.MonthNumber` | src/components/TaskAnalytics.tsx:72-85 | reading a short name back gives the 1-based month whose table entry it is, and None for a name not in the table |
| `TaskAnalytics.MonthLabelRoundTrip` | src/components/TaskAnalytics.tsx:91 | parsing a label gives back its month and year |
| `TaskAnalytics.MonthLabelInjective` | src/components/TaskAnalytics.tsx:91 | two chart bars share a period label only if they share month and year |
| `TaskAnalytics.ResolveName` | src/components/TaskAnalytics.tsx:88-90 | the name is "Unknown" when no roommate has the id; otherwise it is the name of a roommate carrying the id |
| `TaskAnalytics.ResolveNameIsFirst` | src/components/TaskAnalytics.tsx:88-90 | when several roommates carry the id, the name is that of the first of them in list order |
| `TaskAnalytics.MonthlyData` | src/components/TaskAnalytics.tsx:87-94 | chart data exists exactly when every month is in range; it then has one bar per record, in the same order, with the resolved name, the record's label and the record's count unchanged; otherwise the error names the first bad record and its month |
| `TaskAnalytics.InitialShowsNoData` | src/components/TaskAnalytics.tsx:33-40 | before any load, most active is {"No data", 0}, least active is the no-data variant, and there are no bars |
| `TaskAnalytics.AliceMarchScenario` | src/components/TaskAnalytics.tsx:87-94 | the record (roommate "1", March 2024, 4 tasks) with Alice as roommate "1" becomes the bar {Alice, "Mar 2024", 4} |
| `TaskManagement.TypeNames` | src/components/TaskManagement.tsx:62-64 | the catalog has one entry per loaded task type: its name, in the same order |
| `TaskManagement.CompletedByCell` | src/components/TaskManagement.tsx:252 | the cell is `undefined` (None) exactly when no roommate has the task's `completedBy` id; otherwise it is the name of a roommate with that id (the first one, by `CompletedByCellIsFirst`), which renders blank when that name is empty |
| `TaskManagement.CompletedByCellIsFirst` | src/components/TaskManagement.tsx:252 | when several roommates carry the task's `completedBy` id, the cell shows the name of the first of them in list order |
| `TaskManagement.CompletedByCellAppend` | src/components/TaskManagement.tsx:98 | appending roommates keeps every cell that had a matching roommate; a cell with no match (None) can only be resolved by the appended roommates |
| `TaskManagement.TaskTable` | src/components/TaskManagement.tsx:245-255 | one row per task, in list order, holding the task's name, its date and its "Completed By" cell |
| `TaskManagement.TaskTableAppend` | src/components/TaskManagement.tsx:83 | appending a task appends exactly its row and leaves the earlier rows unchanged |
| `TaskManagement.AliceDishesScenario` | src/components/TaskManagement.tsx:245-255 | the task "Dishes" completed by roommate "1", with Alice as roommate "1", renders as the row (Dishes, its date, Alice) |
| `TaskManagement.Component.constructor` | src/components/TaskManagement.tsx:44-51 | all three lists start empty, every text field starts blank and no date is picked |
| `TaskManagement.Component.FetchData` | src/components/TaskManagement.tsx:54-68 | the GETs for tasks, roommates and task types are issued in order, and a rejection stops the later ones; the three lists are set together only when all three resolve, with the catalog as the names of the loaded types; otherwise none changes; the form fields are never touched |
| `TaskManagement.Component.HandleAddTask` | src/components/TaskManagement.tsx:72-91 | with no guard, the current selections (the date possibly unset) are always posted; on success the returned record is appended at the end, the table gains exactly its row, and the task and roommate selections become ""; on failure nothing changes; the selected date is never changed |
| `TaskManagement.Component.HandleAddRoommate` | src/components/TaskManagement.tsx:93-112 | an empty name issues no request and changes nothing; a rejected POST changes nothing; after a successful POST the input is cleared, a re-fetch is issued, and the list becomes the re-fetched one, or the old list plus the returned roommate if the re-fetch fails |
| `TaskManagement.Component.HandleAddTaskType` | src/components/TaskManagement.tsx:116-129 | an empty name or one already in the catalog (exact match) issues no request and changes nothing; otherwise the name is posted; on success the catalog becomes the old catalog plus the returned name at the end and the input is cleared; on failure nothing changes; a duplicate-free catalog stays duplicate-free when the server echoes the posted name |

## Findings

| source | as written | input that shows it | evidently intended | confidence | as-written member | corrected member |
|---|---|---|---|---|---|---|
| src/components/TaskAnalytics.tsx:91 | `monthNames[task.month - 1]` is indexed without a range check; outside 1..12 it is `undefined` and the template literal prints the word | a record with month 13 (or 0) and year 2024 is labelled "undefined 2024" | a month outside 1..12 is rejected rather than charted under a wrong label | not executed | `TaskAnalytics.MonthLabelAsWrittenMisindexes` | `TaskAnalytics.MonthLabel` |

`TaskAnalytics.MonthlyData` uses the corrected label, so a record with a bad month makes the chart data an explicit error.

## Left out

- The HTTP client (src/lib/intercceptor.ts) is not part of this model. It is a configured library client whose interceptors only log and pass values through. Its outcomes appear as the `Resolved`/`Rejected` parameters.
- The page shell (src/pages/Index.tsx) is not part of this model. It only switches tabs.
- Rendering, the select, popover and calendar widgets, and the charts are not modelled. The widgets' `onValueChange`, `onChange` and `onSelect` handlers write one form field each. In the model those fields are public, so callers assign them directly.
- Date formatting with the date-fns `"PPP"` pattern is not modelled. A date is an opaque value compared only for equality.
- Asynchrony is not modelled. Each handler runs to completion as one step. The model does not capture interleaving between handlers, duplicate submissions from repeated clicks, or the stale `tasks`/`roommates` value a handler's closure may hold when another update lands between its `await` and its setter.
- The analytics view's loading (`fetchAnalytics`, `fetchRoommates`) is not modelled. Its setters copy server values into state with no logic of their own. Only the initial state and the derivation from state are modelled. The per-roommate totals chart shows the server's array unchanged and has no derivation.
- The least-active card's initial count is the floating-point `Infinity`. The model uses the explicit `NoData` variant instead; how the summary card renders either value is not modelled.
- `Decimal.IntToDecimal` covers integral years only, and matches JavaScript only below 2^53 in magnitude: integers of 2^53 or more print as the shortest round-trip digits of the double followed by zeros (2^60 prints as "1152921504606847000"), while the model prints the exact integer. JavaScript's printing of fractional numbers, `NaN` and numbers of 10^21 or more (exponent notation) is not modelled. Months and counts are integers in the model, so a fractional month (which also reads `undefined` from the table) is not covered.
- `TaskManagement.Component.FetchData`: response bodies are assumed to have their declared shapes (`Response<seq<TaskType>>` and the like). In the code, `setTasks` and `setRoommates` run before `taskTypesResponse.data.map(...)`; a resolved task-types body that is not an array, or that holds a null entry, throws into the `catch` after the task and roommate lists are already set, leaving the catalog unchanged. The all-or-nothing contract does not capture that case.
- `console.log`/`console.error` output is not modelled.
