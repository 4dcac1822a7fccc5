# Budget calendar: timeline and budget arithmetic

This project models the core of a single-user budgeting app, written in TypeScript and React, and proves properties of the model:

- Recurring rules are expanded into dated transactions.
- Balances are computed at today and at the end of the week, month and year.
- Budgets are counted, listed and charged against spending.
- Savings goals are projected to a date.
- The chart, calendar and form views are built on those figures.
- Users and their data live in a key-value store.

Amounts are integer cents. Dates are `Date(year, month, day)` values on the proleptic Gregorian calendar. Stored dates stay text, because the app compares them as text. Two things are inputs rather than computed:

- the current day and the viewed month;
- fresh ids and the results of `Number(..)`/`parseFloat(..)`, where `None` stands for NaN.

Modules, in dependency order:

- `Options`, `Records`: the stored records.
- `Dates`: day numbers, weekdays, JavaScript's `new Date(y, m, d)` carry, and the end of the week, month and year.
- `IsoText`: JavaScript string order, and `YYYY-MM-DD` text and its parser.
- `ListEdits`, `Sums`, `Grouping`, `Text`: the list edits, sums and per-key totals the views share, and whitespace trimming.
- `UserStore`: the user registry and per-user data as a class over an abstract key-value map.
- `Recurrence`: `addRecurringInstances`.
- `Balances`: `computeBalances`.
- `AppBudgets`, `AppViews`, `AppHandlers`, `Goals`: the application shell.
- `BudgetsTab`, `SpendingChart`, `Calendar`, `TransactionForm`: the components.

Where the code and the design description disagree, the model follows the code:

- The budgets tab charges a transaction to a budget only through its `budgetId`, never by category name (`BudgetsTab.tsx:102-110`), and it counts refunds by their size.
- "Over" on a budget row means more was spent than budgeted (`BudgetsTab.tsx:255`).
- The goal projections subtract the summed *amounts* of the counted budgets (`totalRemainingBudgets`), not amount minus spent.
- `remainingBudgetThisMonth` runs over every budget, whatever its month.
- The budgets tab lists and the shell counts budgets by two different tests. `BudgetsTab.ActiveTestsCompared` states both tests on every budget not set for the month itself, and `BudgetsTab.ActiveTestsDisagree` exhibits budgets on which they differ.
- A goal's projected date is `new Date(year, month + k, day)` (`App.tsx:177`), not a calendar add-months: a day the target month lacks carries into the month after, so January 31 plus one month is March 2 or 3 rather than the end of February (`Dates.JsDateOverflowExample` shows the carry).

## Model

| member | source | states |
|---|---|---|
| Dates.NormDay | src/data.ts:204 | `new Date(y, m, day)` carries the day into later or earlier months: the result is valid and lies `day - 1` days after the first of the month |
| Dates.JsDate | src/data.ts:217 | the 0-based month index carries into the year and a year 0..99 is read as 1900 + year; the result is the matching valid date |
| Dates.JsDateNoCarry | src/data.ts:217 | for a day of 1..28 and a year outside 0..99, `new Date` yields the plain date with the month carried into the year |
| Dates.JsDateMonthInjective | src/App.tsx:177 | `new Date(y, i, day)` and `new Date(y, j, day)` are the same date only when i = j, for every day, even one that carries into a later month |
| Dates.JsDateOverflowExample | src/data.ts:204 | a monthly rule on the 31st lands on March 2 after February 2024 |
| Dates.AddDays | src/data.ts:235 | `addDays(d, n)` is valid and exactly n day numbers later |
| Dates.EndOfMonth | src/data.ts:245 | the last day of the month: same year and month, on or after every valid day of that month |
| Dates.EndOfYear | src/data.ts:246 | December 31: on or after every valid day of the year |
| Dates.EndOfWeek | src/data.ts:244 | the day number is today's plus 6 minus the weekday |
| Dates.EndOfWeekIsSaturday | src/data.ts:244 | the end of the week is a Saturday, on or after today and at most 6 days later |
| Dates.WeekEndAfterYearEnd | src/data.ts:244-246 | the week that contains 2025-12-30 ends on 2026-01-03, after the end of the year |
| Dates.DayNumberOrder | src/data.ts:205 | calendar order of valid dates is day-number order, and equal day numbers mean equal dates |
| Dates.WeekdayAddFortnight | src/data.ts:235 | adding 14 days keeps the weekday |
| Dates.KnownWeekdays | src/data.ts:222 | 1970-01-01 is a Thursday and 2024-01-01 a Monday, as `getDay` reports |
| IsoText.LexTrichotomy | src/data.ts:250 | JavaScript string `<` is a strict total order: exactly one of equal, less or greater |
| IsoText.StrLeTransitive | src/data.ts:250-253 | string `<=` is transitive |
| IsoText.StrLeAntisymmetric | src/components/SpendingByCategoryChart.tsx:19 | two texts each `<=` the other are equal |
| IsoText.ParseIso | src/data.ts:201 | `parseISO` of a `YYYY-MM-DD` text: a parsed date is in range and prints back as the same text |
| IsoText.ParseIsoOfIso | src/data.ts:208-209 | parsing the printed text of a date gives the date back |
| IsoText.IsoOrder | src/data.ts:250-253 | the text order of printed dates is calendar order, both strict and non-strict, and the texts are equal exactly when the dates are |
| IsoText.IsoMonthOrder | src/App.tsx:96 | `YYYY-MM` keys compare as the (year, month) pairs they print |
| Recurrence.AddRecurringInstances | src/data.ts:198-240 | the result is the original transactions followed by every rule's instances, rule by rule |
| Recurrence.AppendMonthly | src/data.ts:203-218 | the monthly loop appends the instances of exactly the monthly candidate dates |
| Recurrence.AppendBiweekly | src/data.ts:223-236 | the fortnightly loop appends the instances of exactly the fortnightly dates |
| Recurrence.FindWeekday | src/data.ts:222 | the weekday search stops at the first date on or after the start with that weekday |
| Recurrence.FirstWeekdayAfter | src/data.ts:222 | that date is `(dow - weekday(start)) % 7` days after the start |
| Recurrence.MonthlyRule | src/data.ts:203-218 | for a day of month 1..28 the monthly rule yields exactly the valid dates with that day between start and end, in calendar order |
| Recurrence.BiweeklyRule | src/data.ts:219-236 | the biweekly rule starts on the first matching weekday within 7 days of the start and yields every 14th day up to the end, all on that weekday |
| Recurrence.BiweeklyLast | src/data.ts:223-236 | the fortnightly run is empty exactly when the first day is past the end, and otherwise stops within 14 days of the end |
| Recurrence.MonthlyChronological | src/data.ts:204-218 | the monthly candidates from a date on are all on or after it and come in calendar order |
| Recurrence.SilentRule | src/data.ts:203-219 | a monthly rule without a day of month, or a biweekly rule without a weekday, adds nothing |
| Recurrence.NoInstances | src/data.ts:201-202 | a rule whose start or end date does not parse adds nothing |
| Recurrence.ExpandAll | src/data.ts:198-239 | every added instance carries the recurring flag |
| Recurrence.ExpandAllMembers | src/data.ts:207-215 | every added instance comes from one rule and one of its dates |
| Recurrence.RuleDatesInRange | src/data.ts:206 | every instance date lies between the rule's start and end |
| Recurrence.InstanceFields | src/data.ts:207-215 | an instance carries the id `recurring-<rule id>-<date>`, a date text that parses back to its date, the rule's description, amount, category and budget id, and the recurring flag |
| Recurrence.RuleInstancesMember | src/data.ts:207-215 | every instance of one rule is the instance of one of its dates |
| Recurrence.InstancesAppend | src/data.ts:207 | instances of a concatenation are the concatenation of instances |
| Sums.SumOfPermutation | src/data.ts:249-254 | a sum does not depend on the order of the list |
| Sums.SumOfFilter | src/App.tsx:299-303 | summing the entries a filter keeps equals summing a weight that is zero on the dropped entries |
| Balances.ComputeBalances | src/data.ts:242-261 | each of the four balances is the sum of the amounts whose date text is `<=` its cutoff; no transactions give all zeros |
| Balances.Accumulate | src/data.ts:248-254 | the `forEach` pass leaves each of the four totals equal to the sum of the amounts dated up to its cutoff |
| Balances.SumUpToPermutation | src/data.ts:249-254 | the balances do not depend on the order of the transactions |
| Balances.SumUpToExtremes | src/data.ts:249-254 | a cutoff after every date takes in the whole total; one before every date takes in nothing |
| Balances.SumUpToWindow | src/data.ts:250-253 | moving the cutoff later adds exactly the amounts dated in between |
| Balances.HorizonsOrdered | src/data.ts:243-246 | today's text is `<=` the week's and the month's ends, and the month's end is `<=` the year's |
| Grouping.GroupedStep | src/components/Calendar.tsx:20-22 | one step of a per-key loop keeps its invariant: the keys present, each key's total, and the sum of the totals |
| Grouping.KeysOfMembers | src/components/Calendar.tsx:21 | a key is present exactly when some entry has it |
| Grouping.LookupIsTotal | src/components/Calendar.tsx:30 | reading a key with `|| 0` yields that key's total, and 0 for an absent key |
| Grouping.GroupTotalPositive | src/components/SpendingByCategoryChart.tsx:56 | totals of positive weights are positive for every key present |
| ListEdits.Added | src/App.tsx:307 | add: the old list followed by the new entry |
| ListEdits.Replaced | src/App.tsx:308 | edit: same length; each entry with the new entry's id becomes it and the others stay |
| ListEdits.RemoveKeyMembers | src/App.tsx:309 | delete keeps exactly the entries whose id differs |
| ListEdits.AddThenRemove | src/App.tsx:307-309 | adding an entry with a fresh id and deleting that id gives the list back |
| ListEdits.ReplacedTwice | src/App.tsx:313 | editing twice with the same record is editing once |
| ListEdits.RemoveReplaced | src/App.tsx:313-314 | deleting after editing is the same as deleting |
| ListEdits.Find | src/App.tsx:108 | `find`: None exactly when nothing matches, else the first match |
| UserStore.Store.Users | src/data.ts:66-74 | the stored registry, and no users when nothing is stored |
| UserStore.Store.CurrentUserId | src/data.ts:77-81 | an id exactly when one is stored, and then that id |
| UserStore.Store.LoadUserData | src/data.ts:125-133 | the user's stored record, and empty collections when none is stored |
| UserStore.Store.ActiveUserData | src/data.ts:142-147 | empty collections without a current id (null or empty), otherwise the current user's record |
| UserStore.Store.CreateUser | src/data.ts:88-102 | the new user has the fresh id; the store becomes `AfterCreate`; consistency is preserved |
| UserStore.Store.SetCurrentUserId | src/data.ts:83-85 | only the current-user entry is written, to the given id |
| UserStore.Store.SaveUserData | src/data.ts:136-138 | only the user's data entry is written, to the given record |
| UserStore.CreateEffects | src/data.ts:88-102 | create appends the user, makes it current with empty data, and leaves other users' data alone |
| UserStore.CreateKeepsConsistent | src/data.ts:88-102 | after a create every registered user still has a data record and the current user is registered |
| UserStore.Store.DeleteUser | src/data.ts:105-115 | the store becomes `AfterDelete`; consistency is preserved |
| UserStore.DeleteEffects | src/data.ts:105-115 | delete drops the user and its data key, and keeps others' data and an unrelated current user. Deleting the current user makes the first remaining user current, or clears the current user |
| UserStore.DeleteKeepsConsistent | src/data.ts:105-115 | every registered user keeps a data record, and the current user stays registered |
| UserStore.DataKeyInjective | src/data.ts:118-122 | distinct users have distinct data keys |
| UserStore.KeysDistinct | src/data.ts:118-122 | no data key is the registry key or the current-user key |
| UserStore.Store.SetActiveUserData | src/data.ts:149-154 | writes the active user's record, or nothing without an active user |
| UserStore.SetActiveEffects | src/data.ts:149-154 | the registry and the current user are unchanged; a written record reads back; other users' data are untouched |
| UserStore.SetActiveKeepsConsistent | src/data.ts:149-154 | writing the active user's data keeps the store consistent |
| UserStore.Store.SaveTransactions | src/data.ts:159-163 | the active user's record with its transactions replaced |
| UserStore.Store.SaveRecurrings | src/data.ts:167-171 | the active user's record with its recurring rules replaced |
| UserStore.Store.SaveCategories | src/data.ts:177-182 | the active user's record with its categories replaced |
| UserStore.Store.SaveBudgets | src/data.ts:188-193 | the active user's record with its budgets replaced |
| UserStore.SaveOneCollection | src/data.ts:159-163 | saving one collection changes that collection and keeps the other three |
| AppBudgets.TotalRemainingBudgets | src/App.tsx:84-102 | the reduce equals the sum of the amounts of exactly the budgets the four-clause test accepts |
| AppBudgets.TotalRemainingAppend | src/App.tsx:84-102 | one more budget adds its amount exactly when the test accepts it |
| AppBudgets.TotalRemainingPermutation | src/App.tsx:84-102 | the total does not depend on the order of the budgets |
| AppBudgets.CategoryName | src/App.tsx:108 | the name of the first category with the id (no earlier category has it), or None exactly when no category has it |
| AppBudgets.Spent | src/App.tsx:108-115 | what a budget has spent is the sum of the sizes of exactly those transactions of the month that are negative and name the budget's id or its non-empty category name; never negative |
| AppBudgets.RemainingBudgetThisMonth | src/App.tsx:105-118 | the budgeted total less the spending of every budget, so never above the budgeted total |
| AppBudgets.NothingSpent | src/App.tsx:105-118 | without expenses in the month the remaining equals the budgeted total |
| AppBudgets.MonthsLeftInYear | src/App.tsx:120 | between 1 and 12; 12 exactly in January and 1 exactly in December |
| AppViews.DayTxs | src/App.tsx:285-288 | every listed transaction comes from the timeline and is dated the selected day |
| AppViews.DayTxsMembers | src/App.tsx:285-288 | the day's list holds exactly the transactions dated the selected day, and is empty with no day selected |
| AppViews.DayTxsMatchCell | src/App.tsx:285-288 | the day's list nets to the balance its calendar cell shows |
| AppViews.CutoffIsEndOfMonth | src/App.tsx:297 | `new Date(year, month + 1, 0)` is the last day of today's month for every year outside 0..99 |
| AppViews.ProjectedEndOfMonthBalance | src/App.tsx:292-304 | the projection is the sum over all transactions of the amount of each one dated on or before day 0 of the next month, every other one counting 0 (an empty list gives 0) |
| AppViews.ProjectedIsMonthBalance | src/App.tsx:292-304 | when every date text is an ISO date, the projection equals the balance panel's end-of-month figure |
| AppViews.ProjectedCounts | src/App.tsx:299-303 | with no transaction dated by the cutoff the projection is 0 |
| AppHandlers.FormAddThenDelete | src/App.tsx:307-309 | a new transaction from the form takes the fresh id; deleting it restores the list |
| AppHandlers.FormEditReplaces | src/App.tsx:308 | an edit from the form replaces the edited transaction wherever its id occurs and leaves the others and all ids alone |
| AppHandlers.FormEditRecurringKeepsIds | src/App.tsx:313 | an edited rule keeps its id, so the rules keep their ids |
| AppHandlers.DeleteGoal | src/App.tsx:146 | deleting a goal removes every goal with that id and keeps all the others |
| Goals.AvgMonthlyNet | src/App.tsx:149-160 | 0 without transactions; otherwise the net of all amounts divided by the number of distinct months, which is positive |
| Goals.SumMap | src/App.tsx:158 | the loop over the month totals adds up their values |
| Goals.MonthsNeeded | src/App.tsx:176 | `Math.ceil(gap / net)`: the least k with k × net ≥ gap, and at least 1 |
| Goals.Project | src/App.tsx:172-179 | reached exactly when the target is within the balance; no date exactly when it is not and the net is not positive; otherwise that many months |
| Goals.ConservativeNet | src/App.tsx:167-168 | the net less the remaining budgets spread over the months left, never above the net when budgets are non-negative |
| Goals.ConservativeNoEarlier | src/App.tsx:181-188 | if the conservative projection is reached, so is the optimistic one; an undated optimistic projection leaves the conservative undated; when both are dated the conservative one needs at least as many months |
| Goals.ProjectGoal | src/App.tsx:170-189 | the loop body yields both projections of the goal |
| Goals.ProjectedDates | src/App.tsx:162-192 | one entry per goal id, holding the projections of the last goal with that id |
| Goals.MonthsLaterPlain | src/App.tsx:177 | for a day of 1..28 the projected date is today's day, k months on, and later than today for k ≥ 1 |
| Goals.MonthsLaterInjective | src/App.tsx:177 | for a valid today with a day of 1..28 and a year from 100 on, different month counts give different projected dates |
| Goals.ProjectionText | src/App.tsx:174-178 | the text is null exactly when there is no date |
| Goals.ProjectionTextInjective | src/App.tsx:174-187 | for a valid today with a day of 1..28 and a year from 100 on, two projections have the same text exactly when they are equal |
| Goals.AfterBudgets | src/components/GoalsTab.tsx:69-71 | "Insufficient data" exactly when there is no entry or the conservative projection is null; otherwise the conservative projection |
| Goals.ShowsOptimisticNote | src/components/GoalsTab.tsx:72-75 | when the note shows, the goal has an entry whose optimistic projection is not null and differs from the conservative one (the converse, on texts, is `OptimisticNoteByText`) |
| Goals.OptimisticNoteByText | src/components/GoalsTab.tsx:72-75 | for a valid today with a day of 1..28 and a year from 100 on, the note shows exactly when the optimistic text is present and differs from the conservative text |
| Goals.NoBudgetsNoNote | src/components/GoalsTab.tsx:72-75 | with no remaining budgets both projections agree and the note never shows |
| Goals.AddGoal | src/components/GoalsTab.tsx:30-36 | a blank trimmed name or an empty target adds nothing; otherwise one goal with the untrimmed name, the parsed target and the notes is appended |
| Text.Trim | src/components/GoalsTab.tsx:30 | the trimmed text is a slice of the input with only white characters before and after it; it is empty exactly when every character is whitespace, and otherwise neither starts nor ends with whitespace |
| Text.TrimIdempotent | src/components/BudgetsTab.tsx:27-28 | trimming twice is trimming once |
| BudgetsTab.SpentByBudget | src/components/BudgetsTab.tsx:102-110 | the map holds, for exactly the budget ids of transactions in the viewed month, the sum of their sizes |
| BudgetsTab.SpentKeys | src/components/BudgetsTab.tsx:104-108 | a budget id is a key exactly when such a transaction names it, and its spending is never negative |
| BudgetsTab.BudgetsForMonth | src/components/BudgetsTab.tsx:113 | every listed budget is a stored budget that the tab's test accepts for the month |
| BudgetsTab.BudgetsForMonthMembers | src/components/BudgetsTab.tsx:113 | the list holds exactly the budgets set for the month, or recurring and started by then |
| BudgetsTab.ActiveTestsDisagree | src/components/BudgetsTab.tsx:113 | the tab's list and the shell's count differ on started and ended recurring budgets and on plain budgets, and agree on a budget set for the month |
| BudgetsTab.ActiveTestsCompared | src/components/BudgetsTab.tsx:113 | on a budget not set for the month: without a month the tab lists the recurring budgets and the shell counts all but recurring ones with an end month, agreeing only on recurring budgets without an end month; with a month the tab needs the recurring flag and a start by then, the shell an end month and the month within the range |
| BudgetsTab.Totals | src/components/BudgetsTab.tsx:116-126 | the month's income is the sum of exactly its positive amounts dated in the viewed month, hence never negative, and its expenses the sum of exactly its negative ones, never positive. The balance before budgets is income plus expenses, which is the month's net; the budget figure is the listed total, and the balance after is their difference |
| BudgetsTab.Row | src/components/BudgetsTab.tsx:234-257 | a row has a caption, the spending filed under its id (0 if none) and the remaining; "Over" exactly when spending exceeds the amount |
| BudgetsTab.OverMeansOverspent | src/components/BudgetsTab.tsx:255 | "Over" exactly when the budget's month spending exceeds its amount |
| BudgetsTab.AddCategory | src/components/BudgetsTab.tsx:26-50 | a blank name changes nothing; otherwise the trimmed name is appended as a category; a numeric budget text also appends one budget for it, and no other budget changes |
| BudgetsTab.NewBudgetActive | src/components/BudgetsTab.tsx:36-42 | a "this month" budget is listed and counted only in its month; an "every month" budget is both in every month |
| BudgetsTab.EditCategory | src/components/BudgetsTab.tsx:54-59 | renames exactly the categories with the id |
| BudgetsTab.DeleteCategory | src/components/BudgetsTab.tsx:62-70 | the lists only shrink; every kept category has another id and every kept budget another category |
| BudgetsTab.DeleteCategoryMembers | src/components/BudgetsTab.tsx:62-70 | keeps exactly the categories with another id and the budgets of other categories |
| BudgetsTab.SetBudget | src/components/BudgetsTab.tsx:73-85 | an empty or non-numeric text changes nothing. Otherwise the category's budgets get the new amount, or, without one, a new budget is appended |
| BudgetsTab.SetBudgetAppendsUnlisted | src/components/BudgetsTab.tsx:80 | the appended budget is never listed by the tab, though the shell counts it |
| SpendingChart.ExpensesMembers | src/components/SpendingByCategoryChart.tsx:45-51 | the chart keeps exactly the negative amounts within the range, or all of them when a bound is empty |
| SpendingChart.TotalsByCategory | src/components/SpendingByCategoryChart.tsx:52-59 | one total per category (or "Uncategorized"), each the sum of its sizes and positive for non-zero amounts; the totals add up to all the sizes |
| SpendingChart.NoDataIff | src/components/SpendingByCategoryChart.tsx:72 | the no-data state shows exactly when no transaction is an expense in the range, exactly when there is no category |
| SpendingChart.InitialRange | src/components/SpendingByCategoryChart.tsx:19-21 | empty bounds without transactions; otherwise the earliest and latest date texts |
| SpendingChart.EarliestDate | src/components/SpendingByCategoryChart.tsx:20 | the earliest date text is some transaction's and `<=` all of them |
| SpendingChart.LatestDate | src/components/SpendingByCategoryChart.tsx:21 | the latest date text is some transaction's and every date text is `<=` it |
| SpendingChart.SortedEnds | src/components/SpendingByCategoryChart.tsx:19-21 | any date-sorted copy of the list starts with the earliest date and ends with the latest |
| SpendingChart.InitialRangeKeepsAll | src/components/SpendingByCategoryChart.tsx:45-51 | with the initial range every expense is kept |
| Calendar.TxByDate | src/components/Calendar.tsx:18-24 | one entry per date text, holding that date's net; the entries add up to the net of all transactions |
| Calendar.CellBalance | src/components/Calendar.tsx:30 | a cell shows the net of the transactions dated exactly that day, and 0 for a day without any |
| Calendar.CalendarDays | src/components/Calendar.tsx:13-16 | the grid of `year` (read as 1900 + year for 0..99) has one day per day of that year, each valid and in that year, with consecutive day numbers |
| Calendar.YearDays | src/components/Calendar.tsx:13-16 | one day per day of the year, each in the year, with consecutive day numbers |
| Calendar.YearDaysMembers | src/components/Calendar.tsx:13-16 | the grid holds exactly the valid dates of the year |
| Calendar.YearDaysChronological | src/components/Calendar.tsx:28-29 | the days run in calendar order, and their texts rise when the year prints with four digits |
| TransactionForm.Submit | src/components/TransactionForm.tsx:58-93 | no record exactly when a check fails, no day is selected for a one-off entry, or no callback applies. A rejected submit changes no field; one-off records go only to the one-off callbacks |
| TransactionForm.RecurringShape | src/components/TransactionForm.tsx:61-71 | the day of month is present exactly for a monthly rule and the weekday exactly for a biweekly one; the end date is absent exactly when none was typed; the typed values are carried over |
| TransactionForm.OneOffShape | src/components/TransactionForm.tsx:81-87 | a one-off record is dated the selected day, which is not empty, and has no category, budget or recurring flag |
| TransactionForm.Routing | src/components/TransactionForm.tsx:63-89 | an item being edited goes to the edit callback when one exists, with the item's id. Otherwise the add callback gets the edited id or the fresh id |
| TransactionForm.ResetRejects | src/components/TransactionForm.tsx:74-90 | after an accepted submit the form is cleared, so submitting again at once is rejected |

## Left out

- Storage: browser `localStorage`, JSON encoding and the parse-failure-to-empty fallbacks are not modelled. The store is an abstract map whose entries are already decoded.
- Ids: `uuidv4` and `Date.now()` ids are parameters.
- Current date: today, the current month and the balance horizons are parameters.
- Time zones: `toISOString()` is read as the local date, which assumes UTC. Time-zone shifts are not modelled.
- Backup and UI: backup, restore and file import/export (`App.tsx:13-25, 258-282`, `UserManagementTab.tsx`), React state scheduling, themes, Chart.js rendering and `console.log` are left out.
- Numbers: floating point and `toFixed` are not modelled. Amounts are integer cents, and averages are exact rationals.
- Parsing: `Number`/`parseFloat` are parse results given as parameters.
- String order: texts are sequences of Unicode characters, while JavaScript compares, slices and trims UTF-16 code units. The two orders differ only for characters outside the Basic Multilingual Plane, which the model does not tell apart. `localeCompare` in the chart's sort is modelled as character order. The lemma `SortedEnds` holds for any sort by that order.
- Dates: `parseISO` is modelled only for the `YYYY-MM-DD` form. Other ISO forms count as invalid dates.
- AppViews.DatedBy: `new Date(tx.date)` (`App.tsx:300`) is read as `parseISO` of a `YYYY-MM-DD` text. `Date.parse` also accepts other forms, such as `2024-03` and date-times, which the model counts as invalid dates.
- Whitespace: `trim` follows the ECMAScript whitespace set on single characters. Surrogate pairs are not treated specially.
- Recurrence.Terminates: the source loops forever in three cases, and the model requires callers to avoid them. They are a monthly rule with a negative day of month whose first candidate is not past the end, a biweekly rule whose start date does not parse, and a weekday outside 0..6.
- Recurrence.MonthlyRule: exact membership is proved only for days of the month 1..28 and start years from 100 on. Days 29..31 spill into the next month, as `JsDateOverflowExample` shows.
- Goals.MonthsLaterPlain: the projected date is characterised only for days of the month 1..28 and years from 100 on.
- Goals.MonthsLaterInjective: stated only for a valid today with a day of 1..28 and a year from 100 on. For every other day, `Dates.JsDateMonthInjective` gives the same property of `new Date` itself.
- Goals.ProjectionTextInjective: stated only for a valid today with a day of 1..28 and a year from 100 on, because it rests on `MonthsLaterInjective`.
- Goals.OptimisticNoteByText: stated only for a valid today with a day of 1..28 and a year from 100 on, for the same reason.
- Goals.ProjectionText: the texts are rendered only for years up to 9999. From year 10000 `toISOString()` prints a signed six-digit year, so `slice(0, 10)` gives a cut text such as `+010000-01`. Past year 275760 it throws a RangeError and the render fails.
- Goals.ProjectedDates: returns the month count `InMonths(k)` for every k and models neither the cut text nor the RangeError that formatting the date gives for large k (`App.tsx:178`, `App.tsx:187`). A small positive net reaches them: a gap of $2,000,000 at 50¢ a month needs 4,000,000 months.
- AppViews.CutoffIsEndOfMonth: holds only outside the years 0..99, for the same reason.
- AppBudgets.RemainingBudgetThisMonth: the source reads `allTransactions` in a memo declared before the `const` that defines it (`App.tsx:109` against `App.tsx:123`). The model takes the evident reading, which is the merged timeline.
- BudgetsTab.Totals: the viewed month comes as a date (`view`) and as its `yyyy-MM` text (`monthStr`), two independent parameters. The tab itself derives both from `new Date(selectedDay)` (`BudgetsTab.tsx:89-90`). Nothing in the model ties them together.
- BudgetsTab: the shell renders the tab without `selectedDay` (`App.tsx:420`). There `new Date(undefined)` is an Invalid Date, so `now.toISOString()` (`BudgetsTab.tsx:90`) throws a RangeError whenever the tab renders. The model takes the viewed month as a parameter and does not model that failure.
- Calendar.CalendarDays: the shell renders the calendar without `year` (`App.tsx:390`), so `new Date(undefined, 0, 1)` (`Calendar.tsx:14`) is an Invalid Date and the grid has no valid days. The model takes the year as a parameter and does not model that case.
- BudgetsTab.SetBudget: this handler (`BudgetsTab.tsx:73-85`) has no caller in the tab's markup. It is modelled anyway.
- Goal targets: NaN targets from `parseFloat` are not modelled (`AddGoal` takes an integer).
- Form reset: the parent's editing state, which `setEditingTx`/`setEditingRecurring` clear after a submit, is not modelled.
- Loading data: the `loadX` accessors are `Store.ActiveUserData()` with one field selected.
