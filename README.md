# Job market back office — Dafny model

This project models the deterministic core of a small Next.js back office. In the app a director posts
paid production jobs, employees claim percentage shares (or, for "mini" jobs, units) of them on a job
market, and approved work is paid in monthly salary periods. The model covers:

- **Salary-month attribution** (`getSalaryMonth`, `monthLabel`). An approval counts toward the job's
  own month up to 23:59:59 on the 5th of the following month, and toward its own month after that.
- **The read-side views of the employee and director screens**:
  - which jobs are on the market and which of them the viewer may claim;
  - how much money those still hold;
  - the on-site / post-production / mini tabs;
  - the grouping of market jobs by batch;
  - the pending-approval and own-assignment lists;
  - the monthly salary report and its grand total;
  - the list of months offered in the month picker;
  - the checks made before a claim or share request is sent.
- **The shoot-day template of `parseJobGroup`**: seven on-site crew jobs plus one editing job per
  episode.
- **The JSON job/employee store** (`src/lib/db.ts`), as a `Database` class whose two sequences the
  operations reassign.
- **The three creation routes**: `POST /api/jobs`, `POST /api/jobs/batch` and `POST /api/employees`,
  with their `GET` counterparts.

Modules and files:

| file | module | models |
|---|---|---|
| `types.dfy` | `Types` | the records of `src/types/index.ts`, JavaScript truthiness, `\|\|` |
| `text.dfy` | `Text` | `${n}`, `padStart(2, "0")`, `slice(0, n)`, `Number(s)` on digit strings and on a number field's text |
| `calendar.dfy` | `Calendar` | local dates, (year, month) periods, the "YYYY-MM" key and `split("-")` |
| `salary_month.dfy` | `SalaryMonth` | `getSalaryMonth`, `monthLabel` |
| `seqs.dfy` | `Seqs` | `findIndex`, `find`, `filter` by id, reversal |
| `store.dfy` | `Store` | `src/lib/db.ts` |
| `jobs_route.dfy`, `batch_route.dfy`, `employees_route.dfy` | `JobsRoute`, `BatchRoute`, `EmployeesRoute` | the API routes |
| `market.dfy` | `Market` | `openJobs`, `availableJobs`, `availableValue`, the market tabs |
| `market_groups.dfy` | `MarketGroups` | the group-by-`groupId` loop of the market |
| `payroll.dfy` | `Payroll` | `pendingApprovals`, `myAssignments`, the salary report, `earnedInMonth`, `inProgress` |
| `months.dfy` | `Months` | `availableMonths` / `salaryMonths` (a `Set` sorted and reversed) |
| `shoot_day.dfy` | `ShootDay` | the template part of `parseJobGroup` |
| `client_guards.dfy` | `ClientGuards` | the claim and share checks and the preset buttons |

Environment inputs become parameters:
- **Random ids and the group id.** `Math.random()` ids are passed in.
- **The clock.** The server clock is a `Clock` value; `getAllJobs` takes the current instant as an
  integer.
- **The browser's reading of date strings.** `new Date(s)` read in local time is a function
  `LocalTime = string -> Option<DateTime>`, where None stands for an Invalid Date. `getAllJobs` reads
  `expiresAt` through a function to epoch milliseconds.
- **Regular-expression captures.** The captures of `parseJobGroup` are a `ShootLine` value.

JavaScript details that change results are written out:
- `||` versus `??`. The page uses `job.month || createdAt.slice(0, 7)`; the store uses `??`.
- `Number("")` is 0.
- An invalid approval date yields the key "NaN-NaN".
- The `Date` constructor maps a year from 0 to 99 to 1900 plus it, and carries month overflow.
- `Array.prototype.sort()` compares code units lexicographically.
- A `Set` keeps insertion order. It is modelled as a duplicate-free sequence.

Three points where the code does something other than one might expect:
- **Mini jobs on the market.** The code keeps a mini job on the market while it has fewer
  *assignments* than `totalUnits`, not fewer claimed units (`Market.MiniCountsAssignmentsNotUnits`).
- **Available value.** The code sums over the jobs the viewer may claim. That excludes the jobs in
  which the viewer already holds a part, not only the closed ones.
- **Group date.** The code takes the date from the *first* open job of the group, in list order, that
  has an `expiresAt`. It is not the earliest date.

## Model

| member | source | states |
|---|---|---|
| Text.NatToString | src/app/page.tsx:24 | the decimal text of a whole number is non-empty and all digits, one digit exactly below 10 |
| Text.DigitsRoundTrip | src/app/page.tsx:22-24 | reading the printed text of a number back with `Number` gives the number |
| Text.PadStart2 | src/app/page.tsx:24 | the padded text is at least two characters and ends with the unpadded text |
| Text.PadStart2RoundTrip | src/app/page.tsx:22-24 | a zero-padded month still reads back as the same number |
| Text.Slice | src/app/page.tsx:431 | `slice(0, n)` is a prefix of length min(n, length) |
| Text.NumberOf | src/app/page.tsx:22 | `Number(s)` is a value exactly for digit strings (the empty one reads 0), and that value is the digits' value |
| Text.NumberText | src/app/page.tsx:31 | `${Number(s)}` prints the value of a digit string, "NaN" otherwise |
| Text.NumberField | src/app/page.tsx:355 | `Number` of an empty number field is 0 |
| Text.NumberFieldReadsLiteral | src/app/page.tsx:355 | `Number` of the text of any decimal literal (optional sign, digits with an optional fraction, optional exponent) is exactly sign × (whole + fraction) × 10^exponent |
| Text.NumberFieldOfDigits | src/app/page.tsx:355 | on a digit string `Number` gives the digits' value, as `Text.NumberOf` does |
| Text.NumberFieldNegative | src/app/page.tsx:355 | "-" before the decimal text of n reads as -n |
| Text.NumberFieldFraction | src/app/page.tsx:391 | "12.5" reads as 12.5 |
| Text.NumberFieldLargeFraction | src/app/page.tsx:355 | "150.5" reads as 150.5 |
| Text.NumberFieldExponent | src/app/page.tsx:355 | "1e3" reads as 1000 |
| Text.NumberFieldNaN | src/app/page.tsx:355 | a lone "-" and letters read as NaN |
| Calendar.IndexOfDash | src/app/page.tsx:22 | the position found is the first '-' or the end |
| Calendar.SplitDash | src/app/page.tsx:30 | the first field is a prefix of the text; the second is missing exactly when there is no '-' |
| Calendar.ParseMonthKey | src/app/page.tsx:22 | a parsed key has non-negative year and month |
| Calendar.SplitAtDash | src/app/page.tsx:22 | two dash-free fields joined by "-" split back into those two fields |
| Calendar.SplitMonthKey | src/app/page.tsx:30 | a stored key splits into its year text and its padded month text |
| Calendar.ParseMonthKeyRoundTrip | src/app/page.tsx:22-24 | writing a (year, month) as "YYYY-MM" and splitting it with `Number` gives back the same period |
| SalaryMonth.GetSalaryMonth | src/app/page.tsx:19-26 | without an approval date the salary month is the job month; otherwise it is the job month, "NaN-NaN", or the key of the approval's own month |
| SalaryMonth.CutoffIsGraceEnd | src/app/page.tsx:23 | the `Date` arithmetic lands on 23:59:59 of the 5th of the next month, and for December on 5 January of the next year |
| SalaryMonth.SalaryMonthRule | src/app/page.tsx:20-25 | for a valid job month and approval, the salary month is the job month exactly when the approval is at or before the cutoff, and otherwise the approval's zero-padded month |
| SalaryMonth.LateApprovalMovesForward | src/app/page.tsx:25 | an approval after the cutoff is attributed to a strictly later month than the job's |
| SalaryMonth.CutoffExamples | src/app/page.tsx:23-25 | job month 2026-02: approved at 23:59:59 on 5 March gives 2026-02, one second past midnight on 6 March gives 2026-03 |
| SalaryMonth.MonthLabelOfKey | src/app/page.tsx:29-32 | the label of a stored key is "Tháng m/yyyy" with the month's leading zero dropped |
| Seqs.IndexOfKey | src/lib/db.ts:45 | the index found holds the key and nothing before it does; none exactly when no element has the key |
| Seqs.IndexOfKeySnoc | src/lib/db.ts:72 | appending keeps an existing first match; otherwise the new element is the match if it has the key |
| Seqs.FindByKey | src/lib/db.ts:53 | null exactly when no element has the id; otherwise the first element that has it |
| Seqs.Filter | src/lib/db.ts:59 | `filter`: keeps exactly the elements the predicate accepts, as an order-preserving selection; the length is unchanged exactly when every element is accepted |
| Seqs.FilterSplit | src/lib/db.ts:59 | filtering a concatenation filters each part; one element is kept exactly when accepted. So every accepted element is kept once, in its place |
| Seqs.FilterNarrower | src/app/page.tsx:1201-1210 | a narrower predicate keeps an order-preserving selection of what a wider one keeps |
| Seqs.RemoveKey | src/lib/db.ts:59 | keeps exactly the elements without the id, in order; the length is unchanged exactly when no element had it |
| Seqs.RemoveKeySplit | src/lib/db.ts:59 | deleting from a concatenation deletes from each part; one element is dropped exactly when it has the id. So each other element stays once, in its place |
| Seqs.WithKey | src/app/page.tsx:1501 | the jobs of one key are exactly the input's jobs with that key, in input order |
| Seqs.WithKeySnoc | src/app/page.tsx:1501 | appending a job extends the jobs of its key by that job and leaves the other keys alone |
| Seqs.FindAfterReplace | src/lib/db.ts:45-47 | after the first element with an id is overwritten, looking the id up finds the new element |
| Seqs.FindAfterRemove | src/lib/db.ts:59 | after deleting an id, looking it up finds nothing |
| Seqs.FindAfterPrepend | src/lib/db.ts:38 | after an element is put in front, looking its id up finds it |
| Seqs.FindAfterAppend | src/lib/db.ts:72 | after an element is appended, looking its id up finds the earliest element with that id |
| Seqs.Reversed | src/app/page.tsx:437 | reversal keeps the length and mirrors the positions |
| Seqs.ReversedMembers | src/app/page.tsx:437 | reversal keeps the elements |
| Seqs.ReversedSnoc | src/app/api/jobs/batch/route.ts:40 | prepending one more job puts it in front of the ones prepended before |
| Store.WithDefaultMonth | src/lib/db.ts:25-28 | `month` is kept when present and otherwise set to the first 7 characters of `createdAt`; no other field changes |
| Store.DefaultMonths | src/lib/db.ts:25-28 | every stored job is mapped, position by position |
| Store.VisibleJobs | src/lib/db.ts:22-34 | the listed jobs are an order-preserving selection of the month-defaulted jobs, none of them hidden, all with a month |
| Store.DefaultMonthsSplit | src/lib/db.ts:24-27 | defaulting the months of a concatenation defaults each part |
| Store.VisibleJobsSplit | src/lib/db.ts:22-34 | the listing of a concatenation is the listing of each part; one job is listed, with its month defaulted, exactly when it is not hidden. So each listed job appears once, in its stored place |
| Store.VisibleJobsListsUnhidden | src/lib/db.ts:29-33 | a stored job is listed exactly when it is not an OPEN job whose deadline is strictly before now; a job that is not OPEN is always listed |
| Store.Database.constructor | src/lib/db.ts:12-15 | the store holds the given jobs and employees |
| Store.Database.GetAllJobs | src/lib/db.ts:22-34 | returns the visible, month-defaulted jobs and changes nothing |
| Store.Database.CreateJob | src/lib/db.ts:36-41 | the new job becomes the first, every earlier job follows unchanged, employees untouched |
| Store.Database.UpdateJob | src/lib/db.ts:43-50 | with a job of that id only the first such job is replaced and the updated job returned; with none, null and no change |
| Store.Database.GetJobById | src/lib/db.ts:52-54 | the first job with the id, or null |
| Store.Database.DeleteJob | src/lib/db.ts:56-63 | removes every job with the id and answers true, or answers false and changes nothing when there is none |
| Store.Database.GetAllEmployees | src/lib/db.ts:66-68 | the stored employees, unfiltered and in order |
| Store.Database.CreateEmployee | src/lib/db.ts:70-75 | the new employee is appended after all others, jobs untouched |
| Store.Database.UpdateEmployee | src/lib/db.ts:77-84 | as `UpdateJob`, on employees, never touching jobs |
| Store.Database.DeleteEmployee | src/lib/db.ts:86-93 | as `DeleteJob`, on employees, never touching jobs |
| Store.Database.GetEmployeeById | src/lib/db.ts:95-97 | the first employee with the id, or null |
| JobsRoute.NewJob | src/app/api/jobs/route.ts:17-31 | an OPEN job with no assignments; description defaults to ""; month is the body's if truthy, else the current "YYYY-MM"; deadline and group fields only when truthy; no type, unit price or unit count is stored |
| JobsRoute.DefaultMonthIsCurrent | src/app/api/jobs/route.ts:18 | a defaulted month reads back as the current year and month |
| JobsRoute.NewJobListed | src/app/api/jobs/route.ts:32 | a new job is listed unchanged unless its own deadline has already passed |
| JobsRoute.NewJobOnMarket | src/app/api/jobs/route.ts:19-31 | a job posted here is a standard job on the market offering its whole salary |
| JobsRoute.Get | src/app/api/jobs/route.ts:5-12 | exactly what `getAllJobs` returns |
| JobsRoute.Post | src/app/api/jobs/route.ts:14-37 | the built job is stored in front of all others and returned |
| EmployeesRoute.NewEmployee | src/app/api/employees/route.ts:16-20 | the name is taken verbatim and the balance starts at 0 |
| EmployeesRoute.Get | src/app/api/employees/route.ts:5-11 | the whole employee list in stored order |
| EmployeesRoute.Post | src/app/api/employees/route.ts:13-25 | the new employee is appended after the unchanged others |
| EmployeesRoute.NewEmployeeFound | src/app/api/employees/route.ts:21 | a created employee is found by its id when no earlier employee has that id |
| BatchRoute.BatchJob | src/app/api/jobs/batch/route.ts:27-39 | each job is OPEN and unclaimed, with description defaulting to "" and the month copied verbatim; the group id is the item's own if truthy, else the request's; name and deadline only when truthy |
| BatchRoute.BatchJobs | src/app/api/jobs/batch/route.ts:26-42 | one job per item, in input order |
| BatchRoute.BatchShape | src/app/api/jobs/batch/route.ts:22-36 | all jobs of a batch are OPEN, unclaimed, created at one instant, and share the request's group id when they bring none |
| BatchRoute.BatchJobsSnoc | src/app/api/jobs/batch/route.ts:26-42 | one more item adds exactly its own job at the back of the created list, leaving the earlier jobs as they were |
| BatchRoute.Post | src/app/api/jobs/batch/route.ts:18-44 | no list or an empty one gives 400 and stores nothing; otherwise the response lists one job per item in order and the store gains them in front, in reverse order |
| Market.ClaimedAfterAppend | src/app/page.tsx:1283 | a new assignment adds its percentage to the claimed total |
| Market.OpenJobs | src/app/page.tsx:1277-1285 | exactly the jobs on the market, in order: standard while under 100% claimed, mini while fewer assignments than `totalUnits` (default 0) |
| Market.OpenJobsSplit | src/app/page.tsx:1277-1285 | the open jobs of a concatenation are those of each part; one job is kept exactly when on the market. So each open job appears once, in its place |
| Market.AvailableJobs | src/app/page.tsx:1201-1210 | exactly the jobs on the market in which the viewer holds no assignment, in order |
| Market.AvailableWithinOpen | src/app/page.tsx:1201-1210 | the claimable jobs are an order-preserving selection of the open jobs |
| Market.RemainingValueOnMarket | src/app/page.tsx:1212-1219 | a job on the market has a positive remaining share or unit count, and offers no negative amount |
| Market.AvailableValueNonNegative | src/app/page.tsx:1212-1219 | with non-negative prices the available value is not negative |
| Market.SumRemainingNonNegative | src/app/page.tsx:1212-1219 | a sum over jobs on the market with non-negative prices is not negative |
| Market.UnclaimedOffersEverything | src/app/page.tsx:1212-1219 | an unclaimed job offers its whole salary, or all its units |
| Market.AvailableValueSplits | src/app/page.tsx:1212-1219 | the available value of two job lists together is the sum of theirs |
| Market.AvailableJobsSplit | src/app/page.tsx:1201-1210 | the claimable jobs of two lists together are those of the first followed by those of the second; one job is kept exactly when on the market and not held by the viewer |
| Market.SumRemainingSplits | src/app/page.tsx:1212-1219 | the remaining value of two lists together is the sum of theirs |
| Market.MiniCountsAssignmentsNotUnits | src/app/page.tsx:1278-1281 | a mini job with one assignment holding every unit is still on the market, pricing all but one unit |
| Market.FilterMarket | src/app/page.tsx:1480-1485 | exactly the jobs that match the tab, in order |
| Market.FilterMarketSplit | src/app/page.tsx:1480-1485 | the tab's jobs of a concatenation are those of each part; one job is kept exactly when it matches. So each matching job appears once, in its place |
| Market.TabsPartition | src/app/page.tsx:1481-1485 | every job shows under exactly one of the on-site, post-production and mini tabs |
| MarketGroups.FirstDated | src/app/page.tsx:1493 | the first open job of the group with a truthy deadline, or none exactly when no open job of the group has one |
| MarketGroups.ShootDate | src/app/page.tsx:1494-1498 | empty exactly when the group has no dated open job; otherwise, for the first dated open job of the group, "NaN/NaN/NaN" when its deadline is not a date, else the local day/month/year of that deadline |
| MarketGroups.Header | src/app/page.tsx:1490-1504 | a batch group is labelled `groupName ?? groupId` and carries a date; the ungrouped bucket has an empty label and no date |
| MarketGroups.TotalJobsSnoc | src/app/page.tsx:1499-1501 | a new group adds its jobs to the total |
| MarketGroups.TotalJobsUpdate | src/app/page.tsx:1501 | a push into one group grows the total by one |
| MarketGroups.Keys | src/app/page.tsx:1488 | the keys of the `Map`, in insertion order |
| MarketGroups.GroupJobs | src/app/page.tsx:1488-1507 | the groups are keyed by `groupId` or the standalone key, with distinct keys, in first-seen order; each holds exactly its key's jobs in input order under the header of its first job; together they hold every filtered job once |
| MarketGroups.Place | src/app/page.tsx:1489-1506 | placing one more job turns an exact grouping of a list into an exact grouping of the list extended by that job (distinct keys in first-seen order, each group holding exactly its key's jobs under its first job's header); the group total grows by one |
| MarketGroups.ExactlyOneGroup | src/app/page.tsx:1488-1507 | every filtered job is in exactly one group, the one with its key |
| MarketGroups.GroupsNonEmptyInOrder | src/app/page.tsx:1488-1507 | no group is empty, and each keeps the input order |
| MarketGroups.SameGroupIffSameKey | src/app/page.tsx:1488-1507 | two jobs share a group exactly when their keys are equal |
| MarketGroups.StandaloneIdCollides | src/app/page.tsx:1490-1505 | a job whose group id is literally "__standalone__" lands with the ungrouped jobs |
| Payroll.SelectIn | src/app/page.tsx:415-419 | the entries of one job are exactly its assignments that pass the filter |
| Payroll.SelectInSplit | src/app/page.tsx:415-419 | selecting from a concatenation of assignments selects from each part; one assignment gives its pair exactly when it passes. So the pairs follow assignment order, each once |
| Payroll.Select | src/app/page.tsx:415-419 | `flatMap` + `filter`: exactly the (job, assignment) pairs that pass |
| Payroll.SelectSplit | src/app/page.tsx:415-419 | selecting from a concatenation of jobs selects from each part; one job gives its own passing pairs. So the pairs follow job order, then assignment order, each once |
| Payroll.FilterEntries | src/app/page.tsx:1186-1191 | exactly the entries that pass the second filter, as an order-preserving selection |
| Payroll.EarnedAppend | src/app/page.tsx:1192 | the earnings of two entry lists together are the sum of theirs |
| Payroll.FilterAppend | src/app/page.tsx:1186-1191 | filtering distributes over concatenation; one entry is kept exactly when it passes |
| Payroll.FilterSelect | src/app/page.tsx:1186-1191 | filtering a selection again is the selection by both filters, order included |
| Payroll.FilterSelectIn | src/app/page.tsx:1186-1191 | the same within one job |
| Payroll.EarnedSelectMono | src/app/page.tsx:1195-1199 | with non-negative pay a narrower filter earns no more |
| Payroll.EarnedSelectInMono | src/app/page.tsx:1195-1199 | the same within one job |
| Payroll.PendingApprovals | src/app/page.tsx:415-419 | exactly the assignments awaiting approval, paired with their job |
| Payroll.PendingApprovalsSplit | src/app/page.tsx:415-419 | the approvals of a concatenation of jobs are those of each part; one job gives its waiting assignments in assignment order |
| Payroll.MyAssignments | src/app/page.tsx:421-425 | exactly the logged-in employee's assignments; none when nobody is logged in |
| Payroll.MyAssignmentsSplit | src/app/page.tsx:421-425 | the viewer's assignments over a concatenation of jobs are those of each part; one job gives the viewer's assignments on it in assignment order |
| Payroll.Row | src/app/page.tsx:818-836 | `approved` holds exactly the employee's APPROVED assignments whose salary month is the selected one; `pending` exactly the WORKING or PENDING_APPROVAL ones whose job month is; the totals sum `salaryEarned` |
| Payroll.RowOfMyAssignments | src/app/page.tsx:818-836 | a row's `approved` list is the employee's own assignment list filtered to APPROVED work of the salary month, and `pending` the same list filtered to WORKING or PENDING_APPROVAL work booked in the month: same order, each pair once |
| Payroll.Rows | src/app/page.tsx:818-836 | one row per employee, in order |
| Payroll.RowsSplit | src/app/page.tsx:818-836 | the rows of a concatenation of employees are those of each part |
| Payroll.ShownRows | src/app/page.tsx:837 | exactly the rows with an approved or pending assignment, as an order-preserving selection |
| Payroll.ShownRowsSplit | src/app/page.tsx:837 | showing the rows of a concatenation shows those of each part; one row stays exactly when it is not empty |
| Payroll.SalaryRows | src/app/page.tsx:818-837 | exactly the employees' rows that are not empty |
| Payroll.SalaryRowsSplit | src/app/page.tsx:818-837 | the report over a concatenation of employees is the report over each part; one employee gets their row exactly when it is not empty. So rows come in employee order, one per shown employee |
| Payroll.DroppedRowsAddNothing | src/app/page.tsx:837-839 | dropping empty rows does not change the grand total |
| Payroll.GrandTotalIsPayroll | src/app/page.tsx:839 | the grand total equals the approved pay of every employee for the month |
| Payroll.EarnedInMonthMatchesReport | src/app/page.tsx:1186-1192 | what an employee sees as earned in a month equals their approved total in the director's report |
| Payroll.InProgressCoversPending | src/app/page.tsx:1195-1199 | with non-negative pay, the employee's in-progress figure (all months) is at least their pending total for any one month |
| Months.LexIrreflexive | src/app/page.tsx:437 | the default sort order is irreflexive |
| Months.LexTransitive | src/app/page.tsx:437 | the default sort order is transitive |
| Months.LexTotal | src/app/page.tsx:437 | any two different texts are ordered |
| Months.Add | src/app/page.tsx:432 | `Set.add` keeps the elements distinct and adds exactly the new one |
| Months.Insert | src/app/page.tsx:437 | inserting into an ascending list keeps it ascending, with exactly one more element |
| Months.Sorted | src/app/page.tsx:437 | sorting distinct texts gives an ascending list of the same texts |
| Months.MonthsOfSnoc | src/app/page.tsx:430-436 | one more job adds its month and its approvals' salary months |
| Months.ApprovalMonthsSnoc | src/app/page.tsx:434 | one more assignment adds its salary month when it has an approval date |
| Months.ApprovalMonthsMembers | src/app/page.tsx:433-435 | a month is an approval month of a job exactly when some assignment with an approval date has it as salary month |
| Months.IsJobMonthSnoc | src/app/page.tsx:431-432 | one more job adds exactly its own month |
| Months.IsAnyApprovalMonthSnoc | src/app/page.tsx:433-435 | one more job adds exactly its approval months |
| Months.MonthsOfMembers | src/app/page.tsx:428-436 | a month is offered exactly when it is the current month, some job's month, or the salary month of some approved assignment |
| Months.AvailableMonths | src/app/page.tsx:428-438 | the months offered are exactly those, each once, newest (lexicographically greatest) first |
| Months.ReportMonthsOffered | src/app/page.tsx:807-815 | every month in which the salary report shows a row is among the months offered |
| ShootDay.Episodes | src/app/page.tsx:67-68 | the named episodes, or episode 1 when none is named |
| ShootDay.CrewJob | src/app/page.tsx:74-86 | an on-site job expiring at the end of the shoot day, in the shoot month |
| ShootDay.Editing | src/app/page.tsx:89-97 | an editing job is post-production, has no deadline, pays 3,000,000 and is in the shoot month |
| ShootDay.Crew | src/app/page.tsx:74-86 | seven on-site jobs, all expiring together at the end of the shoot day, all in the shoot month |
| ShootDay.EditingJobs | src/app/page.tsx:89-97 | one editing job per episode |
| ShootDay.EditingJobAt | src/app/page.tsx:89-97 | the editing job at each position is the one for that episode |
| ShootDay.EditingSnoc | src/app/page.tsx:89-97 | one more episode adds its editing job at the back |
| ShootDay.Fallback | src/app/page.tsx:102-106 | the group is named after the trimmed input, or "Nhóm job mới" when that is empty, and holds one 1,000,000 job titled with the trimmed input |
| ShootDay.ParseJobGroup | src/app/page.tsx:50-107 | a matched line yields the shoot-day plan, any other input the fallback group |
| ShootDay.PushCrew | src/app/page.tsx:74-86 | the pushes give two directors, two camera operators, two lighting technicians, then the sound recordist |
| ShootDay.PushNumbered | src/app/page.tsx:74-76 | the loop for i = 1, 2 pushes the jobs for 1 and 2, in that order |
| ShootDay.PushEditing | src/app/page.tsx:89-97 | the editing loop adds one job per episode, in episode order |
| ShootDay.TotalSalarySplits | src/app/page.tsx:70-99 | the salaries of two job lists together add up |
| ShootDay.EditingTotal | src/app/page.tsx:89-97 | n editing jobs are worth 3,000,000·n |
| ShootDay.CrewTotal | src/app/page.tsx:74-86 | the seven on-site jobs are worth 11,000,000 |
| ShootDay.SevenTotal | src/app/page.tsx:74-86 | the salary total of seven jobs is the sum of their salaries |
| ShootDay.ShootDayTotals | src/app/page.tsx:70-99 | a shoot day yields 7 + n jobs worth 11,000,000 + 3,000,000·n |
| ShootDay.ShootDayShape | src/app/page.tsx:70-99 | every job is in the shoot month; the first seven are on-site and expire together; each later one edits the next episode |
| ShootDay.ShootMonthReadsBack | src/app/page.tsx:63 | the month key of the group reads back as the shoot's year and month |
| ClientGuards.ChosenPercentage | src/app/page.tsx:355 | the preset, or `Number` of the custom field's text |
| ClientGuards.Claim | src/app/page.tsx:351-362 | nothing without a job and a logged-in employee; a mini job always asks for one unit; a standard claim alerts exactly when the percentage is at most 0 or above 100, and otherwise sends that percentage |
| ClientGuards.ClaimSentInRange | src/app/page.tsx:355-356 | a standard claim that is sent carries a percentage in (0, 100], or NaN exactly when the custom text is not a number at all |
| ClientGuards.ClaimOfLiteral | src/app/page.tsx:353-362 | for every number the custom field can hold, a standard claim alerts exactly when the number is at most 0 or above 100, and otherwise sends exactly that number |
| ClientGuards.ClaimExamples | src/app/page.tsx:355-356 | any negative whole number, "150.5" and "1e3" are refused; "12.5" is sent as 12.5 |
| ClientGuards.EmptyCustomRefused | src/app/page.tsx:355-356 | an empty custom field reads as 0 and is refused |
| ClientGuards.ClaimIgnoresRemaining | src/app/page.tsx:352-356 | a 100% custom claim on a half-taken job is still sent |
| ClientGuards.EnabledPresetKeepsTotal | src/app/page.tsx:1566-1569 | an enabled preset passes the check and keeps the claimed total within 100%; a disabled one would exceed it |
| ClientGuards.ShareRequest | src/app/page.tsx:389-394 | a share is sent exactly when the input is a number above 0 and at most the holder's current percentage, and it carries that number |
| ClientGuards.ShareOfLiteral | src/app/page.tsx:389-394 | for every number the share field can hold, the share is sent with that number exactly when it is above 0 and at most the holding, and refused otherwise |
| ClientGuards.ShareWithinHolding | src/app/page.tsx:391-394 | a share never exceeds the holding; sharing all of it is allowed; a fraction such as "12.5" is sent as it is |

## Left out

- Claim, mark-done, share, approve and delete on the server are not part of this model. Their route handlers are not among the sources the model follows. Only their client-side checks are modelled. So conservation of percentages and units, and balance crediting, are not stated about stored data.
- `readDb` / `writeDb` file I/O and JSON (de)serialisation are not modelled. The store is object state, and each operation's read-modify-write is one method. A failed write and the resulting 500 responses of the `try`/`catch` blocks are not modelled.
- The AI job-parsing route, the finance and revenue proxies and the schema-init route are not modelled. They are network calls or glue.
- The regular expression of `parseJobGroup`, its year guess from the clock, and the ISO text of the end of the shoot day are not modelled. They are inputs: a match is given as its captured fields.
- Non-deterministic and environmental inputs are not modelled. Random ids, the clock and the browser's time zone are parameters.
- Text.NumberOf: `Number(s)` on the fields of a month key is modelled on digit strings only. Signs, decimals, exponents and surrounding blanks read as NaN there. `Number(body.totalSalary)` is taken as a given whole number.
- Text.NumberField: the claim and share fields are read as decimal literals with sign, fraction and exponent. Surrounding blanks, `Infinity` and hexadecimal, octal or binary literals read as NaN here. A number field never holds them. The value is exact, so floating-point rounding, a huge exponent giving `Infinity` and a tiny one giving 0 are not modelled.
- ClientGuards.ShareRequest: a fractional share is sent as it is. Stored assignment percentages are whole numbers here, and the share route that would store it is not part of this model.
- SalaryMonth.GetSalaryMonth: the range of JavaScript dates (up to 13 September 275760) is not modelled. For a job month beyond it the cutoff is an Invalid Date and the source gives the approval's own month, while the model compares against the computed cutoff. The approval and the cutoff are also compared on their local wall-clock fields, not as instants. The two differ only in the hour a daylight-saving fall-back repeats. Example: in America/Santiago on 5 April 2025, with job month "2025-03", an approval at the second 23:30 gives "2025-04" in the source, because the cutoff resolves to the earlier 23:59:59. The model gives "2025-03".
- Money is a whole number of dong and percentages are whole numbers. `availableValue` uses exact `real` division instead of floating point.
- Default `sort()` compares UTF-16 code units; the model compares characters. They agree on the ASCII month keys the lists hold.
- React rendering and browser state are not modelled. This covers login and avatars in local storage, CSV and clipboard export, currency formatting, progress bars, the share presets' display and the director password.
- MarketGroups.Place: `groups.set` followed by `groups.get(key).jobs.push(job)` is modelled as one append of the header already holding the job.
- MarketGroups.GroupJobs: the date label is kept as the group's `date`. The ungrouped bucket's missing `date` and a batch group's empty-string date are distinguished as None versus Some("").
- ClientGuards.Claim: the dialog's preset choice is any whole number. The four preset buttons and -1 for the custom field are the only values the UI sets.
