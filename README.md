# Employee salary analysis — Dafny model

This project models the batch script `employee_salary_analysis.py`. The script loads an
employee table (EmpID, Name, Department, JobTitle, Salary, JoiningDate) and cleans it in
place, stage by stage:

- drop rows whose EmpID was already seen;
- coerce salaries to numbers and fill the missing ones with the median;
- fill missing job titles with `"Unknown"`;
- map departments and job titles through two fixed lookup tables;
- derive YearsOfService from the joining date.

It then computes three summaries with pandas `groupby`:

- per department: mean salary, total salary and EmpID count;
- per job title: mean salary and highest salary;
- per department: the row of the highest-paid employee.

The model has six modules:

- `Records` (`records.dfy`) holds the row datatype. A missing cell is `None`.
- `Statistics` (`statistics.dfy`) holds pandas' median, sum and mean over exact reals.
- `StringOrder` (`string_order.dfy`) holds the order Python uses to compare strings, and insertion into a sorted key list.
- `Cleaning` (`cleaning.dfy`) holds a `Frame` class whose `rows` field each stage rewrites in a loop. Each stage is proved against specification functions (`KeepFirst`, `Median`, `Standardize`, `YearsOfService`). `Clean` runs the stages in the script's order and is proved equal to `CleanedTable`.
- `Aggregation` (`aggregation.dfy`) holds the group-by summaries as pure functions, with lemmas about what each row means.
- `Pipeline` (`pipeline.dfy`) runs cleaning and then the summaries.

Missing values follow pandas:

- A missing EmpID counts as one more key in deduplication.
- `median`, `mean` and `max` skip missing cells. They are missing when no value is present. `sum` is then 0.
- `groupby` drops rows whose key is missing and emits its keys in ascending order.
- `idxmax` returns the first row that reaches the maximum. When a department has no salary at all, line 64 raises. Before pandas 3.0, `idxmax` gives NaN for that department and the `df.loc` lookup fails; from pandas 3.0 on, `idxmax` itself raises. `HighestPaidPerDepartment` returns `None` in that case.

## Model

| member | source | states |
|---|---|---|
| Cleaning.Frame.constructor | employee_salary_analysis.py:5 | the frame starts out holding the loaded rows |
| Cleaning.KeepFirst | employee_salary_analysis.py:14 | deduplication keeps at most the input's rows, carries exactly the input's set of EmpIDs, and no EmpID twice |
| Cleaning.KeptIndices | employee_salary_analysis.py:14 | the kept positions are strictly ascending and lie inside the table |
| Cleaning.KeptIndicesMembers | employee_salary_analysis.py:14 | a position is kept if and only if it is the first row carrying its EmpID |
| Cleaning.KeepFirstIsSubsequence | employee_salary_analysis.py:14 | the deduplicated table is the input read at the kept positions, in table order, so it is a subsequence of the input |
| Cleaning.KeepFirstKeepsFirst | employee_salary_analysis.py:14 | every kept row is the first row of the input with its EmpID |
| Cleaning.KeepFirstKeepsEveryId | employee_salary_analysis.py:14 | every EmpID of the input is carried by some kept row |
| Cleaning.KeepFirstOfUnique | employee_salary_analysis.py:14 | a table with distinct EmpIDs is left unchanged, so deduplication is idempotent |
| Cleaning.Frame.DropDuplicates | employee_salary_analysis.py:14 | the loop with a seen-set leaves exactly the first-occurrence rows |
| Cleaning.ParsedSalaries | employee_salary_analysis.py:17-18 | a value is among the salaries the median sees exactly when some row's salary parsed to it; there are no more of them than rows |
| Cleaning.ParsedRows | employee_salary_analysis.py:17-18 | the positions of the rows whose salary parsed are strictly ascending and lie inside the table |
| Cleaning.ParsedRowsMembers | employee_salary_analysis.py:17-18 | a position is listed exactly when its row's salary parsed |
| Cleaning.ParsedSalariesAtRows | employee_salary_analysis.py:17-18 | the median's input holds one entry per row whose salary parsed, in table order, so each salary counts as often as it occurs |
| Statistics.InsertReal | employee_salary_analysis.py:18 | inserting into an ascending list keeps it ascending and adds exactly the one value |
| Statistics.SortReals | employee_salary_analysis.py:18 | the sort is ascending and is a permutation of its input |
| Statistics.SortedUnique | employee_salary_analysis.py:18 | two ascending arrangements of the same values are equal, so the sorted order is well defined |
| Statistics.Median | employee_salary_analysis.py:18 | the median exists exactly when some value is present |
| Statistics.MedianWithinRange | employee_salary_analysis.py:18 | the median lies within any bounds that hold every value |
| Statistics.MedianOrderIndependent | employee_salary_analysis.py:18 | the median depends only on the values held, not on their row order |
| Statistics.MedianOfArranged | employee_salary_analysis.py:18 | the median is the middle of the sorted values, or the mean of the two middle values for an even count |
| Statistics.MedianOfThree | employee_salary_analysis.py:18 | the median of 30, 10 and 20 is 20 |
| Statistics.MedianOfFour | employee_salary_analysis.py:18 | the median of 4, 1, 3 and 2 is 2.5 |
| Cleaning.FillValueExample | employee_salary_analysis.py:17-18 | with salaries 10, 20, 30 and one unparsed salary, the fill value is 20 |
| Cleaning.Frame.FillMissingSalaries | employee_salary_analysis.py:17-18 | rows with a parsed salary are unchanged; a missing salary becomes the median of the parsed ones and nothing else in its row changes; when some salary parsed, no salary is missing afterwards |
| Cleaning.Frame.FillMissingJobTitles | employee_salary_analysis.py:19 | rows with a job title are unchanged; a missing title becomes "Unknown" and no other field changes |
| Cleaning.JobMapAsWritten | employee_salary_analysis.py:28-41 | the job-title table is the script's twelve entries, including "Software Engg" mapped to "Software Engineer" |
| Cleaning.MapCell | employee_salary_analysis.py:42-43 | `map(m)` gives a value exactly when the cell holds a key of the table, and that value is one of the table's targets |
| Cleaning.Standardize | employee_salary_analysis.py:42-43 | a key of the table takes its mapped value; any other value and a missing cell pass through unchanged; the cell is present afterwards exactly when it was before |
| Cleaning.DeptMapIsCanonical | employee_salary_analysis.py:22-27 | every department target is a key that maps to itself |
| Cleaning.JobMapIsCanonical | employee_salary_analysis.py:28-41 | every job-title target is a key that maps to itself |
| Cleaning.StandardizeIdempotent | employee_salary_analysis.py:42-43 | with such a table, standardising twice gives what standardising once gives |
| Cleaning.JobMapExamples | employee_salary_analysis.py:28-43 | "Software Engg" becomes "Software Engineer"; "Unknown" and a missing department pass through |
| Cleaning.Frame.StandardizeDepartments | employee_salary_analysis.py:42 | each row's department is replaced by its standardised value and nothing else changes |
| Cleaning.Frame.StandardizeJobTitles | employee_salary_analysis.py:43 | each row's job title is replaced by its standardised value and nothing else changes |
| Cleaning.YearsOfService | employee_salary_analysis.py:46-48 | the tenure is present exactly when the joining date parsed; it is the tenth nearest to days/365, within half a tenth; it is not negative when the joining day is not after the reference day |
| Cleaning.NearestTenth | employee_salary_analysis.py:48 | the rounding formula is within half a tenth of days/365, so it picks the unique nearest tenth |
| Cleaning.TenureExample | employee_salary_analysis.py:48 | 1461 days give 4.0 years |
| Cleaning.Frame.AddYearsOfService | employee_salary_analysis.py:46-48 | each row gains its tenure against the reference day and no other field changes |
| Cleaning.CleanRow | employee_salary_analysis.py:17-48 | a cleaned row keeps its EmpID, name and joining day; it has a job title; it has a salary when it had one or a fill value exists; it has a tenure exactly when its joining date parsed |
| Cleaning.CleanedTable | employee_salary_analysis.py:14-48 | the cleaned table has one row per first occurrence of an EmpID, in table order: row a is the a-th such input row, cleaned with the median of the deduplicated salaries as fill value |
| Cleaning.CleanedTableIds | employee_salary_analysis.py:14-48 | the cleaned table has no more rows than the input, distinct EmpIDs, and every EmpID of the input |
| Cleaning.CleanedTableCells | employee_salary_analysis.py:17-48 | no job title is missing after cleaning; no salary is missing once a kept salary parsed; tenure is present exactly where the joining date parsed |
| Cleaning.CleanedSalariesPresent | employee_salary_analysis.py:14-18 | if a row that survives deduplication has a parsed salary, no cleaned salary is missing |
| Cleaning.Clean | employee_salary_analysis.py:14-48 | running the stages one after another on one frame yields the cleaned table |
| StringOrder.LessIrreflexive | employee_salary_analysis.py:51 | no key sorts before itself |
| StringOrder.LessTransitive | employee_salary_analysis.py:51 | the key order is transitive |
| StringOrder.LessTotal | employee_salary_analysis.py:51 | of two different keys, one sorts before the other |
| StringOrder.LessAsymmetric | employee_salary_analysis.py:51 | two keys never sort before each other |
| StringOrder.SortedDistinct | employee_salary_analysis.py:51 | a strictly ascending key list has no repeated key |
| StringOrder.Insert | employee_salary_analysis.py:51 | inserting a key keeps the list strictly ascending, and the list holds exactly the old keys plus the new one |
| Aggregation.GroupKeys | employee_salary_analysis.py:51-61 | the group keys are strictly ascending and are exactly the present values of the column |
| Aggregation.GroupSalaries | employee_salary_analysis.py:51-61 | a value is among a group's salaries exactly when some row of the group has it as its salary; there are no more of them than rows |
| Aggregation.SalaryRows | employee_salary_analysis.py:51-61 | the positions of the group's rows with a salary are strictly ascending, lie inside the table, and each is a row of the group with a salary |
| Aggregation.SalaryRowsMembers | employee_salary_analysis.py:51-61 | a position is listed exactly when its row belongs to the group and has a salary |
| Aggregation.GroupSalariesAtRows | employee_salary_analysis.py:51-61 | a group's salaries hold one entry per row of the group with a salary, in table order, so sum, mean and max see each salary as often as it occurs |
| Aggregation.GroupSalariesCount | employee_salary_analysis.py:52-53 | the number of salaries the mean divides by is the number of the group's rows with a salary |
| Aggregation.GroupIdCount | employee_salary_analysis.py:54 | the EmpID count is at most the number of rows |
| Aggregation.GroupIdCountIsCount | employee_salary_analysis.py:54 | the EmpID count is the number of the group's rows whose EmpID is present |
| Aggregation.GroupIdCountPositive | employee_salary_analysis.py:54 | the EmpID count is positive exactly when some row of the group has an EmpID |
| Statistics.SumAppend | employee_salary_analysis.py:53 | the sum of two parts added together is the sum of the whole |
| Statistics.SumOrderIndependent | employee_salary_analysis.py:53 | the sum depends only on the values held and how often, not on their row order |
| Statistics.SumAtMost | employee_salary_analysis.py:53 | the sum is at most the count times an upper bound on every value |
| Statistics.SumAtLeast | employee_salary_analysis.py:53 | the sum is at least the count times a lower bound on every value |
| Statistics.Mean | employee_salary_analysis.py:51-61 | the mean exists exactly when some value is present, and it times the count is the sum |
| Statistics.MeanWithinRange | employee_salary_analysis.py:51-61 | the mean lies within any bounds that hold every value |
| Statistics.MeanAtMost | employee_salary_analysis.py:59-60 | the mean does not exceed a bound on all the values |
| Aggregation.GroupMeanWithinRange | employee_salary_analysis.py:52 | a group's mean lies within any bounds on the group's salaries |
| Aggregation.GroupMeanAtMost | employee_salary_analysis.py:59-60 | a group's mean does not exceed a bound on the group's salaries |
| Aggregation.DeptRow | employee_salary_analysis.py:51-55 | a department's row names that department; its AvgSalary is present exactly when one of its rows has a salary; its EmployeeCount is at most the number of rows |
| Aggregation.DepartmentSummary | employee_salary_analysis.py:51-55 | there is one row per group key, in strictly ascending department order, and each row is the summary of the department it names |
| Aggregation.DepartmentSummaryRows | employee_salary_analysis.py:51-55 | the department summary has one row per present department, in strictly ascending order, and no other rows |
| Aggregation.DeptRowMeaning | employee_salary_analysis.py:51-55 | TotalSalary is the sum of the group's salaries; AvgSalary is that total over the salary count, missing when there is no salary, and lies within any bounds on the salaries; the salary count is the number of the department's rows with a salary; EmployeeCount is the number of its rows with an EmpID, so it is positive exactly when such a row exists |
| Aggregation.DepartmentSummaryExample | employee_salary_analysis.py:51-55 | A paid 100 and 200 and B paid 300 give (A, 150, 300, 2) then (B, 300, 300, 1) |
| Aggregation.ExampleKeys | employee_salary_analysis.py:51 | the example's departments come out as A then B |
| Aggregation.ExampleGroupA | employee_salary_analysis.py:51-55 | the example's department A has mean 150, total 300 and two EmpIDs |
| Aggregation.ExampleGroupB | employee_salary_analysis.py:51-55 | the example's department B has mean 300, total 300 and one EmpID |
| Aggregation.JobRow | employee_salary_analysis.py:58-61 | a job title's row names that title; HighestPaid is present exactly when one of its rows has a salary, and AvgSalary exactly when HighestPaid is |
| Aggregation.JobTitleSummary | employee_salary_analysis.py:58-61 | there is one row per group key, in strictly ascending job-title order, and each row is the summary of the title it names |
| Aggregation.JobTitleSummaryRows | employee_salary_analysis.py:58-61 | the job-title summary has one row per present job title, in strictly ascending order, and no other rows |
| Aggregation.JobRowMeaning | employee_salary_analysis.py:58-61 | HighestPaid and AvgSalary are both present or both missing; HighestPaid is some row's salary in the group and at least every salary of the group; the mean does not exceed it |
| Aggregation.GroupMax | employee_salary_analysis.py:60 | the group maximum is missing exactly when no row of the group has a salary; otherwise it is the salary of the row idxmax picks |
| Aggregation.GroupMaxIsMaximum | employee_salary_analysis.py:60 | the group maximum is missing exactly when the group has no salary; otherwise it is one of the group's salaries and at least all of them |
| Aggregation.FirstMaxIndex | employee_salary_analysis.py:64 | idxmax returns a row of the group whose salary is at least every salary of the group and greater than every earlier salary of the group; it returns nothing exactly when the group has no salary |
| Aggregation.FirstMaxUnique | employee_salary_analysis.py:64 | at most one row is the first maximum, so ties go to the earliest row |
| Aggregation.TopEarners | employee_salary_analysis.py:64 | the lookup fails exactly when some key has no salary; otherwise there is one projected first-maximum row per key, in key order |
| Aggregation.TopEarnersSingle | employee_salary_analysis.py:64 | for a single key, the result is the projection of that key's first maximum |
| Aggregation.HighestPaidPerDepartment | employee_salary_analysis.py:64 | the lookup fails exactly when some present department has no salary; otherwise it has one row per department key |
| Aggregation.HighestPaidRows | employee_salary_analysis.py:64 | when defined, the result is strictly ascending by department, covers exactly the present departments, and each row is its department's first maximum projected to Department, EmpID, Name and Salary |
| Aggregation.HighestPaidDefined | employee_salary_analysis.py:64 | with every salary present, the lookup succeeds |
| Aggregation.HighestPaidUndefined | employee_salary_analysis.py:64 | a present department none of whose salaries is present makes the lookup fail |
| Aggregation.TieBreakExample | employee_salary_analysis.py:64 | two rows of one department, both paid 500, select the first |
| Pipeline.Summarize | employee_salary_analysis.py:51-64 | the highest-paid table, when defined, has as many rows as the department summary; with no salary missing it is defined |
| Pipeline.Analyse | employee_salary_analysis.py:14-64 | the script's three summaries are those of the cleaned table |
| Pipeline.HighestPaidAfterCleaning | employee_salary_analysis.py:18-64 | once a row that survives deduplication has a parsed salary, the highest-paid lookup on the cleaned table succeeds |
| Pipeline.JobSummaryCoversCleanedRows | employee_salary_analysis.py:19-61 | every cleaned row has a job title and appears under some row of the job-title summary |

## Left out

- CSV input and output (lines 5 and 67-69) are left out. The loaded rows are a parameter and the summaries are results.
- The `df.info()` and `df.describe()` printing (lines 8-11) is left out because it is console output only.
- Tabulate rendering and its `ImportError` fallback (lines 72-86) are left out because they are presentation only.
- `datetime.today()` (line 46) is replaced by a `refDay` parameter, the reference day as a day number.
  - The time of day is dropped. `.dt.days` floors it away, because joining dates parse to midnight.
- String-to-number and string-to-date parsing (lines 17 and 47) are not modelled. Salaries arrive as the coerced `Option<real>` and joining dates as an `Option<int>` day number.
- Floating-point arithmetic is not modelled. Salaries, sums, means and medians are exact reals. YearsOfService is an integer count of tenths.
  - Rounding to one decimal is the nearest tenth. An exact half-way case cannot occur, since n/365 is never an odd multiple of 1/20. So pandas' round-half-to-even never applies.
- Cleaning.Frame.FillMissingSalaries, Cleaning.Frame.FillMissingJobTitles, Aggregation.HighestPaidPerDepartment: these follow pandas 1.x and 2.x. There, the chained `fillna(..., inplace=True)` on lines 18-19 updates `df`, and `idxmax` on line 64 gives NaN for a group with no salary, so the `df.loc` lookup fails. Under pandas 3.0 Copy-on-Write, lines 18-19 leave `df` unchanged, so missing salaries and titles stay missing, and `idxmax` raises. The 3.0 behaviour of lines 18-19 is not modelled; the failing lookup is `None` under both.
- The `DeptMap` and `JobMap` constants (lines 22-41) have no contract of their own. Cleaning.JobMapAsWritten, Cleaning.DeptMapIsCanonical and Cleaning.JobMapIsCanonical state their contents.
- Statistics.Sum has no contract of its own. Statistics.SumAppend, Statistics.SumOrderIndependent, Statistics.SumAtMost, Statistics.SumAtLeast and Statistics.Mean state its properties.
- EmployeeCount >= 1 is not promised: `count` skips missing EmpIDs, so a department whose rows all lack one gets 0 (Aggregation.DeptRowMeaning states the exact count).
- Summary rows come in ascending key order, because `groupby` sorts its keys by default; other orders (`sort=False`) are not modelled.
- Pandas' column dtypes, the index, and the `reset_index` renaming are not modelled. Summary rows are records with named fields.
