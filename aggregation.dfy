/** The three summaries the script computes from the cleaned table with pandas
    `groupby`: groups are formed by the present values of one column, emitted in
    ascending key order; rows whose key is missing belong to no group. */
module Aggregation {
  import opened Records
  import opened StringOrder
  import opened Statistics

  /** The column a summary groups by. */
  datatype Column = Department | JobTitle

  function KeyOf(e: Employee, col: Column): Option<string>
  {
    match col
    case Department => e.department
    case JobTitle => e.jobTitle
  }

  predicate InGroup(e: Employee, col: Column, k: string)
  {
    KeyOf(e, col) == Some(k)
  }

  /** The group keys of df.groupby(col): each present value of the column once, ascending. */
  function GroupKeys(t: seq<Employee>, col: Column): (r: seq<string>)
    ensures StrictlySorted(r)
    ensures forall k :: k in r <==> exists i :: 0 <= i < |t| && InGroup(t[i], col, k)
  {
    if t == [] then []
    else
      var prev := t[..|t| - 1];
      assert forall i :: 0 <= i < |prev| ==> prev[i] == t[i];
      var keys := GroupKeys(prev, col);
      match KeyOf(t[|t| - 1], col)
      case None => keys
      case Some(k) => Insert(keys, k)
  }

  // ---------------------------------------------------------------------------
  // Per-group aggregates

  /** The salaries of group k that are present, in table order; the values pandas'
      sum, mean and max look at. */
  function GroupSalaries(t: seq<Employee>, col: Column, k: string): (r: seq<real>)
    ensures |r| <= |t|
    ensures forall x :: x in r <==> exists i :: 0 <= i < |t| && InGroup(t[i], col, k) && t[i].salary == Some(x)
  {
    if t == [] then []
    else
      var prev := t[..|t| - 1];
      assert forall i :: 0 <= i < |prev| ==> prev[i] == t[i];
      var last := t[|t| - 1];
      GroupSalaries(prev, col, k) + (if InGroup(last, col, k) && last.salary.Some? then [last.salary.value] else [])
  }

  /** count('EmpID'): the rows of group k whose EmpID is present. */
  function GroupIdCount(t: seq<Employee>, col: Column, k: string): (r: nat)
    ensures r <= |t|
  {
    if t == [] then 0
    else
      var last := t[|t| - 1];
      GroupIdCount(t[..|t| - 1], col, k) + (if InGroup(last, col, k) && last.empId.Some? then 1 else 0)
  }

  /** The count is positive exactly when some row of the group has an EmpID. */
  lemma {:induction false} GroupIdCountPositive(t: seq<Employee>, col: Column, k: string)
    ensures GroupIdCount(t, col, k) > 0 <==> exists i :: 0 <= i < |t| && InGroup(t[i], col, k) && t[i].empId.Some?
  {
    if t != [] {
      var prev := t[..|t| - 1];
      GroupIdCountPositive(prev, col, k);
      assert forall i :: 0 <= i < |prev| ==> prev[i] == t[i];
    }
  }

  /** The positions of the rows of group k that have a salary. */
  ghost function SalariedRows(t: seq<Employee>, col: Column, k: string): set<int>
  {
    set i | 0 <= i < |t| && InGroup(t[i], col, k) && t[i].salary.Some?
  }

  /** The positions of the rows of group k that have an EmpID. */
  ghost function IdRows(t: seq<Employee>, col: Column, k: string): set<int>
  {
    set i | 0 <= i < |t| && InGroup(t[i], col, k) && t[i].empId.Some?
  }

  /** The salaried rows of group k, by position, ascending. */
  function SalaryRows(t: seq<Employee>, col: Column, k: string): (r: seq<nat>)
    ensures forall a :: 0 <= a < |r| ==> r[a] < |t| && InGroup(t[r[a]], col, k) && t[r[a]].salary.Some?
    ensures forall a, b :: 0 <= a < b < |r| ==> r[a] < r[b]
  {
    if t == [] then []
    else
      var prev := t[..|t| - 1];
      assert forall i :: 0 <= i < |prev| ==> prev[i] == t[i];
      var last := t[|t| - 1];
      SalaryRows(prev, col, k) + (if InGroup(last, col, k) && last.salary.Some? then [|t| - 1] else [])
  }

  /** Every salaried row of group k is listed. */
  lemma {:induction false} SalaryRowsMembers(t: seq<Employee>, col: Column, k: string)
    ensures forall i :: i in SalaryRows(t, col, k) <==> i in SalariedRows(t, col, k)
  {
    if t != [] {
      var prev := t[..|t| - 1];
      SalaryRowsMembers(prev, col, k);
      assert forall i :: 0 <= i < |prev| ==> prev[i] == t[i];
    }
  }

  /** GroupSalaries holds one entry per salaried row of the group, in table order: the
      salary of the row at the same place in SalaryRows. So sum, mean and max see every
      salary as often as it occurs. */
  lemma {:induction false} GroupSalariesAtRows(t: seq<Employee>, col: Column, k: string)
    ensures |GroupSalaries(t, col, k)| == |SalaryRows(t, col, k)|
    ensures forall a :: 0 <= a < |SalaryRows(t, col, k)| ==>
      GroupSalaries(t, col, k)[a] == t[SalaryRows(t, col, k)[a]].salary.value
  {
    if t != [] {
      var prev, n := t[..|t| - 1], |t| - 1;
      GroupSalariesAtRows(prev, col, k);
      var gp, rp := GroupSalaries(prev, col, k), SalaryRows(prev, col, k);
      SalariesAtPrefix(t, n, gp, rp);
      if InGroup(t[n], col, k) && t[n].salary.Some? {
        SalariedRowsExtend(t, col, k);
        SalariesAtAppend(t, gp, rp, n);
      } else {
        SalariedRowsSkip(t, col, k);
      }
    }
  }

  /** A last row that is a salaried row of group k adds its salary and its position. */
  lemma SalariedRowsExtend(t: seq<Employee>, col: Column, k: string)
    requires t != [] && InGroup(t[|t| - 1], col, k) && t[|t| - 1].salary.Some?
    ensures GroupSalaries(t, col, k) == GroupSalaries(t[..|t| - 1], col, k) + [t[|t| - 1].salary.value]
    ensures SalaryRows(t, col, k) == SalaryRows(t[..|t| - 1], col, k) + [|t| - 1]
  {
  }

  /** Any other last row adds nothing. */
  lemma SalariedRowsSkip(t: seq<Employee>, col: Column, k: string)
    requires t != [] && !(InGroup(t[|t| - 1], col, k) && t[|t| - 1].salary.Some?)
    ensures GroupSalaries(t, col, k) == GroupSalaries(t[..|t| - 1], col, k)
    ensures SalaryRows(t, col, k) == SalaryRows(t[..|t| - 1], col, k)
  {
  }

  /** The number of salaries the mean divides by is the number of salaried rows. */
  lemma {:induction false} GroupSalariesCount(t: seq<Employee>, col: Column, k: string)
    ensures |GroupSalaries(t, col, k)| == |SalariedRows(t, col, k)|
  {
    if t == [] {
      assert SalariedRows(t, col, k) == {};
    } else {
      GroupSalariesCount(t[..|t| - 1], col, k);
      SalariedRowsStep(t, col, k);
    }
  }

  lemma SalariedRowsStep(t: seq<Employee>, col: Column, k: string)
    requires t != []
    ensures var n := |t| - 1;
      |SalariedRows(t, col, k)| ==
        |SalariedRows(t[..n], col, k)| + (if InGroup(t[n], col, k) && t[n].salary.Some? then 1 else 0)
  {
    var n := |t| - 1;
    SalariedRowsUnion(t, col, k);
    if InGroup(t[n], col, k) && t[n].salary.Some? {
      assert n !in SalariedRows(t[..n], col, k);
    }
  }

  lemma SalariedRowsUnion(t: seq<Employee>, col: Column, k: string)
    requires t != []
    ensures var n := |t| - 1;
      SalariedRows(t, col, k) ==
        SalariedRows(t[..n], col, k) + (if InGroup(t[n], col, k) && t[n].salary.Some? then {n} else {})
  {
    var prev, n := t[..|t| - 1], |t| - 1;
    var now, before := SalariedRows(t, col, k), SalariedRows(prev, col, k);
    var extra: set<int> := if InGroup(t[n], col, k) && t[n].salary.Some? then {n} else {};
    forall i
      ensures i in now <==> i in before + extra
    {
      if 0 <= i < n {
        assert prev[i] == t[i];
      }
    }
  }

  /** count('EmpID') is the number of rows of the group whose EmpID is present. */
  lemma {:induction false} GroupIdCountIsCount(t: seq<Employee>, col: Column, k: string)
    ensures GroupIdCount(t, col, k) == |IdRows(t, col, k)|
  {
    if t == [] {
      assert IdRows(t, col, k) == {};
    } else {
      GroupIdCountIsCount(t[..|t| - 1], col, k);
      IdRowsStep(t, col, k);
    }
  }

  lemma IdRowsStep(t: seq<Employee>, col: Column, k: string)
    requires t != []
    ensures var n := |t| - 1;
      |IdRows(t, col, k)| ==
        |IdRows(t[..n], col, k)| + (if InGroup(t[n], col, k) && t[n].empId.Some? then 1 else 0)
  {
    var n := |t| - 1;
    IdRowsUnion(t, col, k);
    if InGroup(t[n], col, k) && t[n].empId.Some? {
      assert n !in IdRows(t[..n], col, k);
    }
  }

  lemma IdRowsUnion(t: seq<Employee>, col: Column, k: string)
    requires t != []
    ensures var n := |t| - 1;
      IdRows(t, col, k) ==
        IdRows(t[..n], col, k) + (if InGroup(t[n], col, k) && t[n].empId.Some? then {n} else {})
  {
    var prev, n := t[..|t| - 1], |t| - 1;
    var now, before := IdRows(t, col, k), IdRows(prev, col, k);
    var extra: set<int> := if InGroup(t[n], col, k) && t[n].empId.Some? then {n} else {};
    forall i
      ensures i in now <==> i in before + extra
    {
      if 0 <= i < n {
        assert prev[i] == t[i];
      }
    }
  }

  /** Row j of t[..n] is what Series.idxmax() picks in group k: a row of the group with
      a salary, none of whose salaries in t[..n] is larger, and no earlier row of the
      group has the same salary (ties go to the first). */
  predicate IsFirstMax(t: seq<Employee>, col: Column, k: string, n: nat, j: int)
    requires n <= |t|
  {
    && 0 <= j < n && InGroup(t[j], col, k) && t[j].salary.Some?
    && (forall i :: 0 <= i < n && InGroup(t[i], col, k) && t[i].salary.Some? ==>
          t[i].salary.value <= t[j].salary.value)
    && (forall i :: 0 <= i < j && InGroup(t[i], col, k) && t[i].salary.Some? ==>
          t[i].salary.value < t[j].salary.value)
  }

  /** Some row of group k in t[..n] has a salary. */
  predicate HasSalary(t: seq<Employee>, col: Column, k: string, n: nat)
    requires n <= |t|
  {
    exists i :: 0 <= i < n && InGroup(t[i], col, k) && t[i].salary.Some?
  }

  /** idxmax over group k in t[..n], missing salaries skipped; none when the group has
      no salary at all. */
  function FirstMaxIndex(t: seq<Employee>, col: Column, k: string, n: nat): (r: Option<nat>)
    requires n <= |t|
    ensures r.Some? ==> IsFirstMax(t, col, k, n, r.value)
    ensures r.None? <==> !HasSalary(t, col, k, n)
  {
    if n == 0 then None
    else
      var prev := FirstMaxIndex(t, col, k, n - 1);
      var e := t[n - 1];
      if InGroup(e, col, k) && e.salary.Some? &&
         (prev.None? || t[prev.value].salary.value < e.salary.value)
      then Some(n - 1)
      else prev
  }

  /** The first maximum is unique: the tie-break is deterministic. */
  lemma FirstMaxUnique(t: seq<Employee>, col: Column, k: string, n: nat, j1: int, j2: int)
    requires n <= |t| && IsFirstMax(t, col, k, n, j1) && IsFirstMax(t, col, k, n, j2)
    ensures j1 == j2
  {
  }

  /** max('Salary') of group k: missing when no row of the group has a salary, else the
      salary of the row idxmax picks. */
  function GroupMax(t: seq<Employee>, col: Column, k: string): (r: Option<real>)
    ensures r.None? <==> !HasSalary(t, col, k, |t|)
    ensures r.Some? ==> exists j :: IsFirstMax(t, col, k, |t|, j) && t[j].salary == r
  {
    match FirstMaxIndex(t, col, k, |t|)
    case None => None
    case Some(j) => t[j].salary
  }

  /** The group maximum is at least every salary of the group and is one of them. */
  lemma GroupMaxIsMaximum(t: seq<Employee>, col: Column, k: string)
    ensures GroupMax(t, col, k).None? <==> GroupSalaries(t, col, k) == []
    ensures GroupMax(t, col, k).Some? ==>
      && GroupMax(t, col, k).value in GroupSalaries(t, col, k)
      && forall x :: x in GroupSalaries(t, col, k) ==> x <= GroupMax(t, col, k).value
  {
    var s := GroupSalaries(t, col, k);
    if s != [] {
      assert s[0] in s;
    }
  }

  /** The mean of group k lies within any range holding all the group's salaries. */
  lemma GroupMeanWithinRange(t: seq<Employee>, col: Column, k: string, lo: real, hi: real)
    requires forall i :: 0 <= i < |t| && InGroup(t[i], col, k) && t[i].salary.Some? ==>
      lo <= t[i].salary.value <= hi
    ensures Mean(GroupSalaries(t, col, k)).Some? ==> lo <= Mean(GroupSalaries(t, col, k)).value <= hi
  {
    var s := GroupSalaries(t, col, k);
    if |s| > 0 {
      forall j | 0 <= j < |s|
        ensures lo <= s[j] <= hi
      {
        assert s[j] in s;
      }
      MeanWithinRange(s, lo, hi);
    }
  }

  /** The mean of group k does not exceed a bound on all the group's salaries. */
  lemma GroupMeanAtMost(t: seq<Employee>, col: Column, k: string, hi: real)
    requires forall i :: 0 <= i < |t| && InGroup(t[i], col, k) && t[i].salary.Some? ==>
      t[i].salary.value <= hi
    ensures Mean(GroupSalaries(t, col, k)).Some? ==> Mean(GroupSalaries(t, col, k)).value <= hi
  {
    var s := GroupSalaries(t, col, k);
    if |s| > 0 {
      forall j | 0 <= j < |s|
        ensures s[j] <= hi
      {
        assert s[j] in s;
      }
      MeanAtMost(s, hi);
    }
  }

  // ---------------------------------------------------------------------------
  // dept_summary = df.groupby('Department').agg(AvgSalary=mean, TotalSalary=sum,
  //                                            EmployeeCount=('EmpID', 'count'))

  datatype DeptSummary = DeptSummary(
    department: string, avgSalary: Option<real>, totalSalary: real, employeeCount: nat)

  /** The summary row of department k: its average is present exactly when one of its
      rows has a salary, and it counts no more EmpIDs than there are rows. */
  function DeptRow(t: seq<Employee>, k: string): (r: DeptSummary)
    ensures r.department == k
    ensures r.avgSalary.Some? <==> HasSalary(t, Department, k, |t|)
    ensures r.employeeCount <= |t|
  {
    var s := GroupSalaries(t, Department, k);
    assert s != [] <==> HasSalary(t, Department, k, |t|) by {
      if s != [] {
        assert s[0] in s;
      }
      if HasSalary(t, Department, k, |t|) {
        var i :| 0 <= i < |t| && InGroup(t[i], Department, k) && t[i].salary.Some?;
        assert t[i].salary.value in s;
      }
    }
    DeptSummary(k, Mean(s), Sum(s), GroupIdCount(t, Department, k))
  }

  /** dept_summary: one row per department, in strictly ascending order, each the
      summary row of the department it names. */
  function DepartmentSummary(t: seq<Employee>): (r: seq<DeptSummary>)
    ensures |r| == |GroupKeys(t, Department)|
    ensures forall i :: 0 <= i < |r| ==> r[i] == DeptRow(t, r[i].department)
    ensures forall i, j :: 0 <= i < j < |r| ==> Less(r[i].department, r[j].department)
  {
    var keys := GroupKeys(t, Department);
    seq(|keys|, i requires 0 <= i < |keys| => DeptRow(t, keys[i]))
  }

  /** One row per department present in the table, in ascending order. */
  lemma DepartmentSummaryRows(t: seq<Employee>)
    ensures var r := DepartmentSummary(t);
      && (forall i, j :: 0 <= i < j < |r| ==> Less(r[i].department, r[j].department))
      && (forall k :: (exists i :: 0 <= i < |r| && r[i].department == k) <==>
                      (exists j :: 0 <= j < |t| && t[j].department == Some(k)))
  {
    var keys := GroupKeys(t, Department);
    var r := DepartmentSummary(t);
    forall k
      ensures (exists i :: 0 <= i < |r| && r[i].department == k) <==>
              (exists j :: 0 <= j < |t| && t[j].department == Some(k))
    {
      if exists j :: 0 <= j < |t| && t[j].department == Some(k) {
        var j :| 0 <= j < |t| && t[j].department == Some(k);
        assert InGroup(t[j], Department, k);
        assert k in keys;
        var i :| 0 <= i < |keys| && keys[i] == k;
        assert r[i].department == k;
      }
      if exists i :: 0 <= i < |r| && r[i].department == k {
        var i :| 0 <= i < |r| && r[i].department == k;
        assert keys[i] in keys;
      }
    }
  }

  /** A department's row: TotalSalary is the sum of its salaries, AvgSalary that sum
      divided by the number of rows with a salary (missing when there are none),
      EmployeeCount the number of rows with an EmpID, and AvgSalary within any range
      holding the group's salaries. */
  lemma DeptRowMeaning(t: seq<Employee>, k: string, lo: real, hi: real)
    requires forall i :: 0 <= i < |t| && t[i].department == Some(k) && t[i].salary.Some? ==>
      lo <= t[i].salary.value <= hi
    ensures var row := DeptRow(t, k);
      && row.department == k
      && row.totalSalary == Sum(GroupSalaries(t, Department, k))
      && row.avgSalary == (if GroupSalaries(t, Department, k) == [] then None
                           else Some(row.totalSalary / |GroupSalaries(t, Department, k)| as real))
      && (row.avgSalary.Some? ==> lo <= row.avgSalary.value <= hi)
      && |GroupSalaries(t, Department, k)| == |SalariedRows(t, Department, k)|
      && row.employeeCount == |IdRows(t, Department, k)|
      && (row.employeeCount > 0 <==> exists i :: 0 <= i < |t| && t[i].department == Some(k) && t[i].empId.Some?)
  {
    GroupSalariesCount(t, Department, k);
    GroupIdCountIsCount(t, Department, k);
    var s := GroupSalaries(t, Department, k);
    assert DeptRow(t, k).avgSalary == Mean(s) && DeptRow(t, k).totalSalary == Sum(s);
    GroupMeanWithinRange(t, Department, k, lo, hi);
    GroupIdCountPositive(t, Department, k);
  }

  // ---------------------------------------------------------------------------
  // job_summary = df.groupby('JobTitle').agg(AvgSalary=mean, HighestPaid=max)

  datatype JobSummary = JobSummary(jobTitle: string, avgSalary: Option<real>, highestPaid: Option<real>)

  /** The summary row of job title k: its average and its highest salary are present
      exactly when one of its rows has a salary. */
  function JobRow(t: seq<Employee>, k: string): (r: JobSummary)
    ensures r.jobTitle == k
    ensures r.highestPaid.Some? <==> HasSalary(t, JobTitle, k, |t|)
    ensures r.avgSalary.Some? <==> r.highestPaid.Some?
  {
    GroupMaxIsMaximum(t, JobTitle, k);
    JobSummary(k, Mean(GroupSalaries(t, JobTitle, k)), GroupMax(t, JobTitle, k))
  }

  /** job_summary: one row per job title, in strictly ascending order, each the summary
      row of the title it names. */
  function JobTitleSummary(t: seq<Employee>): (r: seq<JobSummary>)
    ensures |r| == |GroupKeys(t, JobTitle)|
    ensures forall i :: 0 <= i < |r| ==> r[i] == JobRow(t, r[i].jobTitle)
    ensures forall i, j :: 0 <= i < j < |r| ==> Less(r[i].jobTitle, r[j].jobTitle)
  {
    var keys := GroupKeys(t, JobTitle);
    seq(|keys|, i requires 0 <= i < |keys| => JobRow(t, keys[i]))
  }

  /** One row per job title present in the table, in ascending order. */
  lemma JobTitleSummaryRows(t: seq<Employee>)
    ensures var r := JobTitleSummary(t);
      && (forall i, j :: 0 <= i < j < |r| ==> Less(r[i].jobTitle, r[j].jobTitle))
      && (forall k :: (exists i :: 0 <= i < |r| && r[i].jobTitle == k) <==>
                      (exists j :: 0 <= j < |t| && t[j].jobTitle == Some(k)))
  {
    var keys := GroupKeys(t, JobTitle);
    var r := JobTitleSummary(t);
    forall k
      ensures (exists i :: 0 <= i < |r| && r[i].jobTitle == k) <==>
              (exists j :: 0 <= j < |t| && t[j].jobTitle == Some(k))
    {
      if exists j :: 0 <= j < |t| && t[j].jobTitle == Some(k) {
        var j :| 0 <= j < |t| && t[j].jobTitle == Some(k);
        assert InGroup(t[j], JobTitle, k);
        assert k in keys;
        var i :| 0 <= i < |keys| && keys[i] == k;
        assert r[i].jobTitle == k;
      }
      if exists i :: 0 <= i < |r| && r[i].jobTitle == k {
        var i :| 0 <= i < |r| && r[i].jobTitle == k;
        assert keys[i] in keys;
      }
    }
  }

  /** A job title's row: HighestPaid is at least every salary of the group and is the
      salary of one of its rows, and AvgSalary does not exceed it. */
  lemma JobRowMeaning(t: seq<Employee>, k: string)
    ensures var row := JobRow(t, k);
      && row.jobTitle == k
      && (row.highestPaid.Some? <==> row.avgSalary.Some?)
      && (row.highestPaid.Some? ==>
            && (exists j :: 0 <= j < |t| && t[j].jobTitle == Some(k) && t[j].salary == row.highestPaid)
            && (forall i :: 0 <= i < |t| && t[i].jobTitle == Some(k) && t[i].salary.Some? ==>
                  t[i].salary.value <= row.highestPaid.value)
            && row.avgSalary.value <= row.highestPaid.value)
  {
    var row := JobRow(t, k);
    GroupMaxIsMaximum(t, JobTitle, k);
    if row.highestPaid.Some? {
      var m := row.highestPaid.value;
      var j :| 0 <= j < |t| && InGroup(t[j], JobTitle, k) && t[j].salary == Some(m);
      forall i | 0 <= i < |t| && t[i].jobTitle == Some(k) && t[i].salary.Some?
        ensures t[i].salary.value <= m
      {
        assert t[i].salary.value in GroupSalaries(t, JobTitle, k);
      }
      GroupMeanAtMost(t, JobTitle, k, m);
    }
  }

  // ---------------------------------------------------------------------------
  // highest_paid = df.loc[df.groupby('Department')['Salary'].idxmax()]
  //                  [['Department', 'EmpID', 'Name', 'Salary']]

  datatype TopEarner = TopEarner(department: string, empId: Option<string>, name: string, salary: real)

  /** The projection of a row onto Department, EmpID, Name and Salary. */
  function Project(e: Employee): TopEarner
    requires e.department.Some? && e.salary.Some?
  {
    TopEarner(e.department.value, e.empId, e.name, e.salary.value)
  }

  /** e is the projection of the row idxmax picks for department k. */
  ghost predicate IsTopEarner(t: seq<Employee>, k: string, e: TopEarner)
  {
    exists j :: IsFirstMax(t, Department, k, |t|, j) && e == Project(t[j])
  }

  /** The idxmax row of each department in keys, in the order of keys; none when some
      department has no salary at all (pandas then has no label to look up). */
  function TopEarners(t: seq<Employee>, keys: seq<string>): (r: Option<seq<TopEarner>>)
    ensures r.None? <==> exists i :: 0 <= i < |keys| && !HasSalary(t, Department, keys[i], |t|)
    ensures r.Some? ==> |r.value| == |keys|
    ensures r.Some? ==> forall i :: 0 <= i < |keys| ==> IsTopEarner(t, keys[i], r.value[i])
  {
    if keys == [] then Some([])
    else
      match FirstMaxIndex(t, Department, keys[0], |t|)
      case None => None
      case Some(j) =>
        var rest := TopEarners(t, keys[1..]);
        if rest.None? then
          assert exists i :: 0 <= i < |keys| && !HasSalary(t, Department, keys[i], |t|) by {
            var i :| 0 <= i < |keys[1..]| && !HasSalary(t, Department, keys[1..][i], |t|);
            assert keys[1..][i] == keys[i + 1];
          }
          None
        else
          var r := [Project(t[j])] + rest.value;
          assert IsTopEarner(t, keys[0], r[0]);
          assert forall i :: 1 <= i < |keys| ==> IsTopEarner(t, keys[i], r[i]) by {
            forall i | 1 <= i < |keys|
              ensures IsTopEarner(t, keys[i], r[i])
            {
              assert keys[i] == keys[1..][i - 1] && r[i] == rest.value[i - 1];
            }
          }
          assert forall i :: 0 <= i < |keys| ==> HasSalary(t, Department, keys[i], |t|) by {
            forall i | 0 <= i < |keys|
              ensures HasSalary(t, Department, keys[i], |t|)
            {
              if i > 0 { assert keys[i] == keys[1..][i - 1]; }
            }
          }
          Some(r)
  }

  /** The highest-paid row per department, in ascending department order. */
  function HighestPaidPerDepartment(t: seq<Employee>): (r: Option<seq<TopEarner>>)
    ensures r.None? <==>
      exists j :: 0 <= j < |t| && t[j].department.Some? && !HasSalary(t, Department, t[j].department.value, |t|)
    ensures r.Some? ==> |r.value| == |GroupKeys(t, Department)|
  {
    var keys := GroupKeys(t, Department);
    assert (exists i :: 0 <= i < |keys| && !HasSalary(t, Department, keys[i], |t|)) <==>
      exists j :: 0 <= j < |t| && t[j].department.Some? && !HasSalary(t, Department, t[j].department.value, |t|)
    by {
      if exists i :: 0 <= i < |keys| && !HasSalary(t, Department, keys[i], |t|) {
        var i :| 0 <= i < |keys| && !HasSalary(t, Department, keys[i], |t|);
        assert keys[i] in keys;
        var j :| 0 <= j < |t| && InGroup(t[j], Department, keys[i]);
        assert t[j].department.value == keys[i];
      }
      if exists j :: 0 <= j < |t| && t[j].department.Some? && !HasSalary(t, Department, t[j].department.value, |t|) {
        var j :| 0 <= j < |t| && t[j].department.Some? && !HasSalary(t, Department, t[j].department.value, |t|);
        var k := t[j].department.value;
        assert InGroup(t[j], Department, k);
        assert k in keys;
      }
    }
    TopEarners(t, keys)
  }

  /** One row per department, ascending; each is the projection of the first row of that
      department whose salary is the department's largest. */
  lemma HighestPaidRows(t: seq<Employee>)
    ensures var r := HighestPaidPerDepartment(t);
      r.Some? ==>
        && (forall i, j :: 0 <= i < j < |r.value| ==> Less(r.value[i].department, r.value[j].department))
        && (forall k :: (exists i :: 0 <= i < |r.value| && r.value[i].department == k) <==>
                        (exists j :: 0 <= j < |t| && t[j].department == Some(k)))
        && (forall i :: 0 <= i < |r.value| ==> IsTopEarner(t, r.value[i].department, r.value[i]))
  {
    var keys := GroupKeys(t, Department);
    var r := HighestPaidPerDepartment(t);
    if r.Some? {
      forall i | 0 <= i < |keys|
        ensures r.value[i].department == keys[i]
      {
        assert IsTopEarner(t, keys[i], r.value[i]);
        var j :| IsFirstMax(t, Department, keys[i], |t|, j) && r.value[i] == Project(t[j]);
      }
      forall k
        ensures (exists i :: 0 <= i < |r.value| && r.value[i].department == k) <==>
                (exists j :: 0 <= j < |t| && t[j].department == Some(k))
      {
        if exists j :: 0 <= j < |t| && t[j].department == Some(k) {
          var j :| 0 <= j < |t| && t[j].department == Some(k);
          assert InGroup(t[j], Department, k);
          assert k in keys;
          var i :| 0 <= i < |keys| && keys[i] == k;
          assert r.value[i].department == k;
        }
        if exists i :: 0 <= i < |r.value| && r.value[i].department == k {
          var i :| 0 <= i < |r.value| && r.value[i].department == k;
          assert keys[i] in keys;
        }
      }
    }
  }

  /** On a cleaned table where every salary is present, every department has its row. */
  lemma HighestPaidDefined(t: seq<Employee>)
    requires forall i :: 0 <= i < |t| ==> t[i].salary.Some?
    ensures HighestPaidPerDepartment(t).Some?
  {
    var keys := GroupKeys(t, Department);
    forall i | 0 <= i < |keys|
      ensures HasSalary(t, Department, keys[i], |t|)
    {
      assert keys[i] in keys;
      var j :| 0 <= j < |t| && InGroup(t[j], Department, keys[i]);
    }
  }

  /** A department whose every row lacks a salary makes the lookup fail. */
  lemma HighestPaidUndefined(t: seq<Employee>, k: string)
    requires exists j :: 0 <= j < |t| && t[j].department == Some(k)
    requires forall j :: 0 <= j < |t| && t[j].department == Some(k) ==> t[j].salary.None?
    ensures HighestPaidPerDepartment(t).None?
  {
    var j :| 0 <= j < |t| && t[j].department == Some(k);
    assert InGroup(t[j], Department, k);
    var keys := GroupKeys(t, Department);
    assert k in keys;
    var i :| 0 <= i < |keys| && keys[i] == k;
    assert !HasSalary(t, Department, keys[i], |t|);
  }

  // ---------------------------------------------------------------------------
  // Worked examples

  /** Department A with salaries 100 and 200 and department B with 300: A averages 150
      over a total of 300 and two employees, B averages and totals 300 with one. */
  lemma DepartmentSummaryExample(t: seq<Employee>)
    requires |t| == 3
    requires t[0].department == Some("A") && t[0].salary == Some(100.0) && t[0].empId.Some?
    requires t[1].department == Some("A") && t[1].salary == Some(200.0) && t[1].empId.Some?
    requires t[2].department == Some("B") && t[2].salary == Some(300.0) && t[2].empId.Some?
    ensures DepartmentSummary(t) ==
      [DeptSummary("A", Some(150.0), 300.0, 2), DeptSummary("B", Some(300.0), 300.0, 1)]
  {
    ExampleKeys(t);
    ExampleGroupA(t);
    ExampleGroupB(t);
    var keys := GroupKeys(t, Department);
    assert keys[0] == "A" && keys[1] == "B";
    var r := DepartmentSummary(t);
    assert r[0] == DeptRow(t, "A") && r[1] == DeptRow(t, "B");
    assert r == [r[0], r[1]];
  }

  /** The departments of the three-row example, in order. */
  lemma ExampleKeys(t: seq<Employee>)
    requires |t| == 3
    requires t[0].department == Some("A") && t[1].department == Some("A") && t[2].department == Some("B")
    ensures GroupKeys(t, Department) == ["A", "B"]
  {
    var t1, t2 := t[..1], t[..2];
    assert t2[..1] == t1 && t1[..0] == [] && t[..2] == t2;
    assert !Less("B", "A");
    assert GroupKeys(t1, Department) == ["A"];
    assert GroupKeys(t2, Department) == ["A"];
    var a := ["A"];
    assert a[0] == "A" && a[1..] == [];
    assert Insert(a, "B") == ["A", "B"];
  }

  /** Department A of the three-row example: total 300, mean 150, two EmpIDs. */
  lemma ExampleGroupA(t: seq<Employee>)
    requires |t| == 3
    requires t[0].department == Some("A") && t[0].salary == Some(100.0) && t[0].empId.Some?
    requires t[1].department == Some("A") && t[1].salary == Some(200.0) && t[1].empId.Some?
    requires t[2].department == Some("B")
    ensures DeptRow(t, "A") == DeptSummary("A", Some(150.0), 300.0, 2)
  {
    var t1, t2 := t[..1], t[..2];
    var s := [100.0, 200.0];
    assert t2[..1] == t1 && t1[..0] == [] && t[..2] == t2;
    assert GroupSalaries(t, Department, "A") == s by {
      assert GroupSalaries(t1, Department, "A") == [100.0];
      assert GroupSalaries(t2, Department, "A") == [100.0, 200.0];
    }
    assert Sum(s) == 300.0 by {
      assert s[..1] == [100.0] && [100.0][..0] == [];
    }
    assert GroupIdCount(t, Department, "A") == 2 by {
      assert GroupIdCount(t1, Department, "A") == 1;
      assert GroupIdCount(t2, Department, "A") == 2;
    }
  }

  /** Department B of the three-row example: total and mean 300, one EmpID. */
  lemma ExampleGroupB(t: seq<Employee>)
    requires |t| == 3
    requires t[0].department == Some("A") && t[1].department == Some("A")
    requires t[2].department == Some("B") && t[2].salary == Some(300.0) && t[2].empId.Some?
    ensures DeptRow(t, "B") == DeptSummary("B", Some(300.0), 300.0, 1)
  {
    var t1, t2 := t[..1], t[..2];
    assert t2[..1] == t1 && t1[..0] == [] && t[..2] == t2;
    assert GroupSalaries(t1, Department, "B") == [];
    assert GroupSalaries(t2, Department, "B") == [];
    assert GroupSalaries(t, Department, "B") == [300.0];
    var s := [300.0];
    assert s[..0] == [];
    assert Sum(s) == 300.0;
    assert GroupIdCount(t1, Department, "B") == 0;
    assert GroupIdCount(t2, Department, "B") == 0;
    assert GroupIdCount(t, Department, "B") == 1;
  }

  /** Two rows of department A both paid 500: the first of them is selected. */
  lemma TieBreakExample(t: seq<Employee>)
    requires |t| == 2
    requires t[0].department == Some("A") && t[0].salary == Some(500.0)
    requires t[1].department == Some("A") && t[1].salary == Some(500.0)
    ensures HighestPaidPerDepartment(t) == Some([Project(t[0])])
  {
    var t1 := t[..1];
    assert GroupKeys(t, Department) == ["A"] by {
      assert t1[..0] == [];
      assert GroupKeys(t1, Department) == ["A"];
    }
    assert FirstMaxIndex(t, Department, "A", |t|) == Some(0) by {
      assert FirstMaxIndex(t, Department, "A", 0) == None;
      assert FirstMaxIndex(t, Department, "A", 1) == Some(0);
    }
    TopEarnersSingle(t, "A", 0);
  }

  /** With a single key, the result is the projection of that key's first maximum. */
  lemma TopEarnersSingle(t: seq<Employee>, k: string, j: nat)
    requires j < |t| && FirstMaxIndex(t, Department, k, |t|) == Some(j)
    ensures t[j].department.Some? && t[j].salary.Some?
    ensures TopEarners(t, [k]) == Some([Project(t[j])])
  {
    var keys := [k];
    assert keys[0] == k && keys[1..] == [];
    assert TopEarners(t, keys[1..]) == Some([]);
    assert [Project(t[j])] + [] == [Project(t[j])];
    assert TopEarners(t, keys) == Some([Project(t[j])] + []);
  }
}
