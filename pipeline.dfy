/** The whole script after loading: the cleaning stages, then the three summaries
    computed from the cleaned table. */
module Pipeline {
  import opened Records
  import opened Cleaning
  import opened Aggregation

  /** The three tables the script exports. highestPaid is None where the script's
      df.loc lookup fails (a department none of whose salaries is present). */
  datatype Report = Report(
    departments: seq<DeptSummary>,
    jobTitles: seq<JobSummary>,
    highestPaid: Option<seq<TopEarner>>)

  /** The summaries of a table that has already been cleaned. The highest-paid table, when
      the lookup succeeds, has one row per row of the department summary, and the lookup
      succeeds once no salary is missing. */
  function Summarize(cleaned: seq<Employee>): (r: Report)
    ensures r.highestPaid.Some? ==> |r.highestPaid.value| == |r.departments|
    ensures (forall i :: 0 <= i < |cleaned| ==> cleaned[i].salary.Some?) ==> r.highestPaid.Some?
  {
    assert (forall i :: 0 <= i < |cleaned| ==> cleaned[i].salary.Some?) ==>
      HighestPaidPerDepartment(cleaned).Some?
    by {
      if forall i :: 0 <= i < |cleaned| ==> cleaned[i].salary.Some? {
        HighestPaidDefined(cleaned);
      }
    }
    Report(DepartmentSummary(cleaned), JobTitleSummary(cleaned), HighestPaidPerDepartment(cleaned))
  }

  /** Runs the script on the loaded rows, with refDay standing for today's date. */
  method Analyse(loaded: seq<Employee>, refDay: int) returns (report: Report)
    ensures report == Summarize(CleanedTable(loaded, refDay))
  {
    var cleaned := Clean(loaded, refDay);
    var departments := DepartmentSummary(cleaned);
    var jobTitles := JobTitleSummary(cleaned);
    var highestPaid := HighestPaidPerDepartment(cleaned);
    report := Report(departments, jobTitles, highestPaid);
  }

  /** Once a row that survives deduplication has a parsed salary, the median fill
      leaves no salary missing, so the highest-paid lookup succeeds for every
      department. */
  lemma HighestPaidAfterCleaning(loaded: seq<Employee>, refDay: int, i: int)
    requires 0 <= i < |loaded| && IsFirstOccurrence(loaded, i) && loaded[i].salary.Some?
    ensures Summarize(CleanedTable(loaded, refDay)).highestPaid.Some?
  {
    CleanedSalariesPresent(loaded, refDay, i);
    HighestPaidDefined(CleanedTable(loaded, refDay));
  }

  /** Every cleaned row has a job title (possibly "Unknown"), so every cleaned row
      falls in some row of the job-title summary. */
  lemma JobSummaryCoversCleanedRows(loaded: seq<Employee>, refDay: int, a: int)
    requires 0 <= a < |CleanedTable(loaded, refDay)|
    ensures var c := CleanedTable(loaded, refDay);
      var jobs := Summarize(c).jobTitles;
      c[a].jobTitle.Some? && exists i :: 0 <= i < |jobs| && jobs[i].jobTitle == c[a].jobTitle.value
  {
    var c := CleanedTable(loaded, refDay);
    CleanedTableCells(loaded, refDay);
    JobTitleSummaryRows(c);
    assert c[a].jobTitle == Some(c[a].jobTitle.value);
  }
}
