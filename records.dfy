/** The employee table that the analysis script loads from its input file. */
module Records {

  /** A cell that may be missing (pandas NaN / NaT). */
  datatype Option<T> = None | Some(value: T)

  /** Series.fillna(fill) on one cell: a present value stays, a missing one takes `fill`
      (which may itself be missing, in which case the cell stays missing). */
  function OrElse<T>(v: Option<T>, fill: Option<T>): Option<T>
  {
    if v.Some? then v else fill
  }

  /** One row of the employee table.
      `salary` is the Salary cell after numeric coercion (a value that did not parse is None);
      `joiningDay` is the JoiningDate cell after date coercion, as a day number;
      `yearsOfService` is the derived column in tenths of a year (None until it is computed,
      and None for a row whose joining date did not parse). */
  datatype Employee = Employee(
    empId: Option<string>,
    name: string,
    department: Option<string>,
    jobTitle: Option<string>,
    salary: Option<real>,
    joiningDay: Option<int>,
    yearsOfService: Option<int>)

  /** The salaries s read at positions idx of the prefix t[..n] are the salaries at the
      same positions of t. */
  lemma SalariesAtPrefix(t: seq<Employee>, n: nat, s: seq<real>, idx: seq<nat>)
    requires n <= |t| && |s| == |idx|
    requires forall a :: 0 <= a < |idx| ==>
      idx[a] < n && t[..n][idx[a]].salary.Some? && s[a] == t[..n][idx[a]].salary.value
    ensures forall a :: 0 <= a < |idx| ==>
      idx[a] < n && t[idx[a]].salary.Some? && s[a] == t[idx[a]].salary.value
  {
  }

  /** Reading one more position j extends the salaries read by the salary of row j. */
  lemma SalariesAtAppend(t: seq<Employee>, s: seq<real>, idx: seq<nat>, j: nat)
    requires |s| == |idx| && j < |t| && t[j].salary.Some?
    requires forall a :: 0 <= a < |idx| ==>
      idx[a] < |t| && t[idx[a]].salary.Some? && s[a] == t[idx[a]].salary.value
    ensures forall a :: 0 <= a < |idx| + 1 ==>
      t[(idx + [j])[a]].salary.Some? && (s + [t[j].salary.value])[a] == t[(idx + [j])[a]].salary.value
  {
  }
}
