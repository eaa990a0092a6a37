/** The cleaning stages of the analysis script: each one rewrites the employee table
    in place (or rebinds it), in the order the script runs them. */
module Cleaning {
  import opened Records
  import opened Statistics

  // ---------------------------------------------------------------------------
  // Deduplication on EmpID, first occurrence kept

  /** The EmpIDs occurring in a table (a missing EmpID counts as one more value,
      equal only to itself, as pandas compares missing keys in drop_duplicates). */
  function IdsOf(s: seq<Employee>): set<Option<string>>
  {
    if s == [] then {} else IdsOf(s[..|s| - 1]) + {s[|s| - 1].empId}
  }

  lemma {:induction false} IdsOfMembers(s: seq<Employee>)
    ensures forall x :: x in IdsOf(s) <==> exists j :: 0 <= j < |s| && s[j].empId == x
  {
    if s != [] {
      var prev := s[..|s| - 1];
      IdsOfMembers(prev);
      assert forall j :: 0 <= j < |prev| ==> prev[j] == s[j];
    }
  }

  /** Row i is the first row of t carrying its EmpID. */
  predicate IsFirstOccurrence(t: seq<Employee>, i: int)
    requires 0 <= i < |t|
  {
    t[i].empId !in IdsOf(t[..i])
  }

  predicate UniqueIds(t: seq<Employee>)
  {
    forall a, b :: 0 <= a < b < |t| ==> t[a].empId != t[b].empId
  }

  lemma IdsOfAppend(s: seq<Employee>, e: Employee)
    ensures IdsOf(s + [e]) == IdsOf(s) + {e.empId}
  {
    assert (s + [e])[..|s|] == s;
  }

  lemma UniqueAppend(s: seq<Employee>, e: Employee)
    requires UniqueIds(s) && e.empId !in IdsOf(s)
    ensures UniqueIds(s + [e])
  {
    IdsOfMembers(s);
  }

  /** The rows of t[..n] that are the first of their EmpID, in table order: the table
      filtered by IsFirstOccurrence, hence a subsequence of it. The kept rows carry
      exactly the EmpIDs of t[..n], each once. */
  function KeepFirst(t: seq<Employee>, n: nat): (r: seq<Employee>)
    requires n <= |t|
    ensures |r| <= n
    ensures IdsOf(r) == IdsOf(t[..n])
    ensures UniqueIds(r)
  {
    if n == 0 then []
    else
      var prev := KeepFirst(t, n - 1);
      assert t[..n] == t[..n - 1] + [t[n - 1]];
      IdsOfAppend(t[..n - 1], t[n - 1]);
      if IsFirstOccurrence(t, n - 1) then
        UniqueAppend(prev, t[n - 1]);
        IdsOfAppend(prev, t[n - 1]);
        prev + [t[n - 1]]
      else
        prev
  }

  /** The positions of t[..n] that are first occurrences, ascending: the rows
      drop_duplicates keeps, by their original index. */
  function KeptIndices(t: seq<Employee>, n: nat): (r: seq<nat>)
    requires n <= |t|
    ensures forall a :: 0 <= a < |r| ==> r[a] < n
    ensures forall a, b :: 0 <= a < b < |r| ==> r[a] < r[b]
  {
    if n == 0 then []
    else
      var prev := KeptIndices(t, n - 1);
      if IsFirstOccurrence(t, n - 1) then prev + [n - 1] else prev
  }

  /** The kept positions are exactly the first occurrences. */
  lemma {:induction false} KeptIndicesMembers(t: seq<Employee>, n: nat)
    requires n <= |t|
    ensures forall i :: i in KeptIndices(t, n) <==> 0 <= i < n && IsFirstOccurrence(t, i)
  {
    if n > 0 {
      KeptIndicesMembers(t, n - 1);
    }
  }

  /** The deduplicated table is exactly the input picked at the first-occurrence
      positions, in table order: a subsequence that drops only repeated EmpIDs. */
  lemma {:induction false} KeepFirstIsSubsequence(t: seq<Employee>, n: nat)
    requires n <= |t|
    ensures |KeepFirst(t, n)| == |KeptIndices(t, n)|
    ensures forall a :: 0 <= a < |KeepFirst(t, n)| ==> KeepFirst(t, n)[a] == t[KeptIndices(t, n)[a]]
  {
    if n > 0 {
      KeepFirstIsSubsequence(t, n - 1);
      if IsFirstOccurrence(t, n - 1) {
        assert KeepFirst(t, n) == KeepFirst(t, n - 1) + [t[n - 1]];
        assert KeptIndices(t, n) == KeptIndices(t, n - 1) + [n - 1];
        PickAppend(t, KeepFirst(t, n - 1), KeptIndices(t, n - 1), n - 1);
      }
    }
  }

  /** Each kept row is the first row of the input carrying its EmpID. */
  lemma KeepFirstKeepsFirst(t: seq<Employee>, n: nat)
    requires n <= |t|
    ensures forall a :: 0 <= a < |KeepFirst(t, n)| ==>
      exists i :: 0 <= i < n && IsFirstOccurrence(t, i) && KeepFirst(t, n)[a] == t[i]
  {
    KeptIndicesMembers(t, n);
    KeepFirstIsSubsequence(t, n);
    var idx := KeptIndices(t, n);
    forall a | 0 <= a < |KeepFirst(t, n)|
      ensures exists i :: 0 <= i < n && IsFirstOccurrence(t, i) && KeepFirst(t, n)[a] == t[i]
    {
      assert idx[a] in idx;
    }
  }

  /** Extending a pick of t by one more position extends the picked rows by that row. */
  lemma PickAppend(t: seq<Employee>, kept: seq<Employee>, idx: seq<nat>, j: nat)
    requires |kept| == |idx| && j < |t|
    requires forall a :: 0 <= a < |kept| ==> idx[a] < |t| && kept[a] == t[idx[a]]
    ensures forall a :: 0 <= a < |kept| + 1 ==> (idx + [j])[a] < |t| && (kept + [t[j]])[a] == t[(idx + [j])[a]]
  {
  }

  lemma IdsOfHas(t: seq<Employee>, i: int)
    requires 0 <= i < |t|
    ensures t[i].empId in IdsOf(t)
  {
    IdsOfMembers(t);
  }

  lemma IdsOfWitness(t: seq<Employee>, x: Option<string>) returns (i: int)
    requires x in IdsOf(t)
    ensures 0 <= i < |t| && t[i].empId == x
  {
    IdsOfMembers(t);
    i :| 0 <= i < |t| && t[i].empId == x;
  }

  /** Every EmpID of the input is carried by some kept row. */
  lemma KeepFirstKeepsEveryId(t: seq<Employee>, i: int)
    requires 0 <= i < |t|
    ensures exists a :: 0 <= a < |KeepFirst(t, |t|)| && KeepFirst(t, |t|)[a].empId == t[i].empId
  {
    var r := KeepFirst(t, |t|);
    assert t[..|t|] == t;
    IdsOfHas(t, i);
    var a := IdsOfWitness(r, t[i].empId);
  }

  /** Deduplicating a table whose EmpIDs are already distinct changes nothing, so
      deduplication is idempotent. */
  lemma {:induction false} KeepFirstOfUnique(t: seq<Employee>, n: nat)
    requires UniqueIds(t) && n <= |t|
    ensures KeepFirst(t, n) == t[..n]
  {
    if n > 0 {
      KeepFirstOfUnique(t, n - 1);
      IdsOfMembers(t[..n - 1]);
      assert IsFirstOccurrence(t, n - 1);
      assert t[..n] == t[..n - 1] + [t[n - 1]];
    }
  }

  // ---------------------------------------------------------------------------
  // Salary imputation

  /** The salaries that parsed, in table order (what Series.median() looks at). */
  function ParsedSalaries(t: seq<Employee>): (r: seq<real>)
    ensures |r| <= |t|
    ensures forall x :: x in r <==> exists i :: 0 <= i < |t| && t[i].salary == Some(x)
  {
    if t == [] then []
    else
      var prev := t[..|t| - 1];
      assert forall i :: 0 <= i < |prev| ==> prev[i] == t[i];
      ParsedSalaries(prev) + (match t[|t| - 1].salary case Some(x) => [x] case None => [])
  }

  /** The positions of the rows whose salary parsed, in table order. */
  function ParsedRows(t: seq<Employee>): (r: seq<nat>)
    ensures forall a :: 0 <= a < |r| ==> r[a] < |t| && t[r[a]].salary.Some?
    ensures forall a, b :: 0 <= a < b < |r| ==> r[a] < r[b]
  {
    if t == [] then []
    else
      var prev := t[..|t| - 1];
      assert forall i :: 0 <= i < |prev| ==> prev[i] == t[i];
      ParsedRows(prev) + (if t[|t| - 1].salary.Some? then [|t| - 1] else [])
  }

  /** Every row whose salary parsed is listed. */
  lemma {:induction false} ParsedRowsMembers(t: seq<Employee>)
    ensures forall i :: i in ParsedRows(t) <==> 0 <= i < |t| && t[i].salary.Some?
  {
    if t != [] {
      var prev := t[..|t| - 1];
      ParsedRowsMembers(prev);
      assert forall i :: 0 <= i < |prev| ==> prev[i] == t[i];
    }
  }

  /** ParsedSalaries holds one entry per row whose salary parsed, in table order, so
      the median sees each salary as often as it occurs. */
  lemma {:induction false} ParsedSalariesAtRows(t: seq<Employee>)
    ensures |ParsedSalaries(t)| == |ParsedRows(t)|
    ensures forall a :: 0 <= a < |ParsedRows(t)| ==> ParsedSalaries(t)[a] == t[ParsedRows(t)[a]].salary.value
  {
    if t != [] {
      var prev, n := t[..|t| - 1], |t| - 1;
      ParsedSalariesAtRows(prev);
      var gp, rp := ParsedSalaries(prev), ParsedRows(prev);
      SalariesAtPrefix(t, n, gp, rp);
      if t[n].salary.Some? {
        ParsedRowsExtend(t);
        SalariesAtAppend(t, gp, rp, n);
      } else {
        ParsedRowsSkip(t);
      }
    }
  }

  /** A last row that has a salary adds its salary and its position. */
  lemma ParsedRowsExtend(t: seq<Employee>)
    requires t != [] && t[|t| - 1].salary.Some?
    ensures ParsedSalaries(t) == ParsedSalaries(t[..|t| - 1]) + [t[|t| - 1].salary.value]
    ensures ParsedRows(t) == ParsedRows(t[..|t| - 1]) + [|t| - 1]
  {
  }

  /** Any other last row adds nothing. */
  lemma ParsedRowsSkip(t: seq<Employee>)
    requires t != [] && !(t[|t| - 1].salary.Some?)
    ensures ParsedSalaries(t) == ParsedSalaries(t[..|t| - 1])
    ensures ParsedRows(t) == ParsedRows(t[..|t| - 1])
  {
  }

  /** Salaries 10, 20, 30 and one that did not parse give a fill value of 20. */
  lemma FillValueExample(t: seq<Employee>)
    requires |t| == 4
    requires t[0].salary == Some(10.0) && t[1].salary == Some(20.0)
    requires t[2].salary == Some(30.0) && t[3].salary == None
    ensures Median(ParsedSalaries(t)) == Some(20.0)
  {
    assert t[..3][..2] == t[..2] && t[..2][..1] == t[..1] && t[..1][..0] == [];
    assert ParsedSalaries(t[..1]) == [10.0];
    assert ParsedSalaries(t[..2]) == [10.0, 20.0];
    assert ParsedSalaries(t[..3]) == [10.0, 20.0, 30.0];
    assert ParsedSalaries(t) == [10.0, 20.0, 30.0];
    var s := [10.0, 20.0, 30.0];
    assert Sorted(s);
    MedianOfArranged(ParsedSalaries(t), s);
  }

  // ---------------------------------------------------------------------------
  // Categorical standardisation

  /** dept_map: every department name is its own canonical spelling. */
  const DeptMap: map<string, string> := map[
    "HR" := "HR",
    "Finance" := "Finance",
    "IT" := "IT",
    "Sales" := "Sales"]

  /** The canonical job titles of job_map, each mapped to itself. */
  const CanonicalTitles: set<string> := {
    "Software Engineer", "Data Scientist", "Accountant", "Financial Analyst",
    "Senior Accountant", "System Administrator", "Sales Executive", "Sales Manager",
    "HR Manager", "HR Executive", "Recruiter"}

  /** job_map: the canonical titles, plus the one abbreviation "Software Engg". */
  const JobMap: map<string, string> :=
    (map t | t in CanonicalTitles :: t)["Software Engg" := "Software Engineer"]

  /** JobMap is the script's twelve-entry job_map, entry for entry. */
  lemma JobMapAsWritten()
    ensures JobMap == map[
      "Software Engg" := "Software Engineer",
      "Software Engineer" := "Software Engineer",
      "Data Scientist" := "Data Scientist",
      "Accountant" := "Accountant",
      "Financial Analyst" := "Financial Analyst",
      "Senior Accountant" := "Senior Accountant",
      "System Administrator" := "System Administrator",
      "Sales Executive" := "Sales Executive",
      "Sales Manager" := "Sales Manager",
      "HR Manager" := "HR Manager",
      "HR Executive" := "HR Executive",
      "Recruiter" := "Recruiter"]
  {
  }

  /** Series.map(dict) on one cell: the mapped value for a key, missing otherwise. */
  function MapCell(m: map<string, string>, v: Option<string>): (r: Option<string>)
    ensures r.Some? <==> v.Some? && v.value in m
    ensures r.Some? ==> r.value in m.Values
  {
    if v.Some? && v.value in m then Some(m[v.value]) else None
  }

  /** `col.map(m).fillna(col)` on one cell: a key is replaced by its mapped value,
      anything else, including a missing cell, passes through unchanged. */
  function Standardize(m: map<string, string>, v: Option<string>): (r: Option<string>)
    ensures v.Some? && v.value in m ==> r == Some(m[v.value])
    ensures v.None? || v.value !in m ==> r == v
    ensures r.Some? <==> v.Some?
  {
    OrElse(MapCell(m, v), v)
  }

  /** Every target of m is itself a key that maps to itself. */
  ghost predicate Canonical(m: map<string, string>)
  {
    forall k :: k in m ==> m[k] in m && m[m[k]] == m[k]
  }

  lemma DeptMapIsCanonical()
    ensures Canonical(DeptMap)
  {
  }

  lemma JobMapIsCanonical()
    ensures Canonical(JobMap)
  {
    assert "Software Engg" !in CanonicalTitles;
  }

  /** Standardising twice is standardising once. */
  lemma StandardizeIdempotent(m: map<string, string>, v: Option<string>)
    requires Canonical(m)
    ensures Standardize(m, Standardize(m, v)) == Standardize(m, v)
  {
  }

  /** The abbreviation is rewritten; the title-fill placeholder is not a key and passes. */
  lemma JobMapExamples()
    ensures Standardize(JobMap, Some("Software Engg")) == Some("Software Engineer")
    ensures Standardize(JobMap, Some("Unknown")) == Some("Unknown")
    ensures Standardize(DeptMap, None) == None
  {
    assert "Unknown" !in JobMap;
  }

  // ---------------------------------------------------------------------------
  // Tenure

  /** YearsOfService in tenths of a year: the whole days from the joining day to the
      reference day, divided by 365 and rounded to one decimal (the nearest tenth),
      missing when the joining date did not parse. */
  function YearsOfService(joinDay: Option<int>, refDay: int): (r: Option<int>)
    ensures r.Some? <==> joinDay.Some?
    ensures r.Some? ==> -365 < 730 * r.value - 20 * (refDay - joinDay.value) < 365
    ensures r.Some? && joinDay.value <= refDay ==> r.value >= 0
  {
    match joinDay
    case None => None
    case Some(d) =>
      var q := (20 * (refDay - d) + 365) / 730;
      NearestTenth(refDay - d);
      Some(q)
  }

  /** (20 d + 365) / 730 is the nearest tenth of d / 365; no value lies exactly halfway,
      since 4 d = 73 (2 q - 1) has no solution. */
  lemma NearestTenth(days: int)
    ensures -365 < 730 * ((20 * days + 365) / 730) - 20 * days < 365
  {
    var n := 20 * days + 365;
    var q := n / 730;
    var rem := n % 730;
    assert n == 730 * q + rem && 0 <= rem < 730;
    if rem == 0 {
      assert false;
    }
  }

  /** Four years and a leap day (1461 days) come out as 4.0 years. */
  lemma TenureExample()
    ensures YearsOfService(Some(0), 1461) == Some(40)
  {
  }

  // ---------------------------------------------------------------------------
  // The table, rewritten stage by stage

  /** The data frame `df` of the script: a table of employee rows that each stage
      replaces or updates column by column. */
  class Frame {
    var rows: seq<Employee>

    constructor (loaded: seq<Employee>)
      ensures rows == loaded
    {
      rows := loaded;
    }

    /** df = df.drop_duplicates(subset=['EmpID']) */
    method DropDuplicates()
      modifies this
      ensures rows == KeepFirst(old(rows), |old(rows)|)
    {
      var t := rows;
      var kept: seq<Employee> := [];
      var seen: set<Option<string>> := {};
      var i := 0;
      while i < |t|
        invariant 0 <= i <= |t|
        invariant kept == KeepFirst(t, i)
        invariant seen == IdsOf(t[..i])
      {
        assert t[..i + 1] == t[..i] + [t[i]];
        if t[i].empId !in seen {
          kept := kept + [t[i]];
          seen := seen + {t[i].empId};
        }
        i := i + 1;
      }
      rows := kept;
    }

    /** df['Salary'].fillna(df['Salary'].median(), inplace=True): a salary that parsed is
        kept, a missing one takes the median of the parsed ones; with no parsed salary
        the median is missing and so are the salaries. */
    method FillMissingSalaries()
      modifies this
      ensures |rows| == |old(rows)|
      ensures forall i :: 0 <= i < |rows| && old(rows[i]).salary.Some? ==> rows[i] == old(rows[i])
      ensures forall i :: 0 <= i < |rows| && old(rows[i]).salary.None? ==>
        rows[i] == old(rows[i]).(salary := Median(ParsedSalaries(old(rows))))
      ensures ParsedSalaries(old(rows)) != [] ==> forall i :: 0 <= i < |rows| ==> rows[i].salary.Some?
    {
      var t := rows;
      var fill := Median(ParsedSalaries(t));
      var i := 0;
      while i < |t|
        invariant 0 <= i <= |t| && |rows| == |t|
        invariant forall j :: 0 <= j < i ==> rows[j] == t[j].(salary := OrElse(t[j].salary, fill))
        invariant forall j :: i <= j < |t| ==> rows[j] == t[j]
      {
        if rows[i].salary.None? {
          rows := rows[i := rows[i].(salary := fill)];
        }
        i := i + 1;
      }
    }

    /** df['JobTitle'].fillna('Unknown', inplace=True) */
    method FillMissingJobTitles()
      modifies this
      ensures |rows| == |old(rows)|
      ensures forall i :: 0 <= i < |rows| && old(rows[i]).jobTitle.Some? ==> rows[i] == old(rows[i])
      ensures forall i :: 0 <= i < |rows| && old(rows[i]).jobTitle.None? ==>
        rows[i] == old(rows[i]).(jobTitle := Some("Unknown"))
    {
      var t := rows;
      var i := 0;
      while i < |t|
        invariant 0 <= i <= |t| && |rows| == |t|
        invariant forall j :: 0 <= j < i ==> rows[j] == t[j].(jobTitle := OrElse(t[j].jobTitle, Some("Unknown")))
        invariant forall j :: i <= j < |t| ==> rows[j] == t[j]
      {
        if rows[i].jobTitle.None? {
          rows := rows[i := rows[i].(jobTitle := Some("Unknown"))];
        }
        i := i + 1;
      }
    }

    /** df['Department'] = df['Department'].map(dept_map).fillna(df['Department']) */
    method StandardizeDepartments()
      modifies this
      ensures |rows| == |old(rows)|
      ensures forall i :: 0 <= i < |rows| ==>
        rows[i] == old(rows[i]).(department := Standardize(DeptMap, old(rows[i]).department))
    {
      var t := rows;
      var i := 0;
      while i < |t|
        invariant 0 <= i <= |t| && |rows| == |t|
        invariant forall j :: 0 <= j < i ==> rows[j] == t[j].(department := Standardize(DeptMap, t[j].department))
        invariant forall j :: i <= j < |t| ==> rows[j] == t[j]
      {
        rows := rows[i := rows[i].(department := Standardize(DeptMap, rows[i].department))];
        i := i + 1;
      }
    }

    /** df['JobTitle'] = df['JobTitle'].map(job_map).fillna(df['JobTitle']) */
    method StandardizeJobTitles()
      modifies this
      ensures |rows| == |old(rows)|
      ensures forall i :: 0 <= i < |rows| ==>
        rows[i] == old(rows[i]).(jobTitle := Standardize(JobMap, old(rows[i]).jobTitle))
    {
      var t := rows;
      var i := 0;
      while i < |t|
        invariant 0 <= i <= |t| && |rows| == |t|
        invariant forall j :: 0 <= j < i ==> rows[j] == t[j].(jobTitle := Standardize(JobMap, t[j].jobTitle))
        invariant forall j :: i <= j < |t| ==> rows[j] == t[j]
      {
        rows := rows[i := rows[i].(jobTitle := Standardize(JobMap, rows[i].jobTitle))];
        i := i + 1;
      }
    }

    /** df['YearsOfService'] = ((today - df['JoiningDate']).dt.days / 365).round(1),
        with today's date passed in as a day number. No other column changes. */
    method AddYearsOfService(refDay: int)
      modifies this
      ensures |rows| == |old(rows)|
      ensures forall i :: 0 <= i < |rows| ==>
        rows[i] == old(rows[i]).(yearsOfService := YearsOfService(old(rows[i]).joiningDay, refDay))
    {
      var t := rows;
      var i := 0;
      while i < |t|
        invariant 0 <= i <= |t| && |rows| == |t|
        invariant forall j :: 0 <= j < i ==> rows[j] == t[j].(yearsOfService := YearsOfService(t[j].joiningDay, refDay))
        invariant forall j :: i <= j < |t| ==> rows[j] == t[j]
      {
        rows := rows[i := rows[i].(yearsOfService := YearsOfService(rows[i].joiningDay, refDay))];
        i := i + 1;
      }
    }
  }

  /** One deduplicated row after all the per-row stages, given the salary fill value. */
  /** Cleaning one row keeps its EmpID, name and joining day, gives it a job title,
      gives it a salary when it had one or the fill value exists, and gives it a tenure
      exactly when its joining date parsed. */
  function CleanRow(e: Employee, fill: Option<real>, refDay: int): (c: Employee)
    ensures c.empId == e.empId && c.name == e.name && c.joiningDay == e.joiningDay
    ensures c.jobTitle.Some?
    ensures c.salary.Some? <==> e.salary.Some? || fill.Some?
    ensures c.yearsOfService.Some? <==> e.joiningDay.Some?
  {
    e.(salary := OrElse(e.salary, fill),
       department := Standardize(DeptMap, e.department),
       jobTitle := Standardize(JobMap, OrElse(e.jobTitle, Some("Unknown"))),
       yearsOfService := YearsOfService(e.joiningDay, refDay))
  }

  /** The table the cleaning stages leave behind: row a is the a-th first occurrence of
      an EmpID in the loaded rows, cleaned with the median of the deduplicated table's
      parsed salaries as fill value. */
  function CleanedTable(loaded: seq<Employee>, refDay: int): (r: seq<Employee>)
    ensures var idx := KeptIndices(loaded, |loaded|);
      && |r| == |idx|
      && forall a :: 0 <= a < |r| ==>
           r[a] == CleanRow(loaded[idx[a]], Median(ParsedSalaries(KeepFirst(loaded, |loaded|))), refDay)
  {
    var d := KeepFirst(loaded, |loaded|);
    var fill := Median(ParsedSalaries(d));
    KeepFirstIsSubsequence(loaded, |loaded|);
    seq(|d|, i requires 0 <= i < |d| => CleanRow(d[i], fill, refDay))
  }

  /** The cleaned table has distinct EmpIDs, every EmpID of the input, and no more rows. */
  lemma CleanedTableIds(loaded: seq<Employee>, refDay: int)
    ensures var c := CleanedTable(loaded, refDay);
      && |c| <= |loaded|
      && UniqueIds(c)
      && (forall i :: 0 <= i < |loaded| ==> exists a :: 0 <= a < |c| && c[a].empId == loaded[i].empId)
  {
    var d := KeepFirst(loaded, |loaded|);
    var c := CleanedTable(loaded, refDay);
    forall a | 0 <= a < |c|
      ensures c[a].empId == d[a].empId
    {
    }
    forall i | 0 <= i < |loaded|
      ensures exists a :: 0 <= a < |c| && c[a].empId == loaded[i].empId
    {
      KeepFirstKeepsEveryId(loaded, i);
      var a :| 0 <= a < |d| && d[a].empId == loaded[i].empId;
      assert c[a].empId == loaded[i].empId;
    }
  }

  /** No job title is missing after cleaning, no salary either as soon as one salary of
      a kept row parsed, and tenure is present exactly where the joining date parsed. */
  lemma CleanedTableCells(loaded: seq<Employee>, refDay: int)
    ensures var c := CleanedTable(loaded, refDay);
      && (forall a :: 0 <= a < |c| ==> c[a].jobTitle.Some?)
      && (ParsedSalaries(KeepFirst(loaded, |loaded|)) != [] ==> forall a :: 0 <= a < |c| ==> c[a].salary.Some?)
      && (forall a :: 0 <= a < |c| ==> (c[a].yearsOfService.Some? <==> c[a].joiningDay.Some?))
  {
  }

  /** If some row that survives deduplication has a parsed salary, the median fill
      leaves no salary of the cleaned table missing. */
  lemma CleanedSalariesPresent(loaded: seq<Employee>, refDay: int, i: int)
    requires 0 <= i < |loaded| && IsFirstOccurrence(loaded, i) && loaded[i].salary.Some?
    ensures forall a :: 0 <= a < |CleanedTable(loaded, refDay)| ==> CleanedTable(loaded, refDay)[a].salary.Some?
  {
    var d := KeepFirst(loaded, |loaded|);
    KeptIndicesMembers(loaded, |loaded|);
    KeepFirstIsSubsequence(loaded, |loaded|);
    var idx := KeptIndices(loaded, |loaded|);
    assert i in idx;
    var a :| 0 <= a < |idx| && idx[a] == i;
    assert d[a] == loaded[i];
    assert loaded[i].salary.value in ParsedSalaries(d);
    CleanedTableCells(loaded, refDay);
  }

  /** The cleaning part of the script, stage after stage on one frame. */
  method Clean(loaded: seq<Employee>, refDay: int) returns (cleaned: seq<Employee>)
    ensures cleaned == CleanedTable(loaded, refDay)
  {
    var df := new Frame(loaded);
    df.DropDuplicates();
    ghost var d := df.rows;
    ghost var fill := Median(ParsedSalaries(d));
    df.FillMissingSalaries();
    ghost var s1 := df.rows;
    df.FillMissingJobTitles();
    ghost var s2 := df.rows;
    df.StandardizeDepartments();
    ghost var s3 := df.rows;
    df.StandardizeJobTitles();
    ghost var s4 := df.rows;
    df.AddYearsOfService(refDay);
    cleaned := df.rows;
    assert |cleaned| == |d| == |CleanedTable(loaded, refDay)|;
    forall i | 0 <= i < |cleaned|
      ensures cleaned[i] == CleanedTable(loaded, refDay)[i]
    {
      assert s1[i] == d[i].(salary := OrElse(d[i].salary, fill));
      assert s2[i] == s1[i].(jobTitle := OrElse(s1[i].jobTitle, Some("Unknown")));
      assert s3[i] == s2[i].(department := Standardize(DeptMap, s2[i].department));
      assert s4[i] == s3[i].(jobTitle := Standardize(JobMap, s3[i].jobTitle));
      assert cleaned[i] == s4[i].(yearsOfService := YearsOfService(s4[i].joiningDay, refDay));
    }
  }
}
