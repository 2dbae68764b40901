/**
  `parse_neuroscore` (`parsers/clinical.py`): read the variables of one exam
  of a clinical Neuroscore workbook at the cells the variable key gives,
  blank the garbage values, add one presence flag per test, and pivot the
  (variable, value) list into one record.
*/
module Clinical {
  import opened Wrappers
  import opened PyStr
  import opened Sheet

  /** One row of the variable key: the template version it belongs to, its
      worksheet (None when unassigned), the cell of exam 0 and its redcap
      variable. */
  datatype KeyRow = KeyRow(version: string, worksheet: Option<string>, row: int, column: int, redcap: string)

  /** One row of the test table: a test and one of its redcap variables. */
  datatype TestRow = TestRow(test: string, redcap: string)

  type Workbook = map<string, Worksheet>

  datatype ClinicalError =
    | NoVersion                 // the version detector found no version
    | UnassignedWorksheet       // a key row of the version has no worksheet
    | MissingSheet(name: string) // `wb[name]` for a sheet the workbook lacks (KeyError)
    | BadCell(row: int, column: int) // a cell index below 1 (openpyxl's ValueError)
    | NoExamDate                // the date cell holds no date (`strftime` fails)
    | DuplicateVariable         // `pivot` on a variable that occurs twice (ValueError)

  /** Exam `exam` (zero-based) lies `4*exam` columns right of exam 0. */
  function ColumnShift(exam: int): int {
    exam * 4
  }

  const DateCol := 5

  /** The key rows of `version`, each moved `colAdj` columns right. */
  function Selected(keys: seq<KeyRow>, version: string, colAdj: int): seq<KeyRow> {
    if keys == [] then []
    else
      var k := keys[|keys| - 1];
      Selected(keys[..|keys| - 1], version, colAdj)
      + (if k.version == version then [k.(column := k.column + colAdj)] else [])
  }

  /** The selected rows are the key rows of the version, in key order, each
      with its column shifted and nothing else changed. */
  lemma {:induction false} SelectedSpec(keys: seq<KeyRow>, version: string, colAdj: int)
    ensures forall r :: r in Selected(keys, version, colAdj)
                        <==> exists k | k in keys :: k.version == version && r == k.(column := k.column + colAdj)
    decreases |keys|
  {
    if keys != [] {
      var front := keys[..|keys| - 1];
      SelectedSpec(front, version, colAdj);
      assert keys == front + [keys[|keys| - 1]];
    }
  }

  /** Selection goes key row by key row: the rows selected from `keys +
      more` are those of `keys` followed by those of `more`, so key order
      and repeated key rows are kept. */
  lemma {:induction false} SelectedAppend(keys: seq<KeyRow>, more: seq<KeyRow>, version: string, colAdj: int)
    ensures Selected(keys + more, version, colAdj) == Selected(keys, version, colAdj) + Selected(more, version, colAdj)
    decreases |more|
  {
    if more == [] {
      assert keys + more == keys;
    } else {
      var front := more[..|more| - 1];
      SelectedAppend(keys, front, version, colAdj);
      assert (keys + more)[..|keys + more| - 1] == keys + front;
    }
  }

  /** `any(pd.isnull(worksheets))`. */
  predicate Unassigned(rows: seq<KeyRow>) {
    exists i | 0 <= i < |rows| :: rows[i].worksheet.None?
  }

  /** `sheet.cell(row, column).value` after `fillna`: None becomes NaN. */
  function ReadCell(wb: Workbook, sheet: string, row: int, column: int): Result<Reading, ClinicalError> {
    if sheet !in wb then Err(MissingSheet(sheet))
    else match CellValue(wb[sheet], row, column)
      case None => Err(BadCell(row, column))
      case Some(v) => Ok(if v.Missing? then NaN else Got(v))
  }

  /** `results['variable']` and `results['value']`. */
  datatype Collected = Collected(variables: seq<string>, values: seq<Reading>)

  /** The values of the first `k` selected rows, each read from its worksheet. */
  function ReadRows(wb: Workbook, rows: seq<KeyRow>, k: nat): (r: Result<Collected, ClinicalError>)
    requires k <= |rows| && !Unassigned(rows)
    ensures r.Ok? ==> |r.value.variables| == |r.value.values| == k
  {
    if k == 0 then Ok(Collected([], []))
    else match ReadRows(wb, rows, k - 1)
      case Err(e) => Err(e)
      case Ok(c) =>
        var r := rows[k - 1];
        match ReadCell(wb, r.worksheet.value, r.row, r.column)
        case Err(e) => Err(e)
        case Ok(v) => Ok(Collected(c.variables + [r.redcap], c.values + [v]))
  }

  /** The exam date: a fixed string in debug mode, else the date in row 9 of
      `Template` at column `5 + colAdj`, formatted. */
  function ExamDate(wb: Workbook, colAdj: int, debug: bool): Result<Reading, ClinicalError> {
    if debug then Ok(Got(Text("07071977")))
    else if "Template" !in wb then Err(MissingSheet("Template"))
    else match CellValue(wb["Template"], 9, DateCol + colAdj)
      case None => Err(BadCell(9, DateCol + colAdj))
      case Some(v) => if v.Date? then Ok(Got(Text(v.iso))) else Err(NoExamDate)
  }

  /** The (variable, value) list before the garbage filter: the selected
      rows in key order, then `np_date`. */
  function CollectAll(wb: Workbook, keys: seq<KeyRow>, version: Option<string>, exam: int, debug: bool): (r: Result<Collected, ClinicalError>)
    ensures r.Ok? ==> |r.value.variables| == |r.value.values|
  {
    if version.None? then Err(NoVersion)
    else
      var rows := Selected(keys, version.value, ColumnShift(exam));
      if Unassigned(rows) then Err(UnassignedWorksheet)
      else match ReadRows(wb, rows, |rows|)
        case Err(e) => Err(e)
        case Ok(c) =>
          match ExamDate(wb, ColumnShift(exam), debug)
          case Err(e) => Err(e)
          case Ok(d) => Ok(Collected(c.variables + ["np_date"], c.values + [d]))
  }

  /** Each value of a selected row is read at the key's row and at the key's
      column shifted by `4*exam`; `np_date` comes last. */
  lemma CollectAllSpec(wb: Workbook, keys: seq<KeyRow>, version: Option<string>, exam: int, debug: bool)
    requires CollectAll(wb, keys, version, exam, debug).Ok?
    ensures version.Some?
    ensures var rows := Selected(keys, version.value, ColumnShift(exam));
            var c := CollectAll(wb, keys, version, exam, debug).value;
            && |c.variables| == |c.values| == |rows| + 1
            && c.variables[|rows|] == "np_date"
            && (debug ==> c.values[|rows|] == Got(Text("07071977")))
            && (!debug ==> exists d :: && "Template" in wb
                                        && CellValue(wb["Template"], 9, DateCol + ColumnShift(exam)) == Some(Date(d))
                                        && c.values[|rows|] == Got(Text(d)))
            && forall i | 0 <= i < |rows| ::
                 rows[i].worksheet.Some?
                 && c.variables[i] == rows[i].redcap
                 && ReadCell(wb, rows[i].worksheet.value, rows[i].row, rows[i].column) == Ok(c.values[i])
  {
    var rows := Selected(keys, version.value, ColumnShift(exam));
    ReadRowsSpec(wb, rows, |rows|);
    if !debug {
      var v := CellValue(wb["Template"], 9, DateCol + ColumnShift(exam)).value;
      assert v == Date(v.iso);
    }
  }

  lemma {:induction false} ReadRowsSpec(wb: Workbook, rows: seq<KeyRow>, k: nat)
    requires k <= |rows| && !Unassigned(rows)
    requires ReadRows(wb, rows, k).Ok?
    ensures var c := ReadRows(wb, rows, k).value;
            && |c.variables| == |c.values| == k
            && forall i | 0 <= i < k ::
                 rows[i].worksheet.Some?
                 && c.variables[i] == rows[i].redcap
                 && ReadCell(wb, rows[i].worksheet.value, rows[i].row, rows[i].column) == Ok(c.values[i])
    decreases k
  {
    if k > 0 {
      ReadRowsSpec(wb, rows, k - 1);
    }
  }

  // ---------------------------------------------------------------------
  // The garbage filter

  /** `re.match` of `^w$`: the whole text, or the text and one final
      newline, which `$` also accepts. */
  predicate MatchesWhole(s: string, w: string) {
    s == w || s == w + "\n"
  }

  /** The garbage pattern `^=|^raw$|^val$|^\[ERR\]$|^SS$` on a text. */
  predicate GarbageText(s: string) {
    StartsWith(s, "=") || MatchesWhole(s, "raw") || MatchesWhole(s, "val")
    || MatchesWhole(s, "[ERR]") || MatchesWhole(s, "SS")
  }

  /** `.str.match(..., na=False)`: only texts can be garbage. */
  predicate Garbage(v: Reading) {
    v.Got? && v.v.Text? && GarbageText(v.v.s)
  }

  function Clean(v: Reading): (r: Reading)
    ensures !Garbage(r)
    ensures r == v || r == NaN
    ensures Garbage(v) <==> r != v
  {
    if Garbage(v) then NaN else v
  }

  /** Every value blanked if it is garbage. */
  function CleanAll(values: seq<Reading>): seq<Reading> {
    seq(|values|, i requires 0 <= i < |values| => Clean(values[i]))
  }

  /** `results['value'][garbage] = nan`, in place over the value list: each
      garbage text becomes NaN and every other value stays. */
  method BlankGarbage(values: seq<Reading>) returns (cleaned: seq<Reading>)
    ensures |cleaned| == |values|
    ensures forall i | 0 <= i < |values| :: !Garbage(cleaned[i]) && (cleaned[i] == values[i] || cleaned[i] == NaN)
    ensures cleaned == CleanAll(values)
  {
    cleaned := values;
    var i := 0;
    while i < |cleaned|
      invariant 0 <= i <= |cleaned| == |values|
      invariant forall j | 0 <= j < i :: cleaned[j] == Clean(values[j])
      invariant forall j | i <= j < |values| :: cleaned[j] == values[j]
    {
      if Garbage(cleaned[i]) {
        cleaned := cleaned[i := NaN];
      }
      i := i + 1;
    }
  }

  // ---------------------------------------------------------------------
  // Test presence flags

  /** The merged rows of one test variable `rc` whose value is not NaN. */
  function Matches(c: Collected, rc: string, k: nat): nat
    requires k <= |c.variables| == |c.values|
  {
    if k == 0 then 0
    else Matches(c, rc, k - 1) + (if c.variables[k - 1] == rc && c.values[k - 1] != NaN then 1 else 0)
  }

  /** `tests_check.groupby('test').agg({'check': sum})` for test `t`. */
  function CheckCount(tests: seq<TestRow>, c: Collected, t: string): nat
    requires |c.variables| == |c.values|
  {
    if tests == [] then 0
    else
      var row := tests[|tests| - 1];
      CheckCount(tests[..|tests| - 1], c, t)
      + (if row.test == t then Matches(c, row.redcap, |c.variables|) else 0)
  }

  /** The flag of a test: its check count, with counts above 0 set to 1. */
  function Flag(tests: seq<TestRow>, c: Collected, t: string): int
    requires |c.variables| == |c.values|
  {
    var n := CheckCount(tests, c, t);
    if n > 0 then 1 else n
  }

  function TestNames(tests: seq<TestRow>): set<string> {
    set i | 0 <= i < |tests| :: tests[i].test
  }

  lemma {:induction false} MatchesPositive(c: Collected, rc: string, k: nat)
    requires k <= |c.variables| == |c.values|
    ensures Matches(c, rc, k) > 0 <==> exists i | 0 <= i < k :: c.variables[i] == rc && c.values[i] != NaN
    decreases k
  {
    if k > 0 {
      MatchesPositive(c, rc, k - 1);
    }
  }

  lemma {:induction false} CheckCountPositive(tests: seq<TestRow>, c: Collected, t: string)
    requires |c.variables| == |c.values|
    ensures CheckCount(tests, c, t) > 0
            <==> exists j, i | 0 <= j < |tests| && 0 <= i < |c.variables| ::
                   tests[j].test == t && c.variables[i] == tests[j].redcap && c.values[i] != NaN
    decreases |tests|
  {
    if tests != [] {
      var front := tests[..|tests| - 1];
      var row := tests[|tests| - 1];
      CheckCountPositive(front, c, t);
      MatchesPositive(c, row.redcap, |c.variables|);
      if exists j, i | 0 <= j < |tests| && 0 <= i < |c.variables| ::
           tests[j].test == t && c.variables[i] == tests[j].redcap && c.values[i] != NaN {
        var j, i :| 0 <= j < |tests| && 0 <= i < |c.variables|
                    && tests[j].test == t && c.variables[i] == tests[j].redcap && c.values[i] != NaN;
        if j < |front| {
          assert front[j] == tests[j];
        }
      }
      if CheckCount(front, c, t) > 0 {
        var j, i :| 0 <= j < |front| && 0 <= i < |c.variables|
                    && front[j].test == t && c.variables[i] == front[j].redcap && c.values[i] != NaN;
        assert tests[j] == front[j];
      }
    }
  }

  /** Some variable of test `t` has a value that is not NaN. */
  predicate Present(tests: seq<TestRow>, c: Collected, t: string)
    requires |c.variables| == |c.values|
  {
    exists j, i | 0 <= j < |tests| && 0 <= i < |c.variables| ::
      tests[j].test == t && c.variables[i] == tests[j].redcap && c.values[i] != NaN
  }

  /** A test is flagged 1 exactly when one of its variables has a value that
      is not NaN, and 0 otherwise. */
  lemma FlagSpec(tests: seq<TestRow>, c: Collected, t: string)
    requires |c.variables| == |c.values|
    ensures Flag(tests, c, t) == 0 || Flag(tests, c, t) == 1
    ensures Flag(tests, c, t) == 1 <==> Present(tests, c, t)
  {
    CheckCountPositive(tests, c, t);
  }

  // ---------------------------------------------------------------------
  // The pivot

  /** `pivot(index='index', columns='variable', values='value')` on one row,
      over the first `k` (variable, value) pairs: the record, or an error
      when a variable repeats. */
  function PivotTo(variables: seq<string>, values: seq<Reading>, k: nat): Result<map<string, Reading>, ClinicalError>
    requires k <= |variables| == |values|
  {
    if k == 0 then Ok(map[])
    else match PivotTo(variables, values, k - 1)
      case Err(e) => Err(e)
      case Ok(m) => if variables[k - 1] in m then Err(DuplicateVariable) else Ok(m[variables[k - 1] := values[k - 1]])
  }

  function Pivot(variables: seq<string>, values: seq<Reading>): Result<map<string, Reading>, ClinicalError>
    requires |variables| == |values|
  {
    PivotTo(variables, values, |variables|)
  }

  predicate Distinct(variables: seq<string>) {
    forall i, j | 0 <= i < j < |variables| :: variables[i] != variables[j]
  }

  predicate DistinctTo(variables: seq<string>, k: nat)
    requires k <= |variables|
  {
    forall i, j | 0 <= i < j < k :: variables[i] != variables[j]
  }

  function Names(variables: seq<string>, k: nat): set<string>
    requires k <= |variables|
  {
    set i | 0 <= i < k :: variables[i]
  }

  lemma {:induction false} PivotToSpec(variables: seq<string>, values: seq<Reading>, k: nat)
    requires k <= |variables| == |values|
    ensures PivotTo(variables, values, k).Ok? <==> DistinctTo(variables, k)
    ensures PivotTo(variables, values, k).Ok? ==>
              && PivotTo(variables, values, k).value.Keys == Names(variables, k)
              && forall i | 0 <= i < k :: PivotTo(variables, values, k).value[variables[i]] == values[i]
    decreases k
  {
    if k > 0 {
      PivotToSpec(variables, values, k - 1);
      var x := variables[k - 1];
      if PivotTo(variables, values, k - 1).Ok? {
        var m := PivotTo(variables, values, k - 1).value;
        if x in m {
          var i :| 0 <= i < k - 1 && variables[i] == x;
          assert !DistinctTo(variables, k);
        } else {
          assert Names(variables, k) == Names(variables, k - 1) + {x};
        }
      }
    }
  }

  /** The pivot succeeds exactly when no variable repeats, and then the
      record holds each variable's value and nothing else. */
  lemma PivotSpec(variables: seq<string>, values: seq<Reading>)
    requires |variables| == |values|
    ensures Pivot(variables, values).Ok? <==> Distinct(variables)
    ensures Pivot(variables, values).Ok? ==>
              && Pivot(variables, values).value.Keys == (set i | 0 <= i < |variables| :: variables[i])
              && forall i | 0 <= i < |variables| :: Pivot(variables, values).value[variables[i]] == values[i]
  {
    PivotToSpec(variables, values, |variables|);
  }

  // ---------------------------------------------------------------------
  // parse_neuroscore

  /** The whole record: the cleaned (variable, value) list, then one flag
      per test, pivoted. */
  function NeuroscoreOf(wb: Workbook, keys: seq<KeyRow>, tests: seq<TestRow>, version: Option<string>, exam: int, debug: bool): Result<map<string, Reading>, ClinicalError> {
    match CollectAll(wb, keys, version, exam, debug)
    case Err(e) => Err(e)
    case Ok(raw) =>
      Record(Collected(raw.variables, CleanAll(raw.values)), tests)
  }

  /** The tests in order of first appearance (one flag per test). */
  function FlagNames(tests: seq<TestRow>): (names: seq<string>)
    ensures Distinct(names)
    ensures forall t :: t in names <==> t in TestNames(tests)
  {
    if tests == [] then []
    else
      var front := FlagNames(tests[..|tests| - 1]);
      var t := tests[|tests| - 1].test;
      assert forall x :: x in TestNames(tests) <==> x in TestNames(tests[..|tests| - 1]) || x == t by {
        forall x | x in TestNames(tests) ensures x in TestNames(tests[..|tests| - 1]) || x == t {
          var i :| 0 <= i < |tests| && tests[i].test == x;
          if i < |tests| - 1 {
            assert tests[..|tests| - 1][i] == tests[i];
          }
        }
        forall x | x in TestNames(tests[..|tests| - 1]) ensures x in TestNames(tests) {
          var i :| 0 <= i < |tests| - 1 && tests[..|tests| - 1][i].test == x;
          assert tests[i] == tests[..|tests| - 1][i];
        }
      }
      if t in front then front else front + [t]
  }

  function FlagValues(tests: seq<TestRow>, c: Collected, names: seq<string>): (r: seq<Reading>)
    requires |c.variables| == |c.values|
    ensures |r| == |names|
  {
    seq(|names|, i requires 0 <= i < |names| => Got(Number(Flag(tests, c, names[i]) as real)))
  }

  /** The source's steps in order: the version check, the unassigned
      worksheet check, the reading loop, `np_date`, the garbage blanking,
      the flags and the pivot. */
  method ParseNeuroscore(wb: Workbook, keys: seq<KeyRow>, tests: seq<TestRow>, version: Option<string>, exam: int, debug: bool)
    returns (r: Result<map<string, Reading>, ClinicalError>)
    ensures r == NeuroscoreOf(wb, keys, tests, version, exam, debug)
  {
    var colAdj := exam * 4;
    if version.None? {
      return Err(NoVersion);
    }
    var rows := Selected(keys, version.value, colAdj);
    if Unassigned(rows) {
      return Err(UnassignedWorksheet);
    }
    var variables: seq<string> := [];
    var values: seq<Reading> := [];
    var k := 0;
    while k < |rows|
      invariant 0 <= k <= |rows|
      invariant ReadRows(wb, rows, k) == Ok(Collected(variables, values))
    {
      var row := rows[k];
      var v := ReadCell(wb, row.worksheet.value, row.row, row.column);
      if v.Err? {
        ReadRowsFails(wb, rows, k + 1, |rows|);
        return Err(v.error);
      }
      variables := variables + [row.redcap];
      values := values + [v.value];
      k := k + 1;
    }
    var date := ExamDate(wb, colAdj, debug);
    if date.Err? {
      return Err(date.error);
    }
    variables := variables + ["np_date"];
    values := values + [date.value];
    ReadRowsSpec(wb, rows, |rows|);
    var cleaned := BlankGarbage(values);
    var c := Collected(variables, cleaned);
    var names := FlagNames(tests);
    var flags := FlagValues(tests, c, names);
    return Pivot(variables + names, cleaned + flags);
  }

  lemma {:induction false} ReadRowsFails(wb: Workbook, rows: seq<KeyRow>, k: nat, m: nat)
    requires k <= m <= |rows| && !Unassigned(rows)
    requires ReadRows(wb, rows, k).Err?
    ensures ReadRows(wb, rows, m) == ReadRows(wb, rows, k)
    decreases m - k
  {
    if m > k {
      ReadRowsFails(wb, rows, k, m - 1);
    }
  }

  /** The record holds every variable of `c` with its value. */
  predicate HoldsValues(r: map<string, Reading>, c: Collected)
    requires |c.variables| == |c.values|
  {
    forall i | 0 <= i < |c.variables| :: c.variables[i] in r && r[c.variables[i]] == c.values[i]
  }

  /** The record holds every test's flag: 1 exactly when one of the test's
      variables has a value that is not NaN, and 0 otherwise. */
  predicate HoldsFlags(r: map<string, Reading>, tests: seq<TestRow>, c: Collected)
    requires |c.variables| == |c.values|
  {
    forall t | t in TestNames(tests) ::
      && t in r
      && (r[t] == Got(Number(1.0)) <==> Present(tests, c, t))
      && (r[t] == Got(Number(0.0)) <==> !Present(tests, c, t))
  }

  /** The record pivoted from the cleaned list `c` and the flags. */
  function Record(c: Collected, tests: seq<TestRow>): Result<map<string, Reading>, ClinicalError>
    requires |c.variables| == |c.values|
  {
    var names := FlagNames(tests);
    Pivot(c.variables + names, c.values + FlagValues(tests, c, names))
  }

  lemma RecordValues(c: Collected, tests: seq<TestRow>)
    requires |c.variables| == |c.values|
    requires Record(c, tests).Ok?
    ensures HoldsValues(Record(c, tests).value, c)
  {
    var names := FlagNames(tests);
    var vars := c.variables + names;
    var vals := c.values + FlagValues(tests, c, names);
    PivotSpec(vars, vals);
    var m := Pivot(vars, vals).value;
    forall i | 0 <= i < |c.variables| ensures c.variables[i] in m && m[c.variables[i]] == c.values[i] {
      assert vars[i] == c.variables[i] && vals[i] == c.values[i];
    }
  }

  lemma RecordFlags(c: Collected, tests: seq<TestRow>)
    requires |c.variables| == |c.values|
    requires Record(c, tests).Ok?
    ensures HoldsFlags(Record(c, tests).value, tests, c)
  {
    var m := Record(c, tests).value;
    forall t | t in TestNames(tests)
      ensures && t in m
              && (m[t] == Got(Number(1.0)) <==> Present(tests, c, t))
              && (m[t] == Got(Number(0.0)) <==> !Present(tests, c, t))
    {
      RecordFlag(c, tests, t);
    }
  }

  /** One test's flag in the record. */
  lemma RecordFlag(c: Collected, tests: seq<TestRow>, t: string)
    requires |c.variables| == |c.values|
    requires Record(c, tests).Ok? && t in TestNames(tests)
    ensures var m := Record(c, tests).value;
            && t in m
            && (m[t] == Got(Number(1.0)) <==> Present(tests, c, t))
            && (m[t] == Got(Number(0.0)) <==> !Present(tests, c, t))
  {
    var names := FlagNames(tests);
    var vars := c.variables + names;
    var vals := c.values + FlagValues(tests, c, names);
    var j :| 0 <= j < |names| && names[j] == t;
    PivotAt(vars, vals, |c.variables| + j);
    assert vars[|c.variables| + j] == t;
    assert vals[|c.variables| + j] == Got(Number(Flag(tests, c, t) as real));
    FlagSpec(tests, c, t);
  }

  /** A successful pivot maps each variable to its value. */
  lemma PivotAt(variables: seq<string>, values: seq<Reading>, i: nat)
    requires |variables| == |values| && i < |variables|
    requires Pivot(variables, values).Ok?
    ensures variables[i] in Pivot(variables, values).value
    ensures Pivot(variables, values).value[variables[i]] == values[i]
  {
    PivotSpec(variables, values);
  }

  /** The record's keys are the variables and the test names, no others. */
  lemma RecordKeys(c: Collected, tests: seq<TestRow>)
    requires |c.variables| == |c.values|
    requires Record(c, tests).Ok?
    ensures Record(c, tests).value.Keys == Names(c.variables, |c.variables|) + TestNames(tests)
  {
    var names := FlagNames(tests);
    var vars := c.variables + names;
    PivotSpec(vars, c.values + FlagValues(tests, c, names));
    assert Record(c, tests).value.Keys == Names(vars, |vars|);
    NamesAppend(c.variables, names);
    assert Names(names, |names|) == TestNames(tests) by {
      forall x ensures x in Names(names, |names|) <==> x in names {
        if x in names {
          var j :| 0 <= j < |names| && names[j] == x;
        }
      }
    }
  }

  lemma NamesAppend(xs: seq<string>, ys: seq<string>)
    ensures Names(xs + ys, |xs + ys|) == Names(xs, |xs|) + Names(ys, |ys|)
  {
    var zs := xs + ys;
    forall x | x in Names(zs, |zs|) ensures x in Names(xs, |xs|) + Names(ys, |ys|) {
      var i :| 0 <= i < |zs| && zs[i] == x;
      if i >= |xs| {
        assert ys[i - |xs|] == x;
      }
    }
    forall x | x in Names(ys, |ys|) ensures x in Names(zs, |zs|) {
      var j :| 0 <= j < |ys| && ys[j] == x;
      assert zs[|xs| + j] == x;
    }
    forall x | x in Names(xs, |xs|) ensures x in Names(zs, |zs|) {
      var j :| 0 <= j < |xs| && xs[j] == x;
      assert zs[j] == x;
    }
  }

  /** The record built from a cleaned (variable, value) list `c` holds every
      variable's value and every test's flag, and no other key; it fails
      exactly when a name repeats. */
  lemma RecordSpec(c: Collected, tests: seq<TestRow>)
    requires |c.variables| == |c.values|
    ensures Record(c, tests).Ok? <==> Distinct(c.variables + FlagNames(tests))
    ensures Record(c, tests).Ok? ==> HoldsValues(Record(c, tests).value, c) && HoldsFlags(Record(c, tests).value, tests, c)
    ensures Record(c, tests).Ok? ==> Record(c, tests).value.Keys == Names(c.variables, |c.variables|) + TestNames(tests)
  {
    var names := FlagNames(tests);
    PivotSpec(c.variables + names, c.values + FlagValues(tests, c, names));
    if Record(c, tests).Ok? {
      RecordValues(c, tests);
      RecordFlags(c, tests);
      RecordKeys(c, tests);
    }
  }

  /** What a parsed record holds: every variable of the version with its
      cleaned value, `np_date` last, and every test's flag, 1 exactly when
      one of the test's variables has a cleaned value that is not NaN and 0
      otherwise; a repeated variable, or a test named like a variable, makes
      the pivot fail. */
  lemma NeuroscoreSpec(wb: Workbook, keys: seq<KeyRow>, tests: seq<TestRow>, version: Option<string>, exam: int, debug: bool)
    requires CollectAll(wb, keys, version, exam, debug).Ok?
    ensures var raw := CollectAll(wb, keys, version, exam, debug).value;
            var c := Collected(raw.variables, CleanAll(raw.values));
            var r := NeuroscoreOf(wb, keys, tests, version, exam, debug);
            && (r.Ok? <==> Distinct(raw.variables + FlagNames(tests)))
            && (r.Ok? ==>
                  && HoldsValues(r.value, c)
                  && HoldsFlags(r.value, tests, c)
                  && r.value.Keys == Names(raw.variables, |raw.variables|) + TestNames(tests)
                  && "np_date" in r.value
                  && (debug ==> r.value["np_date"] == Got(Text("07071977"))))
  {
    var raw := CollectAll(wb, keys, version, exam, debug).value;
    var c := Collected(raw.variables, CleanAll(raw.values));
    CollectAllSpec(wb, keys, version, exam, debug);
    assert NeuroscoreOf(wb, keys, tests, version, exam, debug) == Record(c, tests);
    RecordSpec(c, tests);
    var n := |raw.variables| - 1;
    assert raw.variables[n] == "np_date";
    if debug {
      DebugDateKept();
      assert c.values[n] == raw.values[n];
    }
  }

  /** The debug-mode date is not garbage, so cleaning keeps it. */
  lemma DebugDateKept()
    ensures Clean(Got(Text("07071977"))) == Got(Text("07071977"))
  {
    assert "07071977"[..1] == "0";
  }
}
