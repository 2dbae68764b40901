/**
  The lookup table of a department (`interfaces/lut.py`): the blank table
  built from a Neuroscore template by the header scan and the resolver, and
  the table read back from a filled-in sheet, keyed by line identifier and
  block number.
*/
module Lut {
  import opened Wrappers
  import opened PyStr
  import opened Sheet
  import opened Resolver

  datatype LutError =
    | UnknownDept(dept: string)         // the `raise Exception` on a department outside the known ones
    | ShortRow                          // a row tuple too short for the column read (IndexError)
    | HeaderNotText(row: int)           // `.strip()` on a truthy value that is not text (AttributeError)
    | Lines(cause: ResolveError)        // the resolver failed
    | MissingColumn(name: string)       // a slot column absent from the sheet (KeyError)
    | LevelOutOfRange(index: int)       // a negative level past the start of an identifier (IndexError)

  // ---------------------------------------------------------------------
  // initialize_lut

  /** The label column (`TEST_COL`) and the header column (`RAW_COL`) of a
      department's template. */
  function TemplateColumns(dept: string): (r: Result<(nat, nat), LutError>)
    ensures r.Ok? <==> dept in {"peds", "epilepsy", "dementia", "aphasia"}
    ensures r.Ok? ==> r.value.1 == r.value.0 + 1
    ensures dept == "peds" ==> r == Ok((2, 3))
    ensures r.Ok? && dept != "peds" ==> r == Ok((1, 2))
  {
    if dept in {"peds"} then Ok((2, 3))
    else if dept in {"epilepsy", "dementia", "aphasia"} then Ok((1, 2))
    else Err(UnknownDept(dept))
  }

  /** The condition of the first header loop at row `b`, before its bound
      test: true while the row is not the "Raw" header row. */
  function NotHeader(ws: Worksheet, rawCol: nat, b: int): Result<bool, LutError> {
    if !RowTruthy(ws) then Ok(true)
    else match CellAt(ws, b, rawCol)
      case None => Err(ShortRow)
      case Some(cell) =>
        if !Truthy(cell.value) then Ok(true)
        else if !cell.value.Text? then Err(HeaderNotText(b))
        else Ok(Strip(cell.value.s) != "Raw")
  }

  /** The condition of the second header loop at row `b`: true while the
      label column is empty. */
  function NoLabel(ws: Worksheet, testCol: nat, b: int): Result<bool, LutError> {
    if !RowTruthy(ws) then Ok(true)
    else match CellAt(ws, b, testCol)
      case None => Err(ShortRow)
      case Some(cell) => Ok(!Truthy(cell.value))
  }

  /** Where a header loop over `cond` that starts at row `b` stops: the
      first row whose condition is false, or `max_row`, whichever comes
      first; the condition is evaluated at the stopping row too. */
  function ScanFrom(ws: Worksheet, col: nat, header: bool, b: int): (r: Result<int, LutError>)
    ensures r.Ok? ==> b <= r.value && (b < MaxRow(ws) ==> r.value <= MaxRow(ws))
    decreases MaxRow(ws) - b
  {
    match (if header then NotHeader(ws, col, b) else NoLabel(ws, col, b))
    case Err(e) => Err(e)
    case Ok(more) => if more && b < MaxRow(ws) then ScanFrom(ws, col, header, b + 1) else Ok(b)
  }

  /** The scan stops at the first row from `b` whose condition is false, and
      every row it passes has a true condition. */
  lemma {:induction false} ScanFromStops(ws: Worksheet, col: nat, header: bool, b: int)
    requires ScanFrom(ws, col, header, b).Ok?
    ensures var r := ScanFrom(ws, col, header, b).value;
            && (forall k | b <= k < r :: (if header then NotHeader(ws, col, k) else NoLabel(ws, col, k)) == Ok(true))
            && (r < MaxRow(ws) ==> (if header then NotHeader(ws, col, r) else NoLabel(ws, col, r)) == Ok(false))
    decreases MaxRow(ws) - b
  {
    var c := if header then NotHeader(ws, col, b) else NoLabel(ws, col, b);
    if c == Ok(true) && b < MaxRow(ws) {
      ScanFromStops(ws, col, header, b + 1);
    }
  }

  /** The three lists of the blank table, one entry per line. */
  datatype Columns = Columns(test: seq<string>, testNo: seq<int>, identifier: seq<string>)

  function ColumnsOf(entries: seq<Entry>): (c: Columns)
    ensures |c.test| == |c.testNo| == |c.identifier| == |entries|
    ensures forall i | 0 <= i < |entries| ::
              c.test[i] == entries[i].test && c.testNo[i] == entries[i].testNo
              && c.identifier[i] == entries[i].identifier
  {
    Columns(seq(|entries|, i requires 0 <= i < |entries| => entries[i].test),
            seq(|entries|, i requires 0 <= i < |entries| => entries[i].testNo),
            seq(|entries|, i requires 0 <= i < |entries| => entries[i].identifier))
  }

  /** The blank lookup table of a template, as `initialize_lut` builds it. */
  function BlankLut(ws: Worksheet, dept: string): Result<Columns, LutError> {
    match TemplateColumns(dept)
    case Err(e) => Err(e)
    case Ok(cols) =>
      match HeaderEnd(ws, cols.0, cols.1)
      case Err(e) => Err(e)
      case Ok(b) => LinesFrom(ws, cols.0, b)
  }

  /** Where the two header loops leave `begin_line`: the first scan runs
      over the header column from row 1, the second over the label column
      from where the first stopped. */
  function HeaderEnd(ws: Worksheet, testCol: nat, rawCol: nat): Result<int, LutError> {
    match ScanFrom(ws, rawCol, true, 1)
    case Err(e) => Err(e)
    case Ok(b1) => ScanFrom(ws, testCol, false, b1)
  }

  /** The table from start row `b` on: empty when `b` is the last row or
      beyond, else the resolver's lines from `b` through `max_row`. */
  function LinesFrom(ws: Worksheet, testCol: nat, b: int): Result<Columns, LutError> {
    if b < MaxRow(ws) then
      match Resolve(ws, testCol, true, b, MaxRow(ws))
      case Err(e) => Err(Lines(e))
      case Ok(entries) => Ok(ColumnsOf(entries))
    else Ok(Columns([], [], []))
  }

  /** `initialize_lut`: the two header loops advance `begin_line`, then the
      resolver walks the label column to the last row. */
  method InitializeLut(ws: Worksheet, dept: string) returns (r: Result<Columns, LutError>)
    ensures r == BlankLut(ws, dept)
  {
    var cols := TemplateColumns(dept);
    if cols.Err? {
      return Err(cols.error);
    }
    var (testCol, rawCol) := cols.value;
    var afterRaw := Scan(ws, rawCol, true, 1);
    if afterRaw.Err? {
      return Err(afterRaw.error);
    }
    var beginLine := Scan(ws, testCol, false, afterRaw.value);
    if beginLine.Err? {
      return Err(beginLine.error);
    }
    r := ReadLines(ws, testCol, beginLine.value);
  }

  /** One header loop: `begin_line` moves down from `b` while the condition
      holds and the last row is not reached. */
  method Scan(ws: Worksheet, col: nat, header: bool, b: int) returns (r: Result<int, LutError>)
    ensures r == ScanFrom(ws, col, header, b)
  {
    var beginLine := b;
    while true
      invariant ScanFrom(ws, col, header, b) == ScanFrom(ws, col, header, beginLine)
      decreases MaxRow(ws) - beginLine
    {
      var c := if header then NotHeader(ws, col, beginLine) else NoLabel(ws, col, beginLine);
      if c.Err? {
        return Err(c.error);
      }
      if !(c.value && beginLine < MaxRow(ws)) {
        break;
      }
      beginLine := beginLine + 1;
    }
    return Ok(beginLine);
  }

  /** The resolver run from `begin_line` when it lies before the last row. */
  method ReadLines(ws: Worksheet, testCol: nat, beginLine: int) returns (r: Result<Columns, LutError>)
    ensures r == LinesFrom(ws, testCol, beginLine)
  {
    if beginLine < MaxRow(ws) {
      var lines := ResolveRows(ws, testCol, true, beginLine, MaxRow(ws));
      if lines.Err? {
        return Err(Lines(lines.error));
      }
      return Ok(ColumnsOf(lines.value));
    }
    return Ok(Columns([], [], []));
  }

  /** The blank table is empty when the header scan reaches the last row;
      otherwise its lines are the seed row and every later live label row,
      and each line carries its root test and that test's block number. */
  lemma BlankLutLines(ws: Worksheet, dept: string)
    requires BlankLut(ws, dept).Ok?
    ensures var testCol := TemplateColumns(dept).value.0;
            var b := HeaderEnd(ws, testCol, TemplateColumns(dept).value.1).value;
            var c := BlankLut(ws, dept).value;
            && (b >= MaxRow(ws) ==> c == Columns([], [], []))
            && (b < MaxRow(ws) ==>
                  && |c.identifier| == 1 + |LiveRows(ws, testCol, true, b + 1, MaxRow(ws))|
                  && c.testNo[0] == 1
                  && (forall i | 0 <= i < |c.testNo| :: c.testNo[i] >= 1))
  {
    var testCol := TemplateColumns(dept).value.0;
    var b := HeaderEnd(ws, testCol, TemplateColumns(dept).value.1).value;
    assert BlankLut(ws, dept) == LinesFrom(ws, testCol, b);
    LinesFromColumns(ws, testCol, b);
  }

  /** The table from row `b`: empty at or past the last row, else one entry
      per live row from `b` on, the first with test number 1. */
  lemma LinesFromColumns(ws: Worksheet, testCol: nat, b: int)
    requires LinesFrom(ws, testCol, b).Ok?
    ensures var c := LinesFrom(ws, testCol, b).value;
            && (b >= MaxRow(ws) ==> c == Columns([], [], []))
            && (b < MaxRow(ws) ==>
                  && |c.identifier| == 1 + |LiveRows(ws, testCol, true, b + 1, MaxRow(ws))|
                  && c.testNo[0] == 1
                  && (forall i | 0 <= i < |c.testNo| :: c.testNo[i] >= 1))
  {
    if b < MaxRow(ws) {
      ResolveLines(ws, testCol, true, b, MaxRow(ws));
      RowsOfLength(Resolve(ws, testCol, true, b, MaxRow(ws)).value);
    }
  }

  // ---------------------------------------------------------------------
  // The lut class

  /** A data frame read from a filled-in lookup sheet: its column names and
      its rows, each with its `identifier`, its `test_no` and the other
      cells by column (a missing value is None). */
  datatype Frame = Frame(columns: seq<string>, rows: seq<FrameRow>)
  datatype FrameRow = FrameRow(identifier: string, testNo: int, cells: map<string, Option<string>>)

  /** `lut.lut`, `lut.dept` and `lut.split_identifiers`. */
  datatype LookupTable = LookupTable(dept: string, table: map<(string, int), seq<string>>, splitIdentifiers: seq<seq<string>>)

  /** The slot columns of a department, in table order. */
  function SlotColumns(dept: string): (cols: seq<string>)
    ensures |cols| == (if dept == "peds" then 9 else if dept == "neonatology" then 7 else 4)
    ensures cols[0] == "raw" && cols[1] == "ss" && cols[2] == "percentile"
  {
    if dept in {"peds"} then
      ["raw", "ss", "percentile", "sign", "age_equivalent", "high_equivalent",
       "developmental_quotient", "form", "notes"]
    else if dept in {"neonatology"} then
      ["raw", "ss", "percentile", "equivalent", "form", "notes", "gsv"]
    else ["raw", "ss", "percentile", "notes"]
  }

  /** The first of `wanted` that is not a column of the frame (pandas
      reports a missing selection as a KeyError). */
  function FirstMissing(wanted: seq<string>, columns: seq<string>): (r: Option<string>)
    ensures r.None? <==> forall i | 0 <= i < |wanted| :: wanted[i] in columns
    ensures r.Some? ==> r.value in wanted && r.value !in columns
  {
    if wanted == [] then None
    else if wanted[0] !in columns then Some(wanted[0])
    else FirstMissing(wanted[1..], columns)
  }

  /** One row's slot values in column order, a missing value read as ''. */
  function SlotValues(row: FrameRow, cols: seq<string>): (vs: seq<string>)
    ensures |vs| == |cols|
  {
    seq(|cols|, i requires 0 <= i < |cols| =>
      if cols[i] in row.cells && row.cells[cols[i]].Some? then row.cells[cols[i]].value else "")
  }

  /** The key of a row in the table. */
  function KeyOf(row: FrameRow): (string, int) {
    (row.identifier, row.testNo)
  }

  /** The dictionary comprehension of `convert_df_to_lut`: each row's key
      maps to its slot values, a later row overwriting an earlier one. */
  function TableOf(rows: seq<FrameRow>, cols: seq<string>): map<(string, int), seq<string>> {
    if rows == [] then map[]
    else TableOf(rows[..|rows| - 1], cols)[KeyOf(rows[|rows| - 1]) := SlotValues(rows[|rows| - 1], cols)]
  }

  /** The table's keys are exactly the rows' keys. */
  lemma {:induction false} TableOfKeys(rows: seq<FrameRow>, cols: seq<string>, k: (string, int))
    ensures k in TableOf(rows, cols) <==> exists i | 0 <= i < |rows| :: KeyOf(rows[i]) == k
    decreases |rows|
  {
    if rows != [] {
      var front := rows[..|rows| - 1];
      TableOfKeys(front, cols, k);
      if exists i | 0 <= i < |front| :: KeyOf(front[i]) == k {
        var i :| 0 <= i < |front| && KeyOf(front[i]) == k;
        assert rows[i] == front[i];
      }
      if exists i | 0 <= i < |rows| :: KeyOf(rows[i]) == k {
        var i :| 0 <= i < |rows| && KeyOf(rows[i]) == k;
        if i < |front| {
          assert front[i] == rows[i];
        }
      }
    }
  }

  /** A row that no later row shares its key with is the one whose slot
      values the table holds: the last duplicate wins. */
  lemma {:induction false} TableOfLastWins(rows: seq<FrameRow>, cols: seq<string>, i: nat)
    requires i < |rows|
    requires forall j | i < j < |rows| :: KeyOf(rows[j]) != KeyOf(rows[i])
    ensures KeyOf(rows[i]) in TableOf(rows, cols)
    ensures TableOf(rows, cols)[KeyOf(rows[i])] == SlotValues(rows[i], cols)
    decreases |rows|
  {
    if i < |rows| - 1 {
      var front := rows[..|rows| - 1];
      assert front[i] == rows[i];
      TableOfLastWins(front, cols, i);
    }
  }

  /** Every value of the table holds one entry per slot column. */
  lemma {:induction false} TableOfWidth(rows: seq<FrameRow>, cols: seq<string>)
    ensures forall k | k in TableOf(rows, cols) :: |TableOf(rows, cols)[k]| == |cols|
    decreases |rows|
  {
    if rows != [] {
      TableOfWidth(rows[..|rows| - 1], cols);
    }
  }

  /** `lut(dept, excel)` on the frame read from `excel`: the identifiers
      are split first, then the department is checked, then the slot
      columns and `test_no` are selected for the table. */
  function NewLut(dept: string, frame: Frame): (r: Result<LookupTable, LutError>)
    ensures r.Ok? <==> && "identifier" in frame.columns
                       && dept in {"peds", "epilepsy", "dementia", "aphasia", "neonatology"}
                       && (forall i | 0 <= i < |SlotColumns(dept)| :: SlotColumns(dept)[i] in frame.columns)
                       && "test_no" in frame.columns
    ensures r.Ok? ==> r.value.dept == dept && |r.value.splitIdentifiers| == |frame.rows|
    ensures r.Ok? ==> forall i | 0 <= i < |frame.rows| ::
                        && r.value.splitIdentifiers[i] == Split(frame.rows[i].identifier, Sep)
                        && Join(r.value.splitIdentifiers[i], Sep) == frame.rows[i].identifier
                        && forall piece | piece in r.value.splitIdentifiers[i] :: !Contains(piece, Sep)
  {
    if "identifier" !in frame.columns then Err(MissingColumn("identifier"))
    else
      var split := seq(|frame.rows|, i requires 0 <= i < |frame.rows| => Split(frame.rows[i].identifier, Sep));
      assert forall i | 0 <= i < |frame.rows| :: Join(split[i], Sep) == frame.rows[i].identifier by {
        forall i | 0 <= i < |frame.rows| ensures Join(split[i], Sep) == frame.rows[i].identifier {
          JoinSplit(frame.rows[i].identifier, Sep);
        }
      }
      assert forall i | 0 <= i < |frame.rows| :: forall piece | piece in split[i] :: !Contains(piece, Sep) by {
        forall i | 0 <= i < |frame.rows| ensures forall piece | piece in split[i] :: !Contains(piece, Sep) {
          SplitPieces(frame.rows[i].identifier, Sep);
        }
      }
      if dept !in {"peds", "epilepsy", "dementia", "aphasia", "neonatology"} then Err(UnknownDept(dept))
      else
        var cols := SlotColumns(dept);
        match FirstMissing(cols, frame.columns)
        case Some(c) => Err(MissingColumn(c))
        case None =>
          if "test_no" !in frame.columns then Err(MissingColumn("test_no"))
          else Ok(LookupTable(dept, TableOf(frame.rows, cols), split))
  }

  /** The table of a lookup sheet: its keys are the sheet's
      (identifier, test_no) pairs, every value has one string per slot
      column, and a key's value comes from the last row with that key. */
  lemma NewLutTable(dept: string, frame: Frame, k: (string, int))
    requires NewLut(dept, frame).Ok?
    ensures var t := NewLut(dept, frame).value.table;
            && (k in t <==> exists i | 0 <= i < |frame.rows| :: KeyOf(frame.rows[i]) == k)
            && (k in t ==> |t[k]| == |SlotColumns(dept)|)
  {
    TableOfKeys(frame.rows, SlotColumns(dept), k);
    TableOfWidth(frame.rows, SlotColumns(dept));
  }

  /** Component `level` of one split identifier: '' when it has too few
      components, Python indexing from the end for a negative level. */
  function HeaderAt(parts: seq<string>, level: int): Result<string, LutError> {
    if |parts| < level + 1 then Ok("")
    else if level >= 0 then Ok(parts[level])
    else if |parts| + level >= 0 then Ok(parts[|parts| + level])
    else Err(LevelOutOfRange(level))
  }

  /** `get_headers_at_indent_level(level)`: one header per identifier. */
  function HeadersAtLevel(split: seq<seq<string>>, level: int): (r: Result<seq<string>, LutError>)
    ensures r.Ok? ==> |r.value| == |split|
    ensures r.Ok? ==> forall i | 0 <= i < |r.value| :: HeaderAt(split[i], level) == Ok(r.value[i])
    ensures r.Err? ==> exists i | 0 <= i < |split| :: HeaderAt(split[i], level).Err?
    decreases |split|
  {
    if split == [] then Ok([])
    else
      var front := split[..|split| - 1];
      match HeadersAtLevel(front, level)
      case Err(e) => Err(e)
      case Ok(hs) =>
        match HeaderAt(split[|split| - 1], level)
        case Err(e) => Err(e)
        case Ok(h) => Ok(hs + [h])
  }

  /** A non-negative level never fails: each header is the `level`-th
      component of its identifier, or '' past the last one. */
  lemma {:induction false} HeadersAtLevelNatural(split: seq<seq<string>>, level: nat)
    ensures HeadersAtLevel(split, level).Ok?
    ensures forall i | 0 <= i < |split| ::
              HeadersAtLevel(split, level).value[i] == (if level < |split[i]| then split[i][level] else "")
    decreases |split|
  {
    if split != [] {
      HeadersAtLevelNatural(split[..|split| - 1], level);
    }
  }

  /** On a built LUT, `get_headers_at_indent_level(level)` for a level of 0
      or more gives, per identifier, its `level`-th level-separator
      component, or '' when it has fewer components. */
  lemma LutHeaders(dept: string, frame: Frame, level: nat)
    requires NewLut(dept, frame).Ok?
    ensures var l := NewLut(dept, frame).value;
            && HeadersAtLevel(l.splitIdentifiers, level).Ok?
            && |HeadersAtLevel(l.splitIdentifiers, level).value| == |frame.rows|
            && forall i | 0 <= i < |frame.rows| ::
                 var pieces := Split(frame.rows[i].identifier, Sep);
                 HeadersAtLevel(l.splitIdentifiers, level).value[i] == (if level < |pieces| then pieces[level] else "")
  {
    HeadersAtLevelNatural(NewLut(dept, frame).value.splitIdentifiers, level);
  }
}
