/**
  The workbook parsers (`interfaces/wb_parsers.py`): `wb_parser` for the
  adult Neuroscore template and `peds_wb_parser` for the paediatric one.
  Each finds the first data row, resolves the line identifiers below it and
  joins the lines against a lookup table to read the scores of a sheet.
*/
module WbParsers {
  import opened Wrappers
  import opened PyStr
  import opened Sheet
  import opened Resolver
  import opened Lists
  import Lut

  datatype WbError =
    | NoRows                          // `range(1, max_row + 1)` is empty and `i` is never bound
    | RowTooShort                     // a row tuple too short for the column read (IndexError)
    | FirstRowPastEnd                 // the `first_data_row > sh.max_row` exception
    | Unresolved(cause: ResolveError) // the resolver failed
    | NoSlotName(row: int, slot: nat) // `COL_NAMES[n]` past the four names (IndexError)

  // ---------------------------------------------------------------------
  // find_first_data_row / get_first_data_line

  /** Whether row `k` stops a search over column `col`: for the sentinel
      search the value is exactly "Raw", otherwise it is truthy.  A row
      tuple that is empty never stops it. */
  function Hit(ws: Worksheet, col: nat, sentinel: bool, k: int): Result<bool, WbError> {
    if !RowTruthy(ws) then Ok(false)
    else match CellAt(ws, k, col)
      case None => Err(RowTooShort)
      case Some(cell) => Ok(if sentinel then cell.value == Text("Raw") else Truthy(cell.value))
  }

  /** A `for i in range(k, max_row + 1)` loop that breaks at a hit: where
      `i` is left, the hit row or `max_row`. */
  function Search(ws: Worksheet, col: nat, sentinel: bool, k: int): (r: Result<int, WbError>)
    requires 1 <= k <= MaxRow(ws)
    ensures r.Ok? ==> k <= r.value <= MaxRow(ws)
    ensures r.Err? ==> r.error == RowTooShort
    decreases MaxRow(ws) - k
  {
    match Hit(ws, col, sentinel, k)
    case Err(e) => Err(e)
    case Ok(hit) => if hit || k == MaxRow(ws) then Ok(k) else Search(ws, col, sentinel, k + 1)
  }

  /** A search stops at the first hit at or after `k`, and at `max_row`
      when there is none. */
  lemma {:induction false} SearchFinds(ws: Worksheet, col: nat, sentinel: bool, k: int)
    requires 1 <= k <= MaxRow(ws)
    requires Search(ws, col, sentinel, k).Ok?
    ensures var r := Search(ws, col, sentinel, k).value;
            && (forall j | k <= j < r :: Hit(ws, col, sentinel, j) == Ok(false))
            && (Hit(ws, col, sentinel, r) == Ok(true) || (r == MaxRow(ws) && Hit(ws, col, sentinel, r) == Ok(false)))
    decreases MaxRow(ws) - k
  {
    if Hit(ws, col, sentinel, k) == Ok(false) && k < MaxRow(ws) {
      SearchFinds(ws, col, sentinel, k + 1);
    }
  }

  /** The first data row: the sentinel search from row 1, then the label
      search from the row after the sentinel row. */
  function FirstDataRow(ws: Worksheet, sentinelCol: nat, labelCol: nat): Result<int, WbError> {
    if MaxRow(ws) == 0 then Err(NoRows)
    else match Search(ws, sentinelCol, true, 1)
      case Err(e) => Err(e)
      case Ok(i) => if i == MaxRow(ws) then Ok(i) else Search(ws, labelCol, false, i + 1)
  }

  /** The two `for`/`break` loops; `i` keeps its last value after a loop
      that does not break. */
  method FindFirstDataRow(ws: Worksheet, sentinelCol: nat, labelCol: nat) returns (r: Result<int, WbError>)
    ensures r == FirstDataRow(ws, sentinelCol, labelCol)
  {
    if MaxRow(ws) == 0 {
      return Err(NoRows);
    }
    var i := 1;
    while true
      invariant 1 <= i <= MaxRow(ws)
      invariant Search(ws, sentinelCol, true, 1) == Search(ws, sentinelCol, true, i)
      decreases MaxRow(ws) - i
    {
      var hit := Hit(ws, sentinelCol, true, i);
      if hit.Err? {
        return Err(hit.error);
      }
      if hit.value || i == MaxRow(ws) {
        break;
      }
      i := i + 1;
    }
    if i == MaxRow(ws) {
      return Ok(i);
    }
    ghost var from := i + 1;
    i := i + 1;
    while true
      invariant from <= i <= MaxRow(ws)
      invariant Search(ws, labelCol, false, from) == Search(ws, labelCol, false, i)
      decreases MaxRow(ws) - i
    {
      var hit := Hit(ws, labelCol, false, i);
      if hit.Err? {
        return Err(hit.error);
      }
      if hit.value || i == MaxRow(ws) {
        break;
      }
      i := i + 1;
    }
    return Ok(i);
  }

  /** The first data row lies within the sheet (so the constructor's
      `first_data_row > max_row` check never fires); it is `max_row` when
      no sentinel row precedes the last row or no label row follows it, and
      otherwise it is the first label row after the first sentinel row. */
  lemma FirstDataRowSpec(ws: Worksheet, sentinelCol: nat, labelCol: nat)
    requires FirstDataRow(ws, sentinelCol, labelCol).Ok?
    ensures var r := FirstDataRow(ws, sentinelCol, labelCol).value;
            && 1 <= r <= MaxRow(ws)
            && var i := Search(ws, sentinelCol, true, 1).value;
               && (forall j | 1 <= j < i :: Hit(ws, sentinelCol, true, j) == Ok(false))
               && (i < MaxRow(ws) ==> Hit(ws, sentinelCol, true, i) == Ok(true))
               && (i < MaxRow(ws) ==> i < r && forall j | i < j < r :: Hit(ws, labelCol, false, j) == Ok(false))
               && (r < MaxRow(ws) ==> Hit(ws, labelCol, false, r) == Ok(true))
  {
    SearchFinds(ws, sentinelCol, true, 1);
    var i := Search(ws, sentinelCol, true, 1).value;
    if i < MaxRow(ws) {
      SearchFinds(ws, labelCol, false, i + 1);
    }
  }

  // ---------------------------------------------------------------------
  // The wb_parser object

  /** A resolved line: `line(identifier, test_no, row)`. */
  datatype Line = Line(identifier: string, testNo: int, row: int)

  function LineOf(e: Entry): Line {
    Line(e.identifier, e.testNo, e.row)
  }

  function LinesOf(entries: seq<Entry>): (ls: seq<Line>)
    ensures |ls| == |entries|
    ensures forall i | 0 <= i < |entries| :: ls[i] == LineOf(entries[i])
  {
    seq(|entries|, i requires 0 <= i < |entries| => LineOf(entries[i]))
  }

  function KeyOf(l: Line): (string, int) {
    (l.identifier, l.testNo)
  }

  /** `wb_parser.sh`, `.first_data_row`, `.lines` and `.unhidden_lines`. */
  datatype WbParser = WbParser(sh: Worksheet, firstDataRow: int, lines: seq<Line>, unhiddenLines: seq<Line>)

  predicate Visible(ws: Worksheet, l: Line) {
    !RowAt(ws, l.row).hidden
  }

  /** `[x for x in lines if not rd[x.row].hidden]`. */
  function Unhidden(ws: Worksheet, lines: seq<Line>): seq<Line> {
    Filter(lines, (l: Line) => Visible(ws, l))
  }

  /** `wb_parser(wb_fname)` on the sheet `Template`. */
  function WbParserOf(ws: Worksheet): Result<WbParser, WbError> {
    match FirstDataRow(ws, 2, 1)
    case Err(e) => Err(e)
    case Ok(first) =>
      if first > MaxRow(ws) then Err(FirstRowPastEnd)
      else match Resolve(ws, 1, true, first, MaxRow(ws))
        case Err(e) => Err(Unresolved(e))
        case Ok(es) => Ok(WbParser(ws, first, LinesOf(es), Unhidden(ws, LinesOf(es))))
  }

  /** The constructor: find the first data row, resolve the lines with
      `parse_lines` (label column 1, `*` lines skipped, through `max_row`),
      keep the unhidden ones. */
  method NewWbParser(ws: Worksheet) returns (r: Result<WbParser, WbError>)
    ensures r == WbParserOf(ws)
  {
    var first := FindFirstDataRow(ws, 2, 1);
    if first.Err? {
      return Err(first.error);
    }
    if first.value > MaxRow(ws) {
      return Err(FirstRowPastEnd);
    }
    var lines := ResolveRows(ws, 1, true, first.value, MaxRow(ws));
    if lines.Err? {
      return Err(Unresolved(lines.error));
    }
    var ls := LinesOf(lines.value);
    return Ok(WbParser(ws, first.value, ls, Unhidden(ws, ls)));
  }

  /** What a parser holds: the first data row is within the sheet and never
      trips the constructor's check; the lines are the first data row and
      every later live label row, the first numbered 1 and all at least 1;
      the unhidden lines are the lines whose row is not hidden, in order. */
  lemma WbParserLines(ws: Worksheet)
    requires WbParserOf(ws).Ok?
    ensures var p := WbParserOf(ws).value;
            && 1 <= p.firstDataRow <= MaxRow(ws)
            && |p.lines| == 1 + |LiveRows(ws, 1, true, p.firstDataRow + 1, MaxRow(ws))|
            && p.lines[0].row == p.firstDataRow && p.lines[0].testNo == 1
            && (forall i | 0 <= i < |p.lines| :: p.lines[i].testNo >= 1)
            && (forall l :: l in p.unhiddenLines <==> l in p.lines && !RowAt(ws, l.row).hidden)
  {
    FirstDataRowSpec(ws, 2, 1);
    var first := FirstDataRow(ws, 2, 1).value;
    ResolvedLines(ws, 1, true, first, MaxRow(ws));
    UnhiddenMembers(ws, LinesOf(Resolve(ws, 1, true, first, MaxRow(ws)).value));
  }

  lemma UnhiddenMembers(ws: Worksheet, lines: seq<Line>)
    ensures forall l :: l in Unhidden(ws, lines) <==> l in lines && !RowAt(ws, l.row).hidden
  {
    FilterMembers(lines, (l: Line) => Visible(ws, l));
  }

  /** The lines of a successful resolution: the seed row first with count 1,
      then one line per later live row, each from a row after the seed row
      and no later than the last row read, all counted at least once. */
  lemma ResolvedLines(ws: Worksheet, col: nat, skipStars: bool, first: int, last: int)
    requires Resolve(ws, col, skipStars, first, last).Ok?
    ensures col < ws.maxColumn
    ensures var ls := LinesOf(Resolve(ws, col, skipStars, first, last).value);
            && |ls| == 1 + |LiveRows(ws, col, skipStars, first + 1, last)|
            && ls[0].row == first && ls[0].testNo == 1
            && (forall i | 0 <= i < |ls| :: ls[i].testNo >= 1 && (i > 0 ==> first < ls[i].row <= last))
  {
    ResolveLines(ws, col, skipStars, first, last);
    var es := Resolve(ws, col, skipStars, first, last).value;
    RowsOfLength(es);
    RowsOfFirst(es);
    LinesInRange(ws, col, skipStars, first, last);
  }

  lemma RowsOfFirst(entries: seq<Entry>)
    requires entries != []
    ensures RowsOf(entries)[0] == entries[0].row
    decreases |entries|
  {
    RowsOfLength(entries);
    if |entries| > 1 {
      RowsOfFirst(entries[..|entries| - 1]);
    }
  }

  /** The constructor never fails on the `first_data_row > max_row` check. */
  lemma NoFirstRowPastEnd(ws: Worksheet)
    ensures WbParserOf(ws) != Err(FirstRowPastEnd)
  {
    if FirstDataRow(ws, 2, 1).Ok? {
      FirstDataRowSpec(ws, 2, 1);
    }
  }

  predicate IsRoot(l: Line) {
    IndexOf(l.identifier, Sep).None?
  }

  /** The identifiers of the root lines among `ls`, in order. */
  function RootNames(ls: seq<Line>): seq<string> {
    var roots := Filter(ls, IsRoot);
    seq(|roots|, i requires 0 <= i < |roots| => roots[i].identifier)
  }

  /** Root names are taken line by line: the names of `ls + more` are
      those of `ls` followed by those of `more`, so order and repeats are
      those of the lines. */
  lemma RootNamesAppend(ls: seq<Line>, more: seq<Line>)
    ensures RootNames(ls + more) == RootNames(ls) + RootNames(more)
  {
    FilterAppend(ls, more, IsRoot);
  }

  /** `find_administered_tests`: the unhidden identifiers without `" | "`. */
  function AdministeredTests(p: WbParser): (r: seq<string>)
    ensures forall t :: t in r <==> exists l | l in p.unhiddenLines :: l.identifier == t && !Contains(t, Sep)
  {
    var roots := Filter(p.unhiddenLines, IsRoot);
    FilterMembers(p.unhiddenLines, IsRoot);
    var r := RootNames(p.unhiddenLines);
    assert forall t | t in r :: exists l | l in p.unhiddenLines :: l.identifier == t && !Contains(t, Sep) by {
      forall t | t in r ensures exists l | l in p.unhiddenLines :: l.identifier == t && !Contains(t, Sep) {
        var i :| 0 <= i < |r| && r[i] == t;
        assert roots[i] in roots;
      }
    }
    assert forall t | (exists l | l in p.unhiddenLines :: l.identifier == t && !Contains(t, Sep)) :: t in r by {
      forall t | exists l | l in p.unhiddenLines :: l.identifier == t && !Contains(t, Sep) ensures t in r {
        var l :| l in p.unhiddenLines && l.identifier == t && !Contains(t, Sep);
        assert l in roots;
        var i :| 0 <= i < |roots| && roots[i] == l;
        assert r[i] == t;
      }
    }
    r
  }

  // ---------------------------------------------------------------------
  // wb_parser.parse_data

  /** One row of `missing_lines`. */
  datatype MissingLine = MissingLine(identifier: string, testNo: int, row: int, col: int, name: string, value: Value)

  /** `results`, `new_lines` and `missing_lines`; a result's one-element
      list is represented by its value. */
  datatype Parsed = Parsed(results: map<string, Reading>, newLines: seq<Line>, missing: seq<MissingLine>)

  const ColNames: seq<string> := ["raw", "ss", "percentile", "notes"]

  /** `wb_parser.NAN_VALUES`: the placeholder texts and None. */
  const WbNanTexts: set<string> := {
    " --", "%tile", "9-Min", "BLUE", "Can.", "FM-1", "L", "LIM.", "Norm",
    "Performance Indicator", "R", "SS", "STD", "[ERR]", "[FORM]", "[NORM]",
    "[SPAN]", "[TIME]", "raw", "val"}

  predicate WbNan(v: Value) {
    v.Missing? || (v.Text? && v.s in WbNanTexts)
  }

  /** The `try` block: `sh[row][col].value` with Python indexing, NaN for a
      placeholder and for the IndexError. */
  function ReadSlot(ws: Worksheet, row: int, col: int): (r: Reading)
    ensures r.Got? <==> (-(ws.maxColumn as int) <= col < ws.maxColumn && !WbNan(CellAt(ws, row, col).value.value))
  {
    match CellAt(ws, row, col)
    case None => NaN
    case Some(cell) => if WbNan(cell.value) then NaN else Got(cell.value)
  }

  /** Slot `n` of a matched line with LUT variables `vars`. */
  function SlotStep(p: Parsed, ws: Worksheet, line: Line, vars: seq<string>, n: nat, offset: int): Result<Parsed, WbError>
    requires n < |vars|
  {
    var value := ReadSlot(ws, line.row, n + offset);
    if vars[n] != "" then Ok(p.(results := p.results[vars[n] := value]))
    else if value.NaN? then Ok(p)
    else if n >= |ColNames| then Err(NoSlotName(line.row, n))
    else Ok(p.(missing := p.missing + [MissingLine(line.identifier, line.testNo, line.row, n + offset, ColNames[n], value.v)]))
  }

  /** Slots `0 .. k-1` of a matched line. */
  function SlotsTo(p: Parsed, ws: Worksheet, line: Line, vars: seq<string>, offset: int, k: nat): Result<Parsed, WbError>
    requires k <= |vars|
  {
    if k == 0 then Ok(p)
    else match SlotsTo(p, ws, line, vars, offset, k - 1)
      case Err(e) => Err(e)
      case Ok(q) => SlotStep(q, ws, line, vars, k - 1, offset)
  }

  /** One unhidden line: its slots when its key is in the table, else a
      new line. */
  function LineStep(p: Parsed, ws: Worksheet, table: map<(string, int), seq<string>>, line: Line, offset: int): Result<Parsed, WbError> {
    if KeyOf(line) in table then SlotsTo(p, ws, line, table[KeyOf(line)], offset, |table[KeyOf(line)]|)
    else Ok(p.(newLines := p.newLines + [line]))
  }

  /** The first `k` lines, from empty tables. */
  function LinesTo(ws: Worksheet, table: map<(string, int), seq<string>>, lines: seq<Line>, offset: int, k: nat): Result<Parsed, WbError>
    requires k <= |lines|
  {
    if k == 0 then Ok(Parsed(map[], [], []))
    else match LinesTo(ws, table, lines, offset, k - 1)
      case Err(e) => Err(e)
      case Ok(p) => LineStep(p, ws, table, lines[k - 1], offset)
  }

  /** Timepoint `tp` reads its slots from column `2 + 4*(tp-1)` on. */
  function SlotOffset(tp: int): int {
    2 + 4 * (tp - 1)
  }

  /** `parse_data(lut, tp)` over the parser's unhidden lines. */
  function ParseData(ws: Worksheet, table: map<(string, int), seq<string>>, lines: seq<Line>, tp: int): Result<Parsed, WbError> {
    LinesTo(ws, table, lines, SlotOffset(tp), |lines|)
  }

  /** The inner `for n, variable in enumerate(rc_variables)` loop. */
  method ParseSlots(p: Parsed, ws: Worksheet, line: Line, vars: seq<string>, offset: int) returns (r: Result<Parsed, WbError>)
    ensures r == SlotsTo(p, ws, line, vars, offset, |vars|)
  {
    var results, missing := p.results, p.missing;
    var n := 0;
    while n < |vars|
      invariant 0 <= n <= |vars|
      invariant SlotsTo(p, ws, line, vars, offset, n) == Ok(Parsed(results, p.newLines, missing))
    {
      var value := ReadSlot(ws, line.row, n + offset);
      if vars[n] != "" {
        results := results[vars[n] := value];
      } else if value.Got? {
        if n >= |ColNames| {
          SlotsErrorPersists(p, ws, line, vars, offset, n + 1, |vars|);
          return Err(NoSlotName(line.row, n));
        }
        missing := missing + [MissingLine(line.identifier, line.testNo, line.row, n + offset, ColNames[n], value.v)];
      }
      n := n + 1;
    }
    return Ok(Parsed(results, p.newLines, missing));
  }

  lemma {:induction false} SlotsErrorPersists(p: Parsed, ws: Worksheet, line: Line, vars: seq<string>, offset: int, k: nat, m: nat)
    requires k <= m <= |vars|
    requires SlotsTo(p, ws, line, vars, offset, k).Err?
    ensures SlotsTo(p, ws, line, vars, offset, m) == SlotsTo(p, ws, line, vars, offset, k)
    decreases m - k
  {
    if m > k {
      SlotsErrorPersists(p, ws, line, vars, offset, k, m - 1);
    }
  }

  lemma {:induction false} LinesErrorPersists(ws: Worksheet, table: map<(string, int), seq<string>>, lines: seq<Line>, offset: int, k: nat, m: nat)
    requires k <= m <= |lines|
    requires LinesTo(ws, table, lines, offset, k).Err?
    ensures LinesTo(ws, table, lines, offset, m) == LinesTo(ws, table, lines, offset, k)
    decreases m - k
  {
    if m > k {
      LinesErrorPersists(ws, table, lines, offset, k, m - 1);
    }
  }

  /** `parse_data(lut, tp)`: the outer loop over the parser's unhidden
      lines, reading its sheet. */
  method ParseDataRows(p: WbParser, l: Lut.LookupTable, tp: int) returns (r: Result<Parsed, WbError>)
    ensures r == ParseData(p.sh, l.table, p.unhiddenLines, tp)
  {
    var ws, lines := p.sh, p.unhiddenLines;
    var offset := 2 + 4 * (tp - 1);
    var acc := Parsed(map[], [], []);
    var i := 0;
    while i < |lines|
      invariant 0 <= i <= |lines|
      invariant LinesTo(ws, l.table, lines, offset, i) == Ok(acc)
    {
      var line := lines[i];
      var key := (line.identifier, line.testNo);
      if key in l.table {
        var next := ParseSlots(acc, ws, line, l.table[key], offset);
        if next.Err? {
          LinesErrorPersists(ws, l.table, lines, offset, i + 1, |lines|);
          return next;
        }
        acc := next.value;
      } else {
        acc := acc.(newLines := acc.newLines + [line]);
      }
      i := i + 1;
    }
    return Ok(acc);
  }

  // What parse_data promises

  /** Slot `n` of `line` holds variable `v` in the table (`v` may be ''). */
  predicate Named(table: map<(string, int), seq<string>>, line: Line, n: int, v: string) {
    KeyOf(line) in table && 0 <= n < |table[KeyOf(line)]| && table[KeyOf(line)][n] == v
  }

  /** `[l for l in lines if (l.identifier, l.test_no) not in lut]`. */
  function Unmatched(table: map<(string, int), seq<string>>, lines: seq<Line>): seq<Line> {
    Filter(lines, (l: Line) => KeyOf(l) !in table)
  }

  lemma {:induction false} SlotsKeepNewLines(p: Parsed, ws: Worksheet, line: Line, vars: seq<string>, offset: int, k: nat)
    requires k <= |vars|
    requires SlotsTo(p, ws, line, vars, offset, k).Ok?
    ensures SlotsTo(p, ws, line, vars, offset, k).value.newLines == p.newLines
    decreases k
  {
    if k > 0 {
      SlotsKeepNewLines(p, ws, line, vars, offset, k - 1);
    }
  }

  /** The new lines are exactly the lines whose key the table lacks, in order. */
  lemma {:induction false} NewLinesUnmatched(ws: Worksheet, table: map<(string, int), seq<string>>, lines: seq<Line>, offset: int, k: nat)
    requires k <= |lines|
    requires LinesTo(ws, table, lines, offset, k).Ok?
    ensures LinesTo(ws, table, lines, offset, k).value.newLines == Unmatched(table, lines[..k])
    decreases k
  {
    if k > 0 {
      NewLinesUnmatched(ws, table, lines, offset, k - 1);
      assert lines[..k][..k - 1] == lines[..k - 1];
      var p := LinesTo(ws, table, lines, offset, k - 1).value;
      var line := lines[k - 1];
      if KeyOf(line) in table {
        SlotsKeepNewLines(p, ws, line, table[KeyOf(line)], offset, |table[KeyOf(line)]|);
      }
    }
  }

  /** After slots `0 .. k-1`, `v` has a result exactly when it had one or
      one of those slots names it. */
  lemma {:induction false} SlotsKeys(p: Parsed, ws: Worksheet, line: Line, vars: seq<string>, offset: int, k: nat, v: string)
    requires k <= |vars|
    requires SlotsTo(p, ws, line, vars, offset, k).Ok?
    ensures v in SlotsTo(p, ws, line, vars, offset, k).value.results
            <==> v in p.results || (v != "" && exists n | 0 <= n < k :: vars[n] == v)
    decreases k
  {
    if k > 0 {
      SlotsKeys(p, ws, line, vars, offset, k - 1, v);
    }
  }

  /** The result keys are exactly the non-empty variables named by a slot
      of a matched line. */
  lemma {:induction false} ResultKeys(ws: Worksheet, table: map<(string, int), seq<string>>, lines: seq<Line>, offset: int, k: nat, v: string)
    requires k <= |lines|
    requires LinesTo(ws, table, lines, offset, k).Ok?
    ensures v in LinesTo(ws, table, lines, offset, k).value.results
            <==> v != "" && exists i, n | 0 <= i < k :: Named(table, lines[i], n, v)
    decreases k
  {
    if k > 0 {
      ResultKeys(ws, table, lines, offset, k - 1, v);
      var p := LinesTo(ws, table, lines, offset, k - 1).value;
      var line := lines[k - 1];
      if KeyOf(line) in table {
        var vars := table[KeyOf(line)];
        SlotsKeys(p, ws, line, vars, offset, |vars|, v);
        if v != "" && exists n | 0 <= n < |vars| :: vars[n] == v {
          var n :| 0 <= n < |vars| && vars[n] == v;
          assert Named(table, lines[k - 1], n, v);
        }
        if exists i, n | 0 <= i < k :: Named(table, lines[i], n, v) {
          var i, n :| 0 <= i < k && Named(table, lines[i], n, v);
          if i == k - 1 {
            assert vars[n] == v;
          }
        }
      } else {
        if exists i, n | 0 <= i < k :: Named(table, lines[i], n, v) {
          var i, n :| 0 <= i < k && Named(table, lines[i], n, v);
          assert i < k - 1;
        }
      }
    }
  }

  /** Slots that do not name `v` leave its result alone. */
  lemma {:induction false} SlotsUntouched(p: Parsed, ws: Worksheet, line: Line, vars: seq<string>, offset: int, k: nat, v: string)
    requires k <= |vars|
    requires SlotsTo(p, ws, line, vars, offset, k).Ok?
    requires forall n | 0 <= n < k :: vars[n] != v
    requires v in p.results
    ensures v in SlotsTo(p, ws, line, vars, offset, k).value.results
    ensures SlotsTo(p, ws, line, vars, offset, k).value.results[v] == p.results[v]
    decreases k
  {
    if k > 0 {
      SlotsUntouched(p, ws, line, vars, offset, k - 1, v);
    }
  }

  /** Within a line, the last slot naming `v` sets its result. */
  lemma {:induction false} SlotsLastWins(p: Parsed, ws: Worksheet, line: Line, vars: seq<string>, offset: int, k: nat, n: nat, v: string)
    requires n < k <= |vars|
    requires SlotsTo(p, ws, line, vars, offset, k).Ok?
    requires vars[n] == v && v != ""
    requires forall m | n < m < k :: vars[m] != v
    ensures v in SlotsTo(p, ws, line, vars, offset, k).value.results
    ensures SlotsTo(p, ws, line, vars, offset, k).value.results[v] == ReadSlot(ws, line.row, n + offset)
    decreases k
  {
    if k == n + 1 {
    } else {
      SlotsLastWins(p, ws, line, vars, offset, k - 1, n, v);
    }
  }

  /** Last write wins: the result of `v` is the reading of the last slot
      that names it, over all matched lines in order. */
  lemma {:induction false} ResultLastWins(ws: Worksheet, table: map<(string, int), seq<string>>, lines: seq<Line>, offset: int, k: nat, i: nat, n: nat, v: string)
    requires i < k <= |lines|
    requires LinesTo(ws, table, lines, offset, k).Ok?
    requires Named(table, lines[i], n, v) && v != ""
    requires forall m | n < m < |table[KeyOf(lines[i])]| :: table[KeyOf(lines[i])][m] != v
    requires forall j, m | i < j < k :: !Named(table, lines[j], m, v)
    ensures v in LinesTo(ws, table, lines, offset, k).value.results
    ensures LinesTo(ws, table, lines, offset, k).value.results[v] == ReadSlot(ws, lines[i].row, n + offset)
    decreases k
  {
    var p := LinesTo(ws, table, lines, offset, k - 1).value;
    var line := lines[k - 1];
    if k == i + 1 {
      var vars := table[KeyOf(line)];
      SlotsLastWins(p, ws, line, vars, offset, |vars|, n, v);
    } else {
      ResultLastWins(ws, table, lines, offset, k - 1, i, n, v);
      if KeyOf(line) in table {
        var vars := table[KeyOf(line)];
        forall m | 0 <= m < |vars| ensures vars[m] != v {
          assert !Named(table, lines[k - 1], m, v);
        }
        SlotsUntouched(p, ws, line, vars, offset, |vars|, v);
      }
    }
  }

  /** A missing-lines row reports slot `n` of `line`: a slot with no
      variable whose cell holds a value that is not a placeholder. */
  predicate Reports(m: MissingLine, ws: Worksheet, table: map<(string, int), seq<string>>, line: Line, n: int, offset: int) {
    && Named(table, line, n, "")
    && n < |ColNames|
    && ReadSlot(ws, line.row, n + offset) == Got(m.value)
    && m == MissingLine(line.identifier, line.testNo, line.row, n + offset, ColNames[n], m.value)
  }

  /** Each of `ms[lo..]` reports one of the first `k` slots of `line`. */
  predicate ReportsFrom(ms: seq<MissingLine>, lo: int, ws: Worksheet, table: map<(string, int), seq<string>>, line: Line, k: int, offset: int) {
    forall j | lo <= j < |ms| && 0 <= j :: ReportsSome(ms[j], ws, table, line, k, offset)
  }

  predicate ReportsSome(m: MissingLine, ws: Worksheet, table: map<(string, int), seq<string>>, line: Line, k: int, offset: int) {
    exists n | 0 <= n < k :: Reports(m, ws, table, line, n, offset)
  }

  lemma {:induction false} SlotsMissing(p: Parsed, ws: Worksheet, table: map<(string, int), seq<string>>, line: Line, offset: int, k: nat)
    requires KeyOf(line) in table && k <= |table[KeyOf(line)]|
    requires SlotsTo(p, ws, line, table[KeyOf(line)], offset, k).Ok?
    ensures var q := SlotsTo(p, ws, line, table[KeyOf(line)], offset, k).value;
            && |p.missing| <= |q.missing| && q.missing[..|p.missing|] == p.missing
            && ReportsFrom(q.missing, |p.missing|, ws, table, line, k, offset)
    decreases k
  {
    if k > 0 {
      var vars := table[KeyOf(line)];
      SlotsMissing(p, ws, table, line, offset, k - 1);
      var q := SlotsTo(p, ws, line, vars, offset, k - 1).value;
      var r := SlotsTo(p, ws, line, vars, offset, k).value;
      assert r.missing == q.missing || r.missing == q.missing + [r.missing[|q.missing|]];
      forall j | |p.missing| <= j < |r.missing|
        ensures ReportsSome(r.missing[j], ws, table, line, k, offset)
      {
        if j < |q.missing| {
          assert r.missing[j] == q.missing[j];
          var n :| 0 <= n < k - 1 && Reports(q.missing[j], ws, table, line, n, offset);
        } else {
          assert Reports(r.missing[j], ws, table, line, k - 1, offset);
        }
      }
      assert r.missing[..|p.missing|] == q.missing[..|p.missing|];
    } else {
      assert p.missing[..|p.missing|] == p.missing;
    }
  }

  /** `m` reports a slot of one of the first `k` lines. */
  ghost predicate ReportedBy(m: MissingLine, ws: Worksheet, table: map<(string, int), seq<string>>, lines: seq<Line>, k: int, offset: int)
    requires k <= |lines|
  {
    exists i, n | 0 <= i < k :: Reports(m, ws, table, lines[i], n, offset)
  }

  /** Every missing-lines row reports an unnamed slot of a matched line
      that holds a value. */
  lemma {:induction false} MissingReported(ws: Worksheet, table: map<(string, int), seq<string>>, lines: seq<Line>, offset: int, k: nat)
    requires k <= |lines|
    requires LinesTo(ws, table, lines, offset, k).Ok?
    ensures var p := LinesTo(ws, table, lines, offset, k).value;
            forall j | 0 <= j < |p.missing| :: ReportedBy(p.missing[j], ws, table, lines, k, offset)
    decreases k
  {
    if k > 0 {
      MissingReported(ws, table, lines, offset, k - 1);
      var p := LinesTo(ws, table, lines, offset, k - 1).value;
      var q := LinesTo(ws, table, lines, offset, k).value;
      var line := lines[k - 1];
      if KeyOf(line) in table {
        SlotsMissing(p, ws, table, line, offset, |table[KeyOf(line)]|);
        forall j | 0 <= j < |q.missing| ensures ReportedBy(q.missing[j], ws, table, lines, k, offset) {
          if j < |p.missing| {
            assert q.missing[j] == p.missing[j];
            assert ReportedBy(p.missing[j], ws, table, lines, k - 1, offset);
            var i, n :| 0 <= i < k - 1 && Reports(p.missing[j], ws, table, lines[i], n, offset);
          } else {
            assert ReportsSome(q.missing[j], ws, table, line, |table[KeyOf(line)]|, offset);
            var n :| 0 <= n < |table[KeyOf(line)]| && Reports(q.missing[j], ws, table, line, n, offset);
            assert Reports(q.missing[j], ws, table, lines[k - 1], n, offset);
          }
        }
      } else {
        assert q.missing == p.missing;
        forall j | 0 <= j < |q.missing| ensures ReportedBy(q.missing[j], ws, table, lines, k, offset) {
          assert ReportedBy(p.missing[j], ws, table, lines, k - 1, offset);
          var i, n :| 0 <= i < k - 1 && Reports(p.missing[j], ws, table, lines[i], n, offset);
        }
      }
    }
  }

  /** The rows that slots `0 .. k-1` of a matched line report, in slot
      order: one for each slot with no variable, a column name and a cell
      that holds a value. */
  function SlotReports(ws: Worksheet, table: map<(string, int), seq<string>>, line: Line, offset: int, k: nat): seq<MissingLine>
    requires KeyOf(line) in table && k <= |table[KeyOf(line)]|
  {
    if k == 0 then []
    else
      var value := ReadSlot(ws, line.row, k - 1 + offset);
      SlotReports(ws, table, line, offset, k - 1)
      + if table[KeyOf(line)][k - 1] == "" && k - 1 < |ColNames| && value.Got?
        then [MissingLine(line.identifier, line.testNo, line.row, k - 1 + offset, ColNames[k - 1], value.v)]
        else []
  }

  /** The rows the first `k` lines report, line after line. */
  function MissingOf(ws: Worksheet, table: map<(string, int), seq<string>>, lines: seq<Line>, offset: int, k: nat): seq<MissingLine>
    requires k <= |lines|
  {
    if k == 0 then []
    else
      var line := lines[k - 1];
      MissingOf(ws, table, lines, offset, k - 1)
      + if KeyOf(line) in table then SlotReports(ws, table, line, offset, |table[KeyOf(line)]|) else []
  }

  lemma {:induction false} SlotsMissingExact(p: Parsed, ws: Worksheet, table: map<(string, int), seq<string>>, line: Line, offset: int, k: nat)
    requires KeyOf(line) in table && k <= |table[KeyOf(line)]|
    requires SlotsTo(p, ws, line, table[KeyOf(line)], offset, k).Ok?
    ensures SlotsTo(p, ws, line, table[KeyOf(line)], offset, k).value.missing == p.missing + SlotReports(ws, table, line, offset, k)
    decreases k
  {
    if k > 0 {
      SlotsMissingExact(p, ws, table, line, offset, k - 1);
      var q := SlotsTo(p, ws, line, table[KeyOf(line)], offset, k - 1).value;
      var tail := SlotsTo(p, ws, line, table[KeyOf(line)], offset, k).value.missing[|q.missing|..];
      assert SlotReports(ws, table, line, offset, k) == SlotReports(ws, table, line, offset, k - 1) + tail;
    } else {
      assert p.missing + [] == p.missing;
    }
  }

  /** A successful `parse_data` reports exactly the unnamed valued slots
      of the matched lines, in line order and then slot order. */
  lemma {:induction false} MissingInOrder(ws: Worksheet, table: map<(string, int), seq<string>>, lines: seq<Line>, offset: int, k: nat)
    requires k <= |lines|
    requires LinesTo(ws, table, lines, offset, k).Ok?
    ensures LinesTo(ws, table, lines, offset, k).value.missing == MissingOf(ws, table, lines, offset, k)
    decreases k
  {
    if k > 0 {
      MissingInOrder(ws, table, lines, offset, k - 1);
      var p := LinesTo(ws, table, lines, offset, k - 1).value;
      var line := lines[k - 1];
      if KeyOf(line) in table {
        SlotsMissingExact(p, ws, table, line, offset, |table[KeyOf(line)]|);
      } else {
        assert MissingOf(ws, table, lines, offset, k) == p.missing + [];
      }
    }
  }

  lemma {:induction false} SlotReportsHas(ws: Worksheet, table: map<(string, int), seq<string>>, line: Line, offset: int, k: nat, n: nat)
    requires KeyOf(line) in table && n < k <= |table[KeyOf(line)]|
    requires Named(table, line, n, "") && n < |ColNames| && ReadSlot(ws, line.row, n + offset).Got?
    ensures MissingLine(line.identifier, line.testNo, line.row, n + offset, ColNames[n], ReadSlot(ws, line.row, n + offset).v)
            in SlotReports(ws, table, line, offset, k)
    decreases k
  {
    if n < k - 1 {
      SlotReportsHas(ws, table, line, offset, k - 1, n);
    }
  }

  /** Every slot of a matched line that has no variable, has a column name
      and holds a value gives a missing-lines row. */
  lemma {:induction false} SlotReported(ws: Worksheet, table: map<(string, int), seq<string>>, lines: seq<Line>, offset: int, k: nat, i: nat, n: nat)
    requires i < k <= |lines|
    requires Named(table, lines[i], n, "") && n < |ColNames| && ReadSlot(ws, lines[i].row, n + offset).Got?
    ensures MissingLine(lines[i].identifier, lines[i].testNo, lines[i].row, n + offset, ColNames[n], ReadSlot(ws, lines[i].row, n + offset).v)
            in MissingOf(ws, table, lines, offset, k)
    decreases k
  {
    if i < k - 1 {
      SlotReported(ws, table, lines, offset, k - 1, i, n);
    } else {
      SlotReportsHas(ws, table, lines[i], offset, |table[KeyOf(lines[i])]|, n);
    }
  }

  /** A slot past the four column names: no variable, and a value. */
  predicate Unreportable(ws: Worksheet, table: map<(string, int), seq<string>>, line: Line, n: int, offset: int) {
    Named(table, line, n, "") && n >= |ColNames| && ReadSlot(ws, line.row, n + offset).Got?
  }

  lemma {:induction false} SlotsFail(p: Parsed, ws: Worksheet, table: map<(string, int), seq<string>>, line: Line, offset: int, k: nat)
    requires KeyOf(line) in table && k <= |table[KeyOf(line)]|
    ensures SlotsTo(p, ws, line, table[KeyOf(line)], offset, k).Err?
            <==> exists n | 0 <= n < k :: Unreportable(ws, table, line, n, offset)
    decreases k
  {
    if k > 0 {
      var vars := table[KeyOf(line)];
      SlotsFail(p, ws, table, line, offset, k - 1);
      if SlotsTo(p, ws, line, vars, offset, k - 1).Err? {
        SlotsErrorPersists(p, ws, line, vars, offset, k - 1, k);
      } else if SlotsTo(p, ws, line, vars, offset, k).Err? {
        assert Unreportable(ws, table, line, k - 1, offset);
      } else {
        assert !Unreportable(ws, table, line, k - 1, offset);
      }
    }
  }

  /** `parse_data` fails exactly when some matched line has a slot with no
      variable past the four column names whose cell holds a value. */
  lemma {:induction false} ParseDataFails(ws: Worksheet, table: map<(string, int), seq<string>>, lines: seq<Line>, offset: int, k: nat)
    requires k <= |lines|
    ensures LinesTo(ws, table, lines, offset, k).Err?
            <==> exists i, n | 0 <= i < k :: Unreportable(ws, table, lines[i], n, offset)
    decreases k
  {
    if k > 0 {
      ParseDataFails(ws, table, lines, offset, k - 1);
      var line := lines[k - 1];
      var prev := LinesTo(ws, table, lines, offset, k - 1);
      if prev.Ok? && KeyOf(line) in table {
        SlotsFail(prev.value, ws, table, line, offset, |table[KeyOf(line)]|);
      }
      if exists i, n | 0 <= i < k :: Unreportable(ws, table, lines[i], n, offset) {
        var i, n :| 0 <= i < k && Unreportable(ws, table, lines[i], n, offset);
        if i == k - 1 && prev.Ok? {
          assert 0 <= n < |table[KeyOf(line)]|;
        }
      }
      if prev.Ok? && KeyOf(line) in table && LinesTo(ws, table, lines, offset, k).Err? {
        var n :| 0 <= n < |table[KeyOf(line)]| && Unreportable(ws, table, line, n, offset);
        assert Unreportable(ws, table, lines[k - 1], n, offset);
      }
    }
  }

  // ---------------------------------------------------------------------
  // The peds_wb_parser object

  /** `peds_wb_parser.sh`, `.first_data_line` and `.identifiers`, each
      identifier `((identifier, test_no), row)` as a `Line`. */
  datatype PedsParser = PedsParser(sh: Worksheet, firstDataLine: int, identifiers: seq<Line>)

  /** `peds_wb_parser(wb_fname)`: sentinel column 3 and label column 2; the
      constructor does nothing when the first data line lies past the end;
      `get_all_identifiers` resolves column 2 without skipping `*` lines and
      stops before row `max_row`. */
  function PedsParserOf(ws: Worksheet): Result<PedsParser, WbError> {
    match FirstDataRow(ws, 3, 2)
    case Err(e) => Err(e)
    case Ok(first) =>
      match Resolve(ws, 2, false, first, MaxRow(ws) - 1)
      case Err(e) => Err(Unresolved(e))
      case Ok(es) => Ok(PedsParser(ws, first, LinesOf(es)))
  }

  method NewPedsParser(ws: Worksheet) returns (r: Result<PedsParser, WbError>)
    ensures r == PedsParserOf(ws)
  {
    var first := FindFirstDataRow(ws, 3, 2);
    if first.Err? {
      return Err(first.error);
    }
    var lines := ResolveRows(ws, 2, false, first.value, MaxRow(ws) - 1);
    if lines.Err? {
      return Err(Unresolved(lines.error));
    }
    return Ok(PedsParser(ws, first.value, LinesOf(lines.value)));
  }

  /** The peds identifiers are the first data line and every later live
      label row before the last row (the last row itself is never read). */
  lemma PedsParserLines(ws: Worksheet)
    requires PedsParserOf(ws).Ok?
    ensures var p := PedsParserOf(ws).value;
            && 1 <= p.firstDataLine <= MaxRow(ws)
            && |p.identifiers| == 1 + |LiveRows(ws, 2, false, p.firstDataLine + 1, MaxRow(ws) - 1)|
            && p.identifiers[0].testNo == 1
            && (forall i | 0 <= i < |p.identifiers| :: p.identifiers[i].testNo >= 1 && (i == 0 || p.identifiers[i].row < MaxRow(ws)))
  {
    FirstDataRowSpec(ws, 3, 2);
    ResolvedLines(ws, 2, false, FirstDataRow(ws, 3, 2).value, MaxRow(ws) - 1);
  }

  /** Every line after the seed line comes from a row after the seed row and
      no later than the last row read. */
  lemma LinesInRange(ws: Worksheet, col: nat, skipStars: bool, first: int, last: int)
    requires Resolve(ws, col, skipStars, first, last).Ok?
    ensures var es := Resolve(ws, col, skipStars, first, last).value;
            forall i | 0 < i < |es| :: first < es[i].row <= last
  {
    ResolveLines(ws, col, skipStars, first, last);
    var es := Resolve(ws, col, skipStars, first, last).value;
    RowsOfLength(es);
    var live := LiveRows(ws, col, skipStars, first + 1, last);
    LiveRowsSpec(ws, col, skipStars, first + 1, last);
    forall i | 0 < i < |es| ensures first < es[i].row <= last {
      RowsOfAt(es, i);
      assert RowsOf(es)[i] == live[i - 1];
      assert live[i - 1] in live;
    }
  }

  lemma {:induction false} RowsOfAt(entries: seq<Entry>, i: nat)
    requires i < |entries|
    ensures |RowsOf(entries)| == |entries| && RowsOf(entries)[i] == entries[i].row
    decreases |entries|
  {
    RowsOfLength(entries);
    if i < |entries| - 1 {
      RowsOfAt(entries[..|entries| - 1], i);
    }
  }

  /** `get_administered_tests`: the identifiers that split into one piece. */
  function PedsAdministeredTests(p: PedsParser): seq<string> {
    var roots := Filter(p.identifiers, (l: Line) => |Split(l.identifier, Sep)| == 1);
    seq(|roots|, i requires 0 <= i < |roots| => roots[i].identifier)
  }

  /** Both parsers pick the same root tests: one piece after splitting on
      `" | "` is no `" | "` at all. */
  lemma {:induction false} PedsAdministeredRoots(ls: seq<Line>)
    ensures Filter(ls, (l: Line) => |Split(l.identifier, Sep)| == 1) == Filter(ls, IsRoot)
    decreases |ls|
  {
    if ls != [] {
      PedsAdministeredRoots(ls[..|ls| - 1]);
      var l := ls[|ls| - 1];
      SplitSingle(l.identifier, Sep);
    }
  }

  // peds_wb_parser.parse_data

  /** The module's `NAN_VALUES`. */
  const PedsNanTexts: set<string> := {"#N/A", "#REF!", "#VALUE!", "RAW", "Score", ""}

  predicate PedsNan(v: Value) {
    v.Missing? || (v.Text? && v.s in PedsNanTexts)
  }

  /** `results` and `new_identifiers`. */
  datatype PedsParsed = PedsParsed(results: map<string, Reading>, newIdentifiers: seq<(string, int)>)

  /** Slot `n` of a matched line: only a named slot reads its cell, at
      column `3 + n`, and a read past the row tuple fails. */
  function PedsSlotStep(p: PedsParsed, ws: Worksheet, line: Line, vars: seq<string>, n: nat): Result<PedsParsed, WbError>
    requires n < |vars|
  {
    if vars[n] == "" then Ok(p)
    else match CellAt(ws, line.row, 3 + n)
      case None => Err(RowTooShort)
      case Some(cell) =>
        Ok(p.(results := p.results[vars[n] := if PedsNan(cell.value) then NaN else Got(cell.value)]))
  }

  function PedsSlotsTo(p: PedsParsed, ws: Worksheet, line: Line, vars: seq<string>, k: nat): Result<PedsParsed, WbError>
    requires k <= |vars|
  {
    if k == 0 then Ok(p)
    else match PedsSlotsTo(p, ws, line, vars, k - 1)
      case Err(e) => Err(e)
      case Ok(q) => PedsSlotStep(q, ws, line, vars, k - 1)
  }

  function PedsLineStep(p: PedsParsed, ws: Worksheet, table: map<(string, int), seq<string>>, line: Line): Result<PedsParsed, WbError> {
    if KeyOf(line) in table then PedsSlotsTo(p, ws, line, table[KeyOf(line)], |table[KeyOf(line)]|)
    else Ok(p.(newIdentifiers := p.newIdentifiers + [KeyOf(line)]))
  }

  /** `peds_wb_parser.parse_data(ped_lut)` over the first `k` identifiers. */
  function PedsLinesTo(ws: Worksheet, table: map<(string, int), seq<string>>, lines: seq<Line>, k: nat): Result<PedsParsed, WbError>
    requires k <= |lines|
  {
    if k == 0 then Ok(PedsParsed(map[], []))
    else match PedsLinesTo(ws, table, lines, k - 1)
      case Err(e) => Err(e)
      case Ok(p) => PedsLineStep(p, ws, table, lines[k - 1])
  }

  method PedsParseSlots(p: PedsParsed, ws: Worksheet, line: Line, vars: seq<string>) returns (r: Result<PedsParsed, WbError>)
    ensures r == PedsSlotsTo(p, ws, line, vars, |vars|)
  {
    var results := p.results;
    var n := 0;
    while n < |vars|
      invariant 0 <= n <= |vars|
      invariant PedsSlotsTo(p, ws, line, vars, n) == Ok(PedsParsed(results, p.newIdentifiers))
    {
      if vars[n] != "" {
        var cell := CellAt(ws, line.row, 3 + n);
        if cell.None? {
          PedsSlotsErrorPersists(p, ws, line, vars, n + 1, |vars|);
          return Err(RowTooShort);
        }
        var value := cell.value.value;
        if PedsNan(value) {
          results := results[vars[n] := NaN];
        } else {
          results := results[vars[n] := Got(value)];
        }
      }
      n := n + 1;
    }
    return Ok(PedsParsed(results, p.newIdentifiers));
  }

  lemma {:induction false} PedsSlotsErrorPersists(p: PedsParsed, ws: Worksheet, line: Line, vars: seq<string>, k: nat, m: nat)
    requires k <= m <= |vars|
    requires PedsSlotsTo(p, ws, line, vars, k).Err?
    ensures PedsSlotsTo(p, ws, line, vars, m) == PedsSlotsTo(p, ws, line, vars, k)
    decreases m - k
  {
    if m > k {
      PedsSlotsErrorPersists(p, ws, line, vars, k, m - 1);
    }
  }

  lemma {:induction false} PedsLinesErrorPersists(ws: Worksheet, table: map<(string, int), seq<string>>, lines: seq<Line>, k: nat, m: nat)
    requires k <= m <= |lines|
    requires PedsLinesTo(ws, table, lines, k).Err?
    ensures PedsLinesTo(ws, table, lines, m) == PedsLinesTo(ws, table, lines, k)
    decreases m - k
  {
    if m > k {
      PedsLinesErrorPersists(ws, table, lines, k, m - 1);
    }
  }

  /** `peds_wb_parser.parse_data(ped_lut)`: the loop over the parser's
      identifiers, reading its sheet. */
  method PedsParseData(p: PedsParser, table: map<(string, int), seq<string>>) returns (r: Result<PedsParsed, WbError>)
    ensures r == PedsLinesTo(p.sh, table, p.identifiers, |p.identifiers|)
  {
    var ws, lines := p.sh, p.identifiers;
    var acc := PedsParsed(map[], []);
    var i := 0;
    while i < |lines|
      invariant 0 <= i <= |lines|
      invariant PedsLinesTo(ws, table, lines, i) == Ok(acc)
    {
      var line := lines[i];
      var key := (line.identifier, line.testNo);
      if key in table {
        var next := PedsParseSlots(acc, ws, line, table[key]);
        if next.Err? {
          PedsLinesErrorPersists(ws, table, lines, i + 1, |lines|);
          return next;
        }
        acc := next.value;
      } else {
        acc := acc.(newIdentifiers := acc.newIdentifiers + [(line.identifier, line.testNo)]);
      }
      i := i + 1;
    }
    return Ok(acc);
  }

  lemma {:induction false} PedsSlotsKeep(p: PedsParsed, ws: Worksheet, line: Line, vars: seq<string>, k: nat, v: string)
    requires k <= |vars|
    requires PedsSlotsTo(p, ws, line, vars, k).Ok?
    ensures PedsSlotsTo(p, ws, line, vars, k).value.newIdentifiers == p.newIdentifiers
    ensures v in PedsSlotsTo(p, ws, line, vars, k).value.results
            <==> v in p.results || (v != "" && exists n | 0 <= n < k :: vars[n] == v)
    decreases k
  {
    if k > 0 {
      PedsSlotsKeep(p, ws, line, vars, k - 1, v);
    }
  }

  /** The new identifiers are the keys of the unmatched lines, in order, and
      the result keys are the non-empty variables of matched lines. */
  lemma {:induction false} PedsParseDataSpec(ws: Worksheet, table: map<(string, int), seq<string>>, lines: seq<Line>, k: nat, v: string)
    requires k <= |lines|
    requires PedsLinesTo(ws, table, lines, k).Ok?
    ensures var p := PedsLinesTo(ws, table, lines, k).value;
            && |p.newIdentifiers| == |Unmatched(table, lines[..k])|
            && (forall j | 0 <= j < |p.newIdentifiers| :: p.newIdentifiers[j] == KeyOf(Unmatched(table, lines[..k])[j]))
            && (v in p.results <==> v != "" && exists i, n | 0 <= i < k :: Named(table, lines[i], n, v))
    decreases k
  {
    if k > 0 {
      PedsParseDataSpec(ws, table, lines, k - 1, v);
      assert lines[..k][..k - 1] == lines[..k - 1];
      var p := PedsLinesTo(ws, table, lines, k - 1).value;
      var line := lines[k - 1];
      if KeyOf(line) in table {
        var vars := table[KeyOf(line)];
        PedsSlotsKeep(p, ws, line, vars, |vars|, v);
        if v != "" && exists n | 0 <= n < |vars| :: vars[n] == v {
          var n :| 0 <= n < |vars| && vars[n] == v;
          assert Named(table, lines[k - 1], n, v);
        }
        if exists i, n | 0 <= i < k :: Named(table, lines[i], n, v) {
          var i, n :| 0 <= i < k && Named(table, lines[i], n, v);
          if i == k - 1 {
            assert vars[n] == v;
          }
        }
      } else {
        if exists i, n | 0 <= i < k :: Named(table, lines[i], n, v) {
          var i, n :| 0 <= i < k && Named(table, lines[i], n, v);
          assert i < k - 1;
        }
      }
    }
  }

  /** Slots that do not name `v` leave its peds result alone. */
  lemma {:induction false} PedsSlotsUntouched(p: PedsParsed, ws: Worksheet, line: Line, vars: seq<string>, k: nat, v: string)
    requires k <= |vars|
    requires PedsSlotsTo(p, ws, line, vars, k).Ok?
    requires forall n | 0 <= n < k :: vars[n] != v
    requires v in p.results
    ensures v in PedsSlotsTo(p, ws, line, vars, k).value.results
    ensures PedsSlotsTo(p, ws, line, vars, k).value.results[v] == p.results[v]
    decreases k
  {
    if k > 0 {
      PedsSlotsUntouched(p, ws, line, vars, k - 1, v);
    }
  }

  /** Within a line, the last slot naming `v` reads column `3 + n`. */
  lemma {:induction false} PedsSlotsLastWins(p: PedsParsed, ws: Worksheet, line: Line, vars: seq<string>, k: nat, n: nat, v: string)
    requires n < k <= |vars|
    requires PedsSlotsTo(p, ws, line, vars, k).Ok?
    requires vars[n] == v && v != ""
    requires forall m | n < m < k :: vars[m] != v
    ensures CellAt(ws, line.row, 3 + n).Some?
    ensures var value := CellAt(ws, line.row, 3 + n).value.value;
            && v in PedsSlotsTo(p, ws, line, vars, k).value.results
            && PedsSlotsTo(p, ws, line, vars, k).value.results[v] == (if PedsNan(value) then NaN else Got(value))
    decreases k
  {
    if k == n + 1 {
    } else {
      PedsSlotsLastWins(p, ws, line, vars, k - 1, n, v);
    }
  }

  /** Last write wins: the peds result of `v` is the cell at column `3 + n`
      of the last line and slot naming it, NaN for a module placeholder. */
  lemma {:induction false} PedsResultLastWins(ws: Worksheet, table: map<(string, int), seq<string>>, lines: seq<Line>, k: nat, i: nat, n: nat, v: string)
    requires i < k <= |lines|
    requires PedsLinesTo(ws, table, lines, k).Ok?
    requires Named(table, lines[i], n, v) && v != ""
    requires forall m | n < m < |table[KeyOf(lines[i])]| :: table[KeyOf(lines[i])][m] != v
    requires forall j, m | i < j < k :: !Named(table, lines[j], m, v)
    ensures CellAt(ws, lines[i].row, 3 + n).Some?
    ensures var value := CellAt(ws, lines[i].row, 3 + n).value.value;
            && v in PedsLinesTo(ws, table, lines, k).value.results
            && PedsLinesTo(ws, table, lines, k).value.results[v] == (if PedsNan(value) then NaN else Got(value))
    decreases k
  {
    var p := PedsLinesTo(ws, table, lines, k - 1).value;
    var line := lines[k - 1];
    if k == i + 1 {
      var vars := table[KeyOf(line)];
      PedsSlotsLastWins(p, ws, line, vars, |vars|, n, v);
    } else {
      PedsResultLastWins(ws, table, lines, k - 1, i, n, v);
      if KeyOf(line) in table {
        var vars := table[KeyOf(line)];
        forall m | 0 <= m < |vars| ensures vars[m] != v {
          assert !Named(table, lines[k - 1], m, v);
        }
        PedsSlotsUntouched(p, ws, line, vars, |vars|, v);
      }
    }
  }

  /** A named slot of a matched line whose column `3 + n` lies past the
      row tuple. */
  predicate PedsUnreadable(ws: Worksheet, table: map<(string, int), seq<string>>, line: Line, n: int) {
    KeyOf(line) in table && 0 <= n < |table[KeyOf(line)]| && table[KeyOf(line)][n] != "" && 3 + n >= ws.maxColumn
  }

  lemma {:induction false} PedsSlotsFail(p: PedsParsed, ws: Worksheet, table: map<(string, int), seq<string>>, line: Line, k: nat)
    requires KeyOf(line) in table && k <= |table[KeyOf(line)]|
    ensures var r := PedsSlotsTo(p, ws, line, table[KeyOf(line)], k);
            && (r.Err? <==> exists n | 0 <= n < k :: PedsUnreadable(ws, table, line, n))
            && (r.Err? ==> r.error == RowTooShort)
    decreases k
  {
    if k > 0 {
      var vars := table[KeyOf(line)];
      PedsSlotsFail(p, ws, table, line, k - 1);
      if PedsSlotsTo(p, ws, line, vars, k - 1).Err? {
        PedsSlotsErrorPersists(p, ws, line, vars, k - 1, k);
      } else if PedsSlotsTo(p, ws, line, vars, k).Err? {
        assert PedsUnreadable(ws, table, line, k - 1);
      } else {
        assert !PedsUnreadable(ws, table, line, k - 1);
      }
    }
  }

  /** The peds `parse_data` fails, with the IndexError of a short row
      tuple, exactly when some matched line names a slot whose column
      `3 + n` lies past the row tuple. */
  lemma {:induction false} PedsParseDataFails(ws: Worksheet, table: map<(string, int), seq<string>>, lines: seq<Line>, k: nat)
    requires k <= |lines|
    ensures var r := PedsLinesTo(ws, table, lines, k);
            && (r.Err? <==> exists i, n | 0 <= i < k :: PedsUnreadable(ws, table, lines[i], n))
            && (r.Err? ==> r.error == RowTooShort)
    decreases k
  {
    if k > 0 {
      PedsParseDataFails(ws, table, lines, k - 1);
      var line := lines[k - 1];
      var prev := PedsLinesTo(ws, table, lines, k - 1);
      if prev.Ok? && KeyOf(line) in table {
        PedsSlotsFail(prev.value, ws, table, line, |table[KeyOf(line)]|);
      }
      if exists i, n | 0 <= i < k :: PedsUnreadable(ws, table, lines[i], n) {
        var i, n :| 0 <= i < k && PedsUnreadable(ws, table, lines[i], n);
        if i == k - 1 && prev.Ok? {
          assert 0 <= n < |table[KeyOf(line)]|;
        }
      }
      if prev.Ok? && KeyOf(line) in table && PedsLinesTo(ws, table, lines, k).Err? {
        var n :| 0 <= n < |table[KeyOf(line)]| && PedsUnreadable(ws, table, line, n);
        assert PedsUnreadable(ws, table, lines[k - 1], n);
      }
    }
  }
}
