/**
  From `upkeep/clinical_generate_variables.py`: deriving the clinical
  variable key (the rows kept, their redcap names and column numbers) and
  the indent headers of the Neuroscore 3.0 font-property table.
*/
module GenerateVariables {
  import opened Wrappers
  import opened PyStr
  import Lists

  datatype GenError =
    | NotOneChar(column: string)  // `ord` of a stripped column that is not one character (TypeError)
    | NoParent(index: nat)        // `indent_reference[cur_indent - 1]` before any such indent (KeyError)

  // ---------------------------------------------------------------------
  // The variable key

  /** One row of the `in` sheet; `None` is a null cell. */
  datatype InRow = InRow(tp: Option<real>, variable: string, worksheet: string, row: int, column: Option<string>)

  /** One row of the variables table written out. */
  datatype KeyRow = KeyRow(redcap: string, worksheet: string, row: int, column: Option<int>)

  /** `(data['tp'] == 1) | data['tp'].isnull()`. */
  predicate KeepTp(r: InRow) {
    r.tp.None? || r.tp == Some(1.0)
  }

  function Included(rows: seq<InRow>): seq<InRow> {
    Lists.Filter(rows, KeepTp)
  }

  /** The included rows are exactly the rows at time point 1 or without a
      time point, in table order. */
  lemma IncludedSpec(rows: seq<InRow>, more: seq<InRow>)
    ensures forall r :: r in Included(rows) <==> r in rows && (r.tp.None? || r.tp == Some(1.0))
    ensures Included(rows + more) == Included(rows) + Included(more)
  {
    Lists.FilterMembers(rows, KeepTp);
    Lists.FilterAppend(rows, more, KeepTp);
  }

  predicate IsDigit(c: char) {
    '0' <= c <= '9'
  }

  predicate AllDigits(s: string) {
    forall i | 0 <= i < |s| :: IsDigit(s[i])
  }

  /** Where the run of digits that ends `t` starts. */
  function DigitStart(t: string): (k: nat)
    ensures k <= |t| && AllDigits(t[k..])
    ensures k == 0 || !IsDigit(t[k - 1])
  {
    if t == [] || !IsDigit(t[|t| - 1]) then |t|
    else
      var k := DigitStart(t[..|t| - 1]);
      assert t[k..] == t[..|t| - 1][k..] + [t[|t| - 1]];
      k
  }

  /** `re.sub('_\d+$', '', t)` on a text without a final newline: the
      underscore and the digits that end the text are removed. */
  function StripDigitSuffix(t: string): (r: string)
    ensures r == t || (|r| + 1 < |t| && t[..|r|] == r && t[|r|] == '_' && AllDigits(t[|r| + 1..]))
  {
    var k := DigitStart(t);
    if 1 <= k < |t| && t[k - 1] == '_' then t[..k - 1] else t
  }

  /** `variable.str.replace('_\d+$', '')`: `$` also matches just before a
      final newline, which stays. */
  function RedcapName(v: string): string {
    if v != [] && v[|v| - 1] == '\n' then StripDigitSuffix(v[..|v| - 1]) + "\n"
    else StripDigitSuffix(v)
  }

  lemma {:induction false} DigitStartOf(prefix: string, ds: string)
    requires prefix != [] && !IsDigit(prefix[|prefix| - 1])
    requires AllDigits(ds)
    ensures DigitStart(prefix + ds) == |prefix|
    decreases |ds|
  {
    if ds == [] {
      assert prefix + ds == prefix;
    } else {
      var n := |ds| - 1;
      assert (prefix + ds)[..|prefix + ds| - 1] == prefix + ds[..n];
      DigitStartOf(prefix, ds[..n]);
    }
  }

  /** A variable numbered `_<digits>` loses exactly that number; a variable
      not ending in a digit keeps its name. */
  lemma RedcapNameSpec(base: string, ds: string, v: string)
    requires ds != [] && AllDigits(ds)
    ensures RedcapName(base + "_" + ds) == base
    ensures RedcapName(base + "_" + ds + "\n") == base + "\n"
    ensures v != [] && !IsDigit(v[|v| - 1]) && v[|v| - 1] != '\n' ==> RedcapName(v) == v
  {
    NumberedName(base, ds);
    var t := base + "_" + ds;
    assert (t + "\n")[..|t + "\n"| - 1] == t;
    assert t[|t| - 1] != '\n' by {
      assert t[|t| - 1] == ds[|ds| - 1];
    }
  }

  lemma NumberedName(base: string, ds: string)
    requires ds != [] && AllDigits(ds)
    ensures StripDigitSuffix(base + "_" + ds) == base
  {
    var t := base + "_" + ds;
    DigitStartOf(base + "_", ds);
    assert t[..|base|] == base;
  }

  /** `c.lower()` on one character (ASCII letters only). */
  function Lower(c: char): char {
    if 'A' <= c <= 'Z' then (c as int + 32) as char else c
  }

  /** The column conversion: a null stays null, a stripped column letter
      becomes `ord(letter.lower()) - 96`. */
  function ColumnNumber(column: Option<string>): (r: Result<Option<int>, GenError>)
    ensures column.None? ==> r == Ok(None)
    ensures r.Err? <==> column.Some? && |Strip(column.value)| != 1
    ensures r.Err? ==> r.error == NotOneChar(column.value)
    ensures r.Ok? && column.Some? ==> r.value.Some?
  {
    match column
    case None => Ok(None)
    case Some(s) =>
      var t := Strip(s);
      if |t| != 1 then Err(NotOneChar(s)) else Ok(Some(Lower(t[0]) as int - 96))
  }

  /** A letter, in either case and padded with whitespace, becomes its
      position in the alphabet, from a = 1 to z = 26. */
  lemma ColumnOfLetter(pre: string, c: char, post: string)
    requires AllSpace(pre) && AllSpace(post)
    requires 'a' <= c <= 'z' || 'A' <= c <= 'Z'
    ensures ColumnNumber(Some(pre + [c] + post)) == Ok(Some(Lower(c) as int - 'a' as int + 1))
    ensures 1 <= Lower(c) as int - 'a' as int + 1 <= 26
  {
    StripPadded(pre, [c], post);
  }

  /** The written row of an included row. */
  function KeyRowOf(r: InRow): (k: Result<KeyRow, GenError>)
    ensures k.Err? <==> r.column.Some? && |Strip(r.column.value)| != 1
    ensures k.Err? ==> k.error == NotOneChar(r.column.value)
    ensures r.column.None? ==> k == Ok(KeyRow(RedcapName(r.variable), r.worksheet, r.row, None))
    ensures k.Ok? ==> k.value == KeyRow(RedcapName(r.variable), r.worksheet, r.row, ColumnNumber(r.column).value)
  {
    match ColumnNumber(r.column)
    case Err(e) => Err(e)
    case Ok(col) => Ok(KeyRow(RedcapName(r.variable), r.worksheet, r.row, col))
  }

  /** The variable key of the `in` sheet: the included rows converted in
      order, stopping at the first column that cannot be converted. */
  function VariableKey(rows: seq<InRow>): Result<seq<KeyRow>, GenError> {
    var included := Included(rows);
    Lists.MapResult(included, KeyRowOf, |included|)
  }

  /** The key fails exactly when an included row's column cannot be
      converted, reporting the first; otherwise row `i` of the key is
      included row `i` with its redcap name and column number. */
  lemma VariableKeySpec(rows: seq<InRow>)
    ensures var included := Included(rows);
            && (VariableKey(rows).Err? <==> exists i | 0 <= i < |included| :: ColumnNumber(included[i].column).Err?)
            && (VariableKey(rows).Err? ==>
                  exists i | 0 <= i < |included| :: && ColumnNumber(included[i].column).Err?
                                                  && VariableKey(rows) == Err(ColumnNumber(included[i].column).error)
                                                  && forall j | 0 <= j < i :: ColumnNumber(included[j].column).Ok?)
            && (VariableKey(rows).Ok? ==>
                  && |VariableKey(rows).value| == |included|
                  && forall i | 0 <= i < |included| ::
                       && ColumnNumber(included[i].column).Ok?
                       && VariableKey(rows).value[i]
                          == KeyRow(RedcapName(included[i].variable), included[i].worksheet, included[i].row,
                                    ColumnNumber(included[i].column).value))
  {
    var included := Included(rows);
    Lists.MapResultFail(included, KeyRowOf, |included|);
    if VariableKey(rows).Ok? {
      Lists.MapResultContent(included, KeyRowOf, |included|);
    }
  }

  // ---------------------------------------------------------------------
  // The indent headers

  const FirstDataRow := 13

  /** One line of the font-property table; `None` is a null measure. */
  datatype FontLine = FontLine(measure: Option<string>, indentLevel: int)

  /** A line with a measure, with its spreadsheet row and adjusted indent. */
  datatype Entry = Entry(row: int, measure: string, indent: int)

  /** `str.match('^\s')`: the measure starts with whitespace and is indented
      one more level. */
  function Adjusted(measure: string, indentLevel: int): (indent: int)
    ensures indent == indentLevel + 1 <==> measure != [] && IsSpace(measure[0])
    ensures indent == indentLevel <==> !(measure != [] && IsSpace(measure[0]))
  {
    if measure != [] && IsSpace(measure[0]) then indentLevel + 1 else indentLevel
  }

  /** The first `k` lines numbered from `FIRST_DATA_ROW`, the lines without a
      measure dropped afterwards, the indent adjusted. */
  function EntriesTo(lines: seq<FontLine>, k: nat): seq<Entry>
    requires k <= |lines|
  {
    if k == 0 then []
    else
      var l := lines[k - 1];
      EntriesTo(lines, k - 1)
      + (if l.measure.Some? then [Entry(FirstDataRow + k - 1, l.measure.value, Adjusted(l.measure.value, l.indentLevel))] else [])
  }

  function Entries(lines: seq<FontLine>): seq<Entry> {
    EntriesTo(lines, |lines|)
  }

  /** The entries are the lines with a measure, in order: each keeps the row
      `13 + i` of its position `i` among all lines, so rows strictly
      increase, and each carries its measure and its adjusted indent. */
  lemma {:induction false} EntriesSpec(lines: seq<FontLine>, k: nat)
    requires k <= |lines|
    ensures var es := EntriesTo(lines, k);
            && |es| <= k
            && (forall a, b | 0 <= a < b < |es| :: es[a].row < es[b].row)
            && (forall e | e in es :: FirstDataRow <= e.row < FirstDataRow + k)
            && (forall i | 0 <= i < k && lines[i].measure.Some? ::
                  Entry(FirstDataRow + i, lines[i].measure.value, Adjusted(lines[i].measure.value, lines[i].indentLevel)) in es)
            && (forall e | e in es :: lines[e.row - FirstDataRow].measure == Some(e.measure)
                  && e.indent == Adjusted(e.measure, lines[e.row - FirstDataRow].indentLevel))
    decreases k
  {
    if k > 0 {
      EntriesSpec(lines, k - 1);
    }
  }

  /** The latest index before `k` whose entry has indent `level`. */
  function LatestAt(es: seq<Entry>, level: int, k: nat): (r: Option<nat>)
    requires k <= |es|
    ensures r.Some? ==> r.value < k && es[r.value].indent == level
    ensures r.Some? ==> forall j | r.value < j < k :: es[j].indent != level
    ensures r.None? ==> forall j | 0 <= j < k :: es[j].indent != level
  {
    if k == 0 then None
    else if es[k - 1].indent == level then Some(k - 1)
    else LatestAt(es, level, k - 1)
  }

  /** The header of entry `i`: itself at indent 0, else the most recent
      earlier measure one level up. */
  function ParentOf(es: seq<Entry>, i: nat): Option<string>
    requires i < |es|
  {
    if es[i].indent == 0 then Some(es[i].measure)
    else match LatestAt(es, es[i].indent - 1, i)
      case None => None
      case Some(j) => Some(es[j].measure)
  }

  /** The headers of the first `k` entries, or the first entry without one. */
  function HeadersTo(es: seq<Entry>, k: nat): Result<seq<string>, GenError>
    requires k <= |es|
  {
    if k == 0 then Ok([])
    else match HeadersTo(es, k - 1)
      case Err(e) => Err(e)
      case Ok(hs) =>
        match ParentOf(es, k - 1)
        case None => Err(NoParent(k - 1))
        case Some(h) => Ok(hs + [h])
  }

  /** `indent_reference` holds, for each indent seen among the first `k`
      entries, the latest measure at that indent. */
  ghost predicate References(es: seq<Entry>, k: nat, reference: map<int, string>)
    requires k <= |es|
  {
    && (forall level :: level in reference <==> LatestAt(es, level, k).Some?)
    && (forall level | level in reference :: reference[level] == es[LatestAt(es, level, k).value].measure)
  }

  /** The loop of the source over the measures and their indents. */
  method IndentHeaders(es: seq<Entry>) returns (r: Result<seq<string>, GenError>)
    ensures r == HeadersTo(es, |es|)
  {
    var indentHeader: seq<string> := [];
    var indentReference: map<int, string> := map[];
    for k := 0 to |es|
      invariant HeadersTo(es, k) == Ok(indentHeader)
      invariant References(es, k, indentReference)
    {
      var variable, curIndent := es[k].measure, es[k].indent;
      indentReference := indentReference[curIndent := variable];
      assert References(es, k + 1, indentReference);
      if curIndent == 0 {
        indentHeader := indentHeader + [variable];
      } else {
        if curIndent - 1 !in indentReference {
          HeadersFail(es, k + 1, |es|);
          return Err(NoParent(k));
        }
        indentHeader := indentHeader + [indentReference[curIndent - 1]];
      }
    }
    r := Ok(indentHeader);
  }

  lemma {:induction false} HeadersFail(es: seq<Entry>, k: nat, m: nat)
    requires k <= m <= |es|
    requires HeadersTo(es, k).Err?
    ensures HeadersTo(es, m) == HeadersTo(es, k)
    decreases m - k
  {
    if m > k {
      HeadersFail(es, k, m - 1);
    }
  }

  /** Entry `i` is not at indent 0 and no earlier entry is one level up. */
  predicate Orphan(es: seq<Entry>, i: nat)
    requires i < |es|
  {
    es[i].indent != 0 && forall j | 0 <= j < i :: es[j].indent != es[i].indent - 1
  }

  /** `h` is entry `i`'s own measure at indent 0, and else the measure of
      the latest earlier entry one level up. */
  predicate HeaderOf(es: seq<Entry>, i: nat, h: string)
    requires i < |es|
  {
    if es[i].indent == 0 then h == es[i].measure
    else exists j | 0 <= j < i ::
      && es[j].indent == es[i].indent - 1
      && (forall m | j < m < i :: es[m].indent != es[i].indent - 1)
      && h == es[j].measure
  }

  lemma ParentOfSpec(es: seq<Entry>, i: nat)
    requires i < |es|
    ensures ParentOf(es, i).None? <==> Orphan(es, i)
    ensures ParentOf(es, i).Some? ==> HeaderOf(es, i, ParentOf(es, i).value)
  {
    if es[i].indent != 0 && LatestAt(es, es[i].indent - 1, i).Some? {
      var j := LatestAt(es, es[i].indent - 1, i).value;
      assert !Orphan(es, i) by {
        assert es[j].indent == es[i].indent - 1;
      }
    }
  }

  /** The headers fail exactly when some entry is an orphan, and then at the
      first one. */
  lemma {:induction false} HeadersFailSpec(es: seq<Entry>, k: nat)
    requires k <= |es|
    ensures HeadersTo(es, k).Err? <==> exists i | 0 <= i < k :: Orphan(es, i)
    ensures HeadersTo(es, k).Err? ==>
              exists i | 0 <= i < k :: HeadersTo(es, k) == Err(NoParent(i)) && Orphan(es, i)
                                     && forall j | 0 <= j < i :: !Orphan(es, j)
    decreases k
  {
    if k > 0 {
      HeadersFailSpec(es, k - 1);
      ParentOfSpec(es, k - 1);
    }
  }

  /** Otherwise header `i` is entry `i`'s measure at indent 0 and else the
      measure of the latest earlier entry one level up. */
  lemma {:induction false} HeadersSpec(es: seq<Entry>, k: nat)
    requires k <= |es|
    requires HeadersTo(es, k).Ok?
    ensures |HeadersTo(es, k).value| == k
    ensures forall i | 0 <= i < k :: HeaderOf(es, i, HeadersTo(es, k).value[i])
    decreases k
  {
    if k > 0 {
      HeadersSpec(es, k - 1);
      ParentOfSpec(es, k - 1);
    }
  }

  /** The indent headers of the font-property table. */
  function FontHeaders(lines: seq<FontLine>): Result<seq<string>, GenError> {
    var es := Entries(lines);
    HeadersTo(es, |es|)
  }
}
