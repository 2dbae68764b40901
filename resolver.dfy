/**
  The indentation-driven line-identifier resolver shared by `wb_parser.parse_lines`,
  `peds_wb_parser.get_all_identifiers` and `initialize_lut`.

  It walks one label column of a worksheet from a seed row down to a last row
  and rebuilds the test -> subtest -> item hierarchy with a stack of labels:
  every live row yields an `Entry` named by the `" | "`-joined stack, the
  current root test and the number of times that root has started a block.

  `Seed`, `Step` and `RunTo` are the state machine as functions; `ResolveRows`
  is the loop the source runs, proved to compute `Resolve`.
*/
module Resolver {
  import opened Wrappers
  import opened PyStr
  import opened Sheet

  const Sep := " | "

  /** One resolved line: `" | ".join(unique_stack)`, the current root test,
      `test_counter[current_test]` and the worksheet row. */
  datatype Entry = Entry(identifier: string, test: string, testNo: int, row: int)

  datatype ResolveError =
    | ColumnOutOfRange         // the label column lies outside the row tuple (IndexError)
    | SeedNotText(row: int)    // `" | ".join` of a seed value that is not text (TypeError)
    | LabelNotText(row: int)   // `.strip()` on a truthy value that is not text (AttributeError)
    | DedentUnderflow(row: int) // the second `pop()` of a dedent empties the stack (IndexError)

  /** The loop's variables: `unique_stack`, `p_indent`, `indent_mapper`,
      `p_indent_key`, `test_counter` and `current_test`. */
  datatype State = State(
    stack: seq<string>,
    pIndent: nat,
    mapper: map<nat, nat>,
    pKey: nat,
    counter: map<string, int>,
    current: string)

  /** What the loop keeps true between rows.  Ranks in `mapper` are given in
      order of first appearance, so they are pairwise distinct and the most
      recently added key holds the largest one. */
  ghost predicate Valid(st: State) {
    && |st.stack| >= 1
    && st.pKey in st.mapper
    && st.current in st.counter
    && (forall t | t in st.counter :: st.counter[t] >= 1)
    && (st.pIndent == 0 ==> |st.stack| == 1)
  }

  /** How a row's label is treated: skipped, processed, or fatal. */
  datatype Label = Skip | Live(raw: string) | NotText

  /** The row filter: a falsy value, a blank label and (where `skipStars`)
      a label starting with `*` after stripping are skipped; a truthy value
      that is not text cannot be stripped. */
  function Classify(v: Value, skipStars: bool): Label {
    if !Truthy(v) then Skip
    else match v
      case Text(s) =>
        (match FirstNonSpace(s)
         case None => Skip
         case Some(c) => if skipStars && c == '*' then Skip else Live(s))
      case _ => NotText
  }

  /** The raw indent of a label: the cell's indent, plus one when the label
      starts with a space. */
  function RawIndent(s: string, indent: nat): nat {
    if StartsWith(s, " ") then indent + 1 else indent
  }

  /** Rank translation: a raw indent already in the mapper keeps its rank; an
      unseen one gets the rank of the most recently added key plus one and
      becomes that key.  Returns the rank, the new mapper and the new key. */
  function Translate(mapper: map<nat, nat>, pKey: nat, c: nat): (nat, map<nat, nat>, nat)
    requires pKey in mapper
  {
    if c in mapper then (mapper[c], mapper, pKey)
    else (mapper[pKey] + 1, mapper[c := mapper[pKey] + 1], c)
  }

  /** Ranks given in order of first appearance: pairwise distinct, the
      largest at the most recently added key. */
  ghost predicate Ranking(mapper: map<nat, nat>, pKey: nat) {
    && pKey in mapper
    && (forall k | k in mapper :: mapper[k] <= mapper[pKey])
    && (forall j, k | j in mapper && k in mapper && j != k :: mapper[j] != mapper[k])
  }

  /** Translation keeps the ranking: an unseen indent gets a rank above every
      rank already given, and a seen one changes nothing. */
  lemma TranslateKeepsRanking(mapper: map<nat, nat>, pKey: nat, c: nat)
    requires Ranking(mapper, pKey)
    ensures var (rank, m, k) := Translate(mapper, pKey, c);
            Ranking(m, k) && c in m && m[c] == rank
            && (c !in mapper ==> forall j | j in mapper :: mapper[j] < rank)
  {
  }

  /** `test_counter[t] += 1`, starting from 1 for an unseen `t`. */
  function Bump(counter: map<string, int>, t: string): map<string, int> {
    counter[t := (if t in counter then counter[t] else 0) + 1]
  }

  /** The line emitted after a row: the joined stack and the current count. */
  function EntryOf(st: State, row: int): Entry
    requires st.current in st.counter
  {
    Entry(Join(st.stack, Sep), st.current, st.counter[st.current], row)
  }

  /** One live row with raw label `s` and cell indent `indent` at `row`. */
  function Step(st: State, s: string, indent: nat, row: int): (r: Result<State, ResolveError>)
    requires Valid(st)
    ensures r.Ok? ==> Valid(r.value)
    ensures r.Err? <==> Translate(st.mapper, st.pKey, RawIndent(s, indent)).0 < st.pIndent
                        && Translate(st.mapper, st.pKey, RawIndent(s, indent)).0 != 0
                        && |st.stack| < 2
  {
    var (rank, mapper, pKey) := Translate(st.mapper, st.pKey, RawIndent(s, indent));
    Restack(st, rank, mapper, pKey, Strip(s), row)
  }

  /** What a row of rank `rank` and stripped label `text` does to the stack,
      the counter and the mapper, given the mapper after translation. */
  function Restack(st: State, rank: nat, mapper: map<nat, nat>, pKey: nat, text: string, row: int): Result<State, ResolveError>
    requires |st.stack| >= 1
  {
    if rank == st.pIndent then
      var stack := st.stack[..|st.stack| - 1] + [text];
      if rank == 0 then Ok(State(stack, rank, mapper, pKey, Bump(st.counter, text), text))
      else Ok(State(stack, rank, mapper, pKey, st.counter, st.current))
    else if rank > st.pIndent then
      Ok(State(st.stack + [text], rank, mapper, pKey, st.counter, st.current))
    else if rank == 0 then
      Ok(State([text], 0, map[0 := 0], 0, Bump(st.counter, text), text))
    else if |st.stack| < 2 then
      Err(DedentUnderflow(row))
    else
      Ok(State(st.stack[..|st.stack| - 2] + [text], rank, mapper, pKey, st.counter, st.current))
  }

  /** The row starts a block of its root test (its rank is 0). */
  predicate StartsBlock(st: State, s: string, indent: nat)
    requires st.pKey in st.mapper
  {
    Translate(st.mapper, st.pKey, RawIndent(s, indent)).0 == 0
  }

  /** The state after the seed row: its raw value (neither stripped nor
      indent-bumped) is the whole stack and the first root test, and its raw
      cell indent is both `p_indent` and the only key of the mapper. */
  function Seed(cell: Cell, first: int): (r: Result<State, ResolveError>)
    ensures r.Ok? ==> Valid(r.value)
  {
    match cell.value
    case Text(s) => Ok(State([s], cell.indent, map[cell.indent := 0], cell.indent, map[s := 1], s))
    case _ => Err(SeedNotText(first))
  }

  /** The state of the walk, the lines emitted so far and, per line, whether
      its row started a block. */
  datatype Trace = Trace(state: State, entries: seq<Entry>, starts: seq<bool>)

  /** One row of the walk: skipped, fatal, or stepped with its line emitted. */
  function Advance(tr: Trace, cell: Cell, skipStars: bool, row: int): (r: Result<Trace, ResolveError>)
    requires Valid(tr.state) && |tr.entries| == |tr.starts| >= 1
    ensures r.Ok? ==> Valid(r.value.state) && |r.value.entries| == |r.value.starts| >= 1
  {
    match Classify(cell.value, skipStars)
    case Skip => Ok(tr)
    case NotText => Err(LabelNotText(row))
    case Live(s) =>
      match Step(tr.state, s, cell.indent, row)
      case Err(e) => Err(e)
      case Ok(st) =>
        Ok(Trace(st, tr.entries + [EntryOf(st, row)],
                 tr.starts + [StartsBlock(tr.state, s, cell.indent)]))
  }

  /** The walk after the seed row `first` and every row up to `upto`. */
  function RunTo(ws: Worksheet, col: nat, skipStars: bool, first: int, upto: int): (r: Result<Trace, ResolveError>)
    requires col < ws.maxColumn
    requires first <= upto
    ensures r.Ok? ==> Valid(r.value.state)
    ensures r.Ok? ==> |r.value.entries| == |r.value.starts| >= 1
    decreases upto - first
  {
    if upto == first then
      match Seed(At(ws, first, col), first)
      case Err(e) => Err(e)
      case Ok(st) => Ok(Trace(st, [EntryOf(st, first)], [true]))
    else
      match RunTo(ws, col, skipStars, first, upto - 1)
      case Err(e) => Err(e)
      case Ok(tr) => Advance(tr, At(ws, upto, col), skipStars, upto)
  }

  /** A walk that fails keeps failing with the same error. */
  lemma {:induction false} ErrorPersists(ws: Worksheet, col: nat, skipStars: bool, first: int, mid: int, upto: int)
    requires col < ws.maxColumn
    requires first <= mid <= upto
    requires RunTo(ws, col, skipStars, first, mid).Err?
    ensures RunTo(ws, col, skipStars, first, upto) == RunTo(ws, col, skipStars, first, mid)
    decreases upto - mid
  {
    if upto > mid {
      ErrorPersists(ws, col, skipStars, first, mid, upto - 1);
      var prev := RunTo(ws, col, skipStars, first, upto - 1);
      assert prev.Err?;
      assert RunTo(ws, col, skipStars, first, upto) == Err(prev.error);
    }
  }

  /** Resolve the label column `col` from the seed row `first` through row
      `last` (no row after the seed when `last <= first`). */
  function Resolve(ws: Worksheet, col: nat, skipStars: bool, first: int, last: int): Result<seq<Entry>, ResolveError>
  {
    if col >= ws.maxColumn then Err(ColumnOutOfRange)
    else
      match RunTo(ws, col, skipStars, first, if last < first then first else last)
      case Err(e) => Err(e)
      case Ok(tr) => Ok(tr.entries)
  }

  // ---------------------------------------------------------------------
  // What a step does to the stack, the counter and the current test

  /** A row starts a block exactly when its rank is 0; then the stack is its
      stripped label alone, that label becomes the current test and its count
      goes up by one.  Any other row leaves the test and the counter alone. */
  lemma StepBlock(st: State, s: string, indent: nat, row: int)
    requires Valid(st) && Step(st, s, indent, row).Ok?
    ensures var next := Step(st, s, indent, row).value;
            if StartsBlock(st, s, indent) then
              next.stack == [Strip(s)] && next.current == Strip(s)
              && next.counter == Bump(st.counter, Strip(s))
            else
              next.current == st.current && next.counter == st.counter
  {
    var rank := Translate(st.mapper, st.pKey, RawIndent(s, indent)).0;
    if rank == 0 && rank == st.pIndent {
      assert |st.stack| == 1;
      assert st.stack[..|st.stack| - 1] == [];
    }
  }

  /** The stack stays a path: the new top is the stripped label and what lies
      under it is a prefix of the old stack.  Its height follows the rank:
      unchanged on an equal rank, one more on a deeper rank, one less on a
      shallower nonzero rank, and one on rank 0. */
  lemma StepStack(st: State, s: string, indent: nat, row: int)
    requires Valid(st) && Step(st, s, indent, row).Ok?
    ensures var next := Step(st, s, indent, row).value;
            var rank := Translate(st.mapper, st.pKey, RawIndent(s, indent)).0;
            && |next.stack| >= 1
            && next.stack[|next.stack| - 1] == Strip(s)
            && next.stack[..|next.stack| - 1] <= st.stack
            && next.pIndent == rank
            && (rank == 0 ==> |next.stack| == 1)
            && (rank != 0 && rank == st.pIndent ==> |next.stack| == |st.stack|)
            && (rank > st.pIndent ==> |next.stack| == |st.stack| + 1)
            && (rank != 0 && rank < st.pIndent ==> |next.stack| == |st.stack| - 1)
  {
    var next := Step(st, s, indent, row).value;
    assert next.stack[..|next.stack| - 1] <= st.stack;
  }

  /** Every step keeps the mapper a ranking: a dedent to rank 0 restarts it
      as `{0: 0}`, and any other step translates through it. */
  lemma StepRanking(st: State, s: string, indent: nat, row: int)
    requires Valid(st) && Ranking(st.mapper, st.pKey) && Step(st, s, indent, row).Ok?
    ensures Ranking(Step(st, s, indent, row).value.mapper, Step(st, s, indent, row).value.pKey)
  {
    TranslateKeepsRanking(st.mapper, st.pKey, RawIndent(s, indent));
  }

  /** Along a whole walk the ranks in the mapper are pairwise distinct and
      the most recently added indent holds the largest. */
  lemma {:induction false} WalkRanking(ws: Worksheet, col: nat, skipStars: bool, first: int, upto: int)
    requires col < ws.maxColumn && first <= upto
    requires RunTo(ws, col, skipStars, first, upto).Ok?
    ensures var st := RunTo(ws, col, skipStars, first, upto).value.state;
            Ranking(st.mapper, st.pKey)
    decreases upto - first
  {
    if upto > first {
      WalkRanking(ws, col, skipStars, first, upto - 1);
      var prev := RunTo(ws, col, skipStars, first, upto - 1).value;
      var cell := At(ws, upto, col);
      assert RunTo(ws, col, skipStars, first, upto) == Advance(prev, cell, skipStars, upto);
      match Classify(cell.value, skipStars)
      case Skip =>
      case Live(s) =>
        StepRanking(prev.state, s, cell.indent, upto);
    }
  }

  // ---------------------------------------------------------------------
  // Block counts

  function Last<T>(s: seq<T>): T
    requires |s| > 0
  {
    s[|s| - 1]
  }

  /** How many of the first `n` lines start a block of the root test `t`. */
  function BlockCount(entries: seq<Entry>, starts: seq<bool>, t: string, n: nat): nat
    requires n <= |entries| && n <= |starts|
  {
    if n == 0 then 0
    else BlockCount(entries, starts, t, n - 1) + (if starts[n - 1] && entries[n - 1].test == t then 1 else 0)
  }

  lemma {:induction false} BlockCountPrefix(entries: seq<Entry>, starts: seq<bool>, e: Entry, b: bool, t: string, n: nat)
    requires n <= |entries| && n <= |starts|
    ensures BlockCount(entries + [e], starts + [b], t, n) == BlockCount(entries, starts, t, n)
    decreases n
  {
    if n > 0 {
      BlockCountPrefix(entries, starts, e, b, t, n - 1);
    }
  }

  /** The meaning of the emitted lines: the last line shows the current stack
      and test; the counter holds, per test, how many blocks it started; every
      line's test number is the count of blocks of its test up to and
      including that line; a block-starting line is named by its test alone;
      any other line keeps the test and number of the line before it. */
  ghost predicate Counted(tr: Trace) {
    && |tr.entries| == |tr.starts| >= 1
    && tr.starts[0]
    && Last(tr.entries).test == tr.state.current
    && Last(tr.entries).identifier == Join(tr.state.stack, Sep)
    && Totals(tr)
    && Numbered(tr.entries, tr.starts)
    && RootsNamed(tr.entries, tr.starts)
    && Continued(tr.entries, tr.starts)
  }

  /** The counter holds, per test, how many blocks it started. */
  ghost predicate Totals(tr: Trace)
    requires |tr.entries| == |tr.starts|
  {
    forall t :: BlockCount(tr.entries, tr.starts, t, |tr.entries|)
                == if t in tr.state.counter then tr.state.counter[t] else 0
  }

  /** Every line's test number counts the blocks of its test so far. */
  ghost predicate Numbered(entries: seq<Entry>, starts: seq<bool>)
    requires |entries| == |starts|
  {
    forall i | 0 <= i < |entries| :: entries[i].testNo == BlockCount(entries, starts, entries[i].test, i + 1)
  }

  /** A block-starting line is named by its test alone. */
  ghost predicate RootsNamed(entries: seq<Entry>, starts: seq<bool>)
    requires |entries| == |starts|
  {
    forall i | 0 <= i < |entries| && starts[i] :: entries[i].identifier == entries[i].test
  }

  /** Any other line keeps the test and number of the line before it. */
  ghost predicate Continued(entries: seq<Entry>, starts: seq<bool>)
    requires |entries| == |starts|
  {
    forall i | 0 < i < |entries| && !starts[i] ::
      entries[i].test == entries[i - 1].test && entries[i].testNo == entries[i - 1].testNo
  }

  /** The counter after a row that starts a block of `x` (or of no test). */
  ghost predicate CounterAfter(old_: map<string, int>, counter: map<string, int>, b: bool, x: string) {
    if b then counter == Bump(old_, x) else counter == old_
  }

  lemma ExtendTotals(tr: Trace, st: State, e: Entry, b: bool, x: string)
    requires |tr.entries| == |tr.starts| && Totals(tr)
    requires CounterAfter(tr.state.counter, st.counter, b, x) && (b ==> e.test == x)
    ensures Totals(Trace(st, tr.entries + [e], tr.starts + [b]))
  {
    var es, ss := tr.entries + [e], tr.starts + [b];
    var n := |tr.entries|;
    forall t
      ensures BlockCount(es, ss, t, n + 1) == if t in st.counter then st.counter[t] else 0
    {
      BlockCountPrefix(tr.entries, tr.starts, e, b, t, n);
    }
  }

  lemma ExtendNumbered(entries: seq<Entry>, starts: seq<bool>, e: Entry, b: bool)
    requires |entries| == |starts| && Numbered(entries, starts)
    requires e.testNo == BlockCount(entries + [e], starts + [b], e.test, |entries| + 1)
    ensures Numbered(entries + [e], starts + [b])
  {
    var es, ss := entries + [e], starts + [b];
    forall i | 0 <= i < |es|
      ensures es[i].testNo == BlockCount(es, ss, es[i].test, i + 1)
    {
      if i < |entries| {
        BlockCountPrefix(entries, starts, e, b, es[i].test, i + 1);
      }
    }
  }

  /** Appending the line of a row keeps `Counted`, given what the row did to
      the test and the counter. */
  lemma ExtendCounted(tr: Trace, st: State, row: int, b: bool, x: string)
    requires Counted(tr) && st.current in st.counter
    requires b ==> st.stack == [x] && st.current == x && st.counter == Bump(tr.state.counter, x)
    requires !b ==> st.current == tr.state.current && st.counter == tr.state.counter
    ensures Counted(Trace(st, tr.entries + [EntryOf(st, row)], tr.starts + [b]))
  {
    var e := EntryOf(st, row);
    var next := Trace(st, tr.entries + [e], tr.starts + [b]);
    var n := |tr.entries|;
    assert CounterAfter(tr.state.counter, st.counter, b, x);
    ExtendTotals(tr, st, e, b, x);
    assert e.testNo == BlockCount(next.entries, next.starts, e.test, n + 1);
    ExtendNumbered(tr.entries, tr.starts, e, b);
    if b {
      assert Join([x], Sep) == x;
    }
    ExtendRootsNamed(tr.entries, tr.starts, e, b);
    assert Last(tr.entries).testNo == BlockCount(tr.entries, tr.starts, Last(tr.entries).test, n);
    ExtendContinued(tr.entries, tr.starts, e, b);
  }

  lemma ExtendRootsNamed(entries: seq<Entry>, starts: seq<bool>, e: Entry, b: bool)
    requires |entries| == |starts| && RootsNamed(entries, starts)
    requires b ==> e.identifier == e.test
    ensures RootsNamed(entries + [e], starts + [b])
  {
  }

  lemma ExtendContinued(entries: seq<Entry>, starts: seq<bool>, e: Entry, b: bool)
    requires |entries| == |starts| >= 1 && Continued(entries, starts)
    requires !b ==> e.test == Last(entries).test && e.testNo == Last(entries).testNo
    ensures Continued(entries + [e], starts + [b])
  {
  }

  lemma AdvanceCounted(tr: Trace, cell: Cell, skipStars: bool, row: int)
    requires Valid(tr.state) && |tr.entries| == |tr.starts| >= 1 && Counted(tr)
    requires Advance(tr, cell, skipStars, row).Ok?
    ensures Counted(Advance(tr, cell, skipStars, row).value)
  {
    match Classify(cell.value, skipStars)
    case Skip =>
    case Live(s) =>
      StepBlock(tr.state, s, cell.indent, row);
      var st := Step(tr.state, s, cell.indent, row).value;
      ExtendCounted(tr, st, row, StartsBlock(tr.state, s, cell.indent), Strip(s));
  }

  /** Every walk that gets through its rows has lines with these meanings. */
  lemma {:induction false} WalkCounted(ws: Worksheet, col: nat, skipStars: bool, first: int, upto: int)
    requires col < ws.maxColumn && first <= upto
    requires RunTo(ws, col, skipStars, first, upto).Ok?
    ensures Counted(RunTo(ws, col, skipStars, first, upto).value)
    decreases upto - first
  {
    if upto > first {
      RunToNext(ws, col, skipStars, first, upto);
      WalkCounted(ws, col, skipStars, first, upto - 1);
      var tr := RunTo(ws, col, skipStars, first, upto - 1).value;
      AdvanceCounted(tr, At(ws, upto, col), skipStars, upto);
    }
  }

  /** A walk that gets through one more row got through the rows before it
      and then advanced over that row. */
  lemma RunToNext(ws: Worksheet, col: nat, skipStars: bool, first: int, upto: int)
    requires col < ws.maxColumn && first < upto
    requires RunTo(ws, col, skipStars, first, upto).Ok?
    ensures RunTo(ws, col, skipStars, first, upto - 1).Ok?
    ensures RunTo(ws, col, skipStars, first, upto)
            == Advance(RunTo(ws, col, skipStars, first, upto - 1).value, At(ws, upto, col), skipStars, upto)
  {
  }

  // ---------------------------------------------------------------------
  // Which rows emit lines

  /** The rows from `lo` through `hi` whose label is live, in order. */
  function LiveRows(ws: Worksheet, col: nat, skipStars: bool, lo: int, hi: int): seq<int>
    requires col < ws.maxColumn
    decreases hi - lo
  {
    if hi < lo then []
    else LiveRows(ws, col, skipStars, lo, hi - 1)
         + (if Classify(At(ws, hi, col).value, skipStars).Live? then [hi] else [])
  }

  /** `LiveRows` holds exactly the rows in range with a live label, each once
      and in increasing order. */
  lemma {:induction false} LiveRowsSpec(ws: Worksheet, col: nat, skipStars: bool, lo: int, hi: int)
    requires col < ws.maxColumn
    ensures var r := LiveRows(ws, col, skipStars, lo, hi);
            && (forall x :: x in r <==> lo <= x <= hi && Classify(At(ws, x, col).value, skipStars).Live?)
            && (forall i, j | 0 <= i < j < |r| :: r[i] < r[j])
    decreases hi - lo
  {
    if hi >= lo {
      LiveRowsSpec(ws, col, skipStars, lo, hi - 1);
      LiveRowsNext(ws, col, skipStars, lo, hi);
      var front := LiveRows(ws, col, skipStars, lo, hi - 1);
      assert forall i | 0 <= i < |front| :: front[i] in front;
    }
  }

  /** The worksheet rows of the lines, in order. */
  function RowsOf(entries: seq<Entry>): seq<int> {
    if entries == [] then [] else RowsOf(entries[..|entries| - 1]) + [Last(entries).row]
  }

  lemma {:induction false} RowsOfLength(entries: seq<Entry>)
    ensures |RowsOf(entries)| == |entries|
    decreases |entries|
  {
    if entries != [] {
      RowsOfLength(entries[..|entries| - 1]);
    }
  }

  lemma RowsOfSnoc(entries: seq<Entry>, e: Entry)
    ensures RowsOf(entries + [e]) == RowsOf(entries) + [e.row]
  {
    assert (entries + [e])[..|entries|] == entries;
  }

  /** A walk that gets through its rows emits the seed row and then exactly
      the live rows after it, in increasing order. */
  lemma {:induction false} WalkRows(ws: Worksheet, col: nat, skipStars: bool, first: int, upto: int)
    requires col < ws.maxColumn && first <= upto
    requires RunTo(ws, col, skipStars, first, upto).Ok?
    ensures RowsOf(RunTo(ws, col, skipStars, first, upto).value.entries)
            == [first] + LiveRows(ws, col, skipStars, first + 1, upto)
    decreases upto - first
  {
    if upto > first {
      WalkRowsNext(ws, col, skipStars, first, upto);
      WalkRows(ws, col, skipStars, first, upto - 1);
      LiveRowsNext(ws, col, skipStars, first + 1, upto);
      var tail := if Classify(At(ws, upto, col).value, skipStars).Live? then [upto] else [];
      var live := LiveRows(ws, col, skipStars, first + 1, upto - 1);
      assert [first] + live + tail == [first] + (live + tail);
    }
  }

  lemma LiveRowsNext(ws: Worksheet, col: nat, skipStars: bool, lo: int, hi: int)
    requires col < ws.maxColumn && lo <= hi
    ensures LiveRows(ws, col, skipStars, lo, hi)
            == LiveRows(ws, col, skipStars, lo, hi - 1)
               + (if Classify(At(ws, hi, col).value, skipStars).Live? then [hi] else [])
  {
  }

  /** One more row adds its own row number to the rows of the lines exactly
      when its label is live. */
  lemma WalkRowsNext(ws: Worksheet, col: nat, skipStars: bool, first: int, upto: int)
    requires col < ws.maxColumn && first < upto
    requires RunTo(ws, col, skipStars, first, upto).Ok?
    ensures RunTo(ws, col, skipStars, first, upto - 1).Ok?
    ensures RowsOf(RunTo(ws, col, skipStars, first, upto).value.entries)
            == RowsOf(RunTo(ws, col, skipStars, first, upto - 1).value.entries)
               + (if Classify(At(ws, upto, col).value, skipStars).Live? then [upto] else [])
  {
    var prev := RunTo(ws, col, skipStars, first, upto - 1).value;
    AdvanceRows(prev, At(ws, upto, col), skipStars, upto);
  }

  lemma AdvanceRows(tr: Trace, cell: Cell, skipStars: bool, row: int)
    requires Valid(tr.state) && |tr.entries| == |tr.starts| >= 1
    requires Advance(tr, cell, skipStars, row).Ok?
    ensures RowsOf(Advance(tr, cell, skipStars, row).value.entries)
            == RowsOf(tr.entries) + (if Classify(cell.value, skipStars).Live? then [row] else [])
  {
    match Classify(cell.value, skipStars)
    case Skip =>
    case Live(s) =>
      RowsOfSnoc(tr.entries, EntryOf(Step(tr.state, s, cell.indent, row).value, row));
  }

  /** A walk that gets through its rows meets no label that is not text. */
  lemma {:induction false} WalkAllText(ws: Worksheet, col: nat, skipStars: bool, first: int, upto: int)
    requires col < ws.maxColumn && first <= upto
    requires RunTo(ws, col, skipStars, first, upto).Ok?
    ensures forall r | first < r <= upto :: !Classify(At(ws, r, col).value, skipStars).NotText?
    decreases upto - first
  {
    if upto > first {
      WalkTextNext(ws, col, skipStars, first, upto);
      WalkAllText(ws, col, skipStars, first, upto - 1);
      forall r | first < r <= upto
        ensures !Classify(At(ws, r, col).value, skipStars).NotText?
      {
        if r < upto {
          assert first < r <= upto - 1;
        }
      }
    }
  }

  /** A walk that gets through one more row got through the rows before it,
      and that row's label is text. */
  lemma WalkTextNext(ws: Worksheet, col: nat, skipStars: bool, first: int, upto: int)
    requires col < ws.maxColumn && first < upto
    requires RunTo(ws, col, skipStars, first, upto).Ok?
    ensures RunTo(ws, col, skipStars, first, upto - 1).Ok?
    ensures !Classify(At(ws, upto, col).value, skipStars).NotText?
  {
    RunToNext(ws, col, skipStars, first, upto);
  }

  /** Every line's test number is at least 1, and the seed line's is 1. */
  lemma {:induction false} CountedPositive(tr: Trace, i: nat)
    requires Counted(tr) && i < |tr.entries|
    ensures tr.entries[i].testNo >= 1
    ensures i == 0 ==> tr.entries[i].testNo == 1
    decreases i
  {
    var es, ss := tr.entries, tr.starts;
    if ss[i] {
      assert BlockCount(es, ss, es[i].test, i + 1) >= 1;
      if i == 0 {
        assert BlockCount(es, ss, es[0].test, 0) == 0;
      }
    } else {
      CountedPositive(tr, i - 1);
    }
  }

  /** What a successful resolution promises: one line for the seed row and
      one for each later live row through `last`, in row order; the seed
      line has test number 1 and every line a number of at least 1. */
  lemma ResolveLines(ws: Worksheet, col: nat, skipStars: bool, first: int, last: int)
    requires Resolve(ws, col, skipStars, first, last).Ok?
    ensures col < ws.maxColumn
    ensures var es := Resolve(ws, col, skipStars, first, last).value;
            && RowsOf(es) == [first] + LiveRows(ws, col, skipStars, first + 1, last)
            && es[0].testNo == 1
            && (forall i | 0 <= i < |es| :: es[i].testNo >= 1)
  {
    var upto := if last < first then first else last;
    WalkRows(ws, col, skipStars, first, upto);
    WalkCounted(ws, col, skipStars, first, upto);
    var tr := RunTo(ws, col, skipStars, first, upto).value;
    forall i | 0 <= i < |tr.entries|
      ensures tr.entries[i].testNo >= 1
    {
      CountedPositive(tr, i);
    }
    CountedPositive(tr, 0);
    if last < first {
      assert LiveRows(ws, col, skipStars, first + 1, last) == [];
      assert LiveRows(ws, col, skipStars, first + 1, first) == [];
    }
  }

  /** A row whose label is skipped leaves the walk as it is. */
  lemma WalkSkip(ws: Worksheet, col: nat, skipStars: bool, first: int, done: int, upto: int, tr: Trace)
    requires col < ws.maxColumn && first <= done && upto == done + 1
    requires RunTo(ws, col, skipStars, first, done) == Ok(tr)
    requires Classify(At(ws, upto, col).value, skipStars) == Skip
    ensures RunTo(ws, col, skipStars, first, upto) == Ok(tr)
  {
  }

  /** A live row that steps the state to `st` emits the line for `st`. */
  lemma WalkLive(ws: Worksheet, col: nat, skipStars: bool, first: int, done: int, upto: int, tr: Trace, st: State)
    requires col < ws.maxColumn && first <= done && upto == done + 1
    requires RunTo(ws, col, skipStars, first, done) == Ok(tr)
    requires Classify(At(ws, upto, col).value, skipStars).Live?
    requires Step(tr.state, Classify(At(ws, upto, col).value, skipStars).raw, At(ws, upto, col).indent, upto) == Ok(st)
    ensures RunTo(ws, col, skipStars, first, upto)
            == Ok(Trace(st, tr.entries + [EntryOf(st, upto)],
                        tr.starts + [StartsBlock(tr.state, Classify(At(ws, upto, col).value, skipStars).raw, At(ws, upto, col).indent)]))
  {
  }

  /** A row whose label is not text, or whose step fails, ends the walk with
      that error. */
  lemma WalkFails(ws: Worksheet, col: nat, skipStars: bool, first: int, done: int, upto: int, stop: int, tr: Trace, e: ResolveError)
    requires col < ws.maxColumn && first <= done && upto == done + 1 && upto <= stop
    requires RunTo(ws, col, skipStars, first, done) == Ok(tr)
    requires Classify(At(ws, upto, col).value, skipStars).NotText? ==> e == LabelNotText(upto)
    requires Classify(At(ws, upto, col).value, skipStars).Live? ==>
               Step(tr.state, Classify(At(ws, upto, col).value, skipStars).raw, At(ws, upto, col).indent, upto) == Err(e)
    requires !Classify(At(ws, upto, col).value, skipStars).Skip?
    ensures RunTo(ws, col, skipStars, first, stop) == Err(e)
  {
    ErrorPersists(ws, col, skipStars, first, upto, stop);
  }

  /** The rank of a live row's label, updating the mapper and its last key
      as the source's loop does. */
  method RankOf(mapper: map<nat, nat>, pKey: nat, cText: string, indent: nat)
    returns (rank: nat, indentMapper: map<nat, nat>, pIndentKey: nat)
    requires pKey in mapper
    ensures (rank, indentMapper, pIndentKey) == Translate(mapper, pKey, RawIndent(cText, indent))
  {
    indentMapper, pIndentKey := mapper, pKey;
    var cIndent := indent;
    if StartsWith(cText, " ") {
      cIndent := cIndent + 1;
    }
    if cIndent !in indentMapper {
      indentMapper := indentMapper[cIndent := indentMapper[pIndentKey] + 1];
      pIndentKey := cIndent;
    }
    rank := indentMapper[cIndent];
  }

  /** One live row as the source's loop body handles it, on the loop's
      mutable variables. */
  method StepRow(st: State, cText: string, indent: nat, row: int) returns (r: Result<State, ResolveError>)
    requires Valid(st)
    ensures r == Step(st, cText, indent, row)
  {
    var rank, indentMapper, pIndentKey := RankOf(st.mapper, st.pKey, cText, indent);
    var text := Strip(cText);
    r := RestackRow(st, rank, indentMapper, pIndentKey, text, row);
  }

  /** The stack, counter and mapper updates of the loop body. */
  method RestackRow(st: State, rank: nat, mapper: map<nat, nat>, pKey: nat, text: string, row: int)
    returns (r: Result<State, ResolveError>)
    requires |st.stack| >= 1
    ensures r == Restack(st, rank, mapper, pKey, text, row)
  {
    var uniqueStack, testCounter, currentTest := st.stack, st.counter, st.current;
    var indentMapper, pIndentKey := mapper, pKey;
    if rank == st.pIndent {
      uniqueStack := uniqueStack[..|uniqueStack| - 1] + [text];
      if rank == 0 {
        currentTest := text;
        testCounter := Bump(testCounter, text);
      }
    } else if rank > st.pIndent {
      uniqueStack := uniqueStack + [text];
    } else {
      if rank == 0 {
        uniqueStack := [];
        assert uniqueStack + [text] == [text];
        currentTest := text;
        testCounter := Bump(testCounter, text);
        indentMapper := map[rank := 0];
        pIndentKey := rank;
      } else {
        if |uniqueStack| < 2 {
          return Err(DedentUnderflow(row));
        }
        uniqueStack := uniqueStack[..|uniqueStack| - 2];
      }
      uniqueStack := uniqueStack + [text];
    }
    return Ok(State(uniqueStack, rank, indentMapper, pIndentKey, testCounter, currentTest));
  }

  /** The resolver loop with the source's mutable variables. */
  method ResolveRows(ws: Worksheet, col: nat, skipStars: bool, first: int, last: int)
    returns (r: Result<seq<Entry>, ResolveError>)
    ensures r == Resolve(ws, col, skipStars, first, last)
  {
    if col >= ws.maxColumn {
      return Err(ColumnOutOfRange);
    }
    var stop := if last < first then first else last;
    var seed := At(ws, first, col);
    if !seed.value.Text? {
      ErrorPersists(ws, col, skipStars, first, first, stop);
      return Err(SeedNotText(first));
    }
    var currentTest := seed.value.s;
    var state := State([currentTest], seed.indent, map[seed.indent := 0], seed.indent, map[currentTest := 1], currentTest);
    var output := [EntryOf(state, first)];
    ghost var starts := [true];
    assert RunTo(ws, col, skipStars, first, first) == Ok(Trace(state, output, starts));

    var currentLine := first + 1;
    ghost var done := first;
    while currentLine <= stop
      invariant first <= done <= stop && currentLine == done + 1
      invariant RunTo(ws, col, skipStars, first, done) == Ok(Trace(state, output, starts))
    {
      var cell := At(ws, currentLine, col);
      var kind := Classify(cell.value, skipStars);
      if kind.NotText? {
        WalkFails(ws, col, skipStars, first, done, currentLine, stop, Trace(state, output, starts), LabelNotText(currentLine));
        return Err(LabelNotText(currentLine));
      } else if kind.Live? {
        ghost var start := StartsBlock(state, kind.raw, cell.indent);
        var next := StepRow(state, kind.raw, cell.indent, currentLine);
        if next.Err? {
          WalkFails(ws, col, skipStars, first, done, currentLine, stop, Trace(state, output, starts), next.error);
          return Err(next.error);
        }
        WalkLive(ws, col, skipStars, first, done, currentLine, Trace(state, output, starts), next.value);
        state := next.value;
        output := output + [EntryOf(state, currentLine)];
        starts := starts + [start];
      } else {
        WalkSkip(ws, col, skipStars, first, done, currentLine, Trace(state, output, starts));
      }
      done := currentLine;
      currentLine := currentLine + 1;
    }
    assert done == stop;
    return Ok(output);
  }
}
