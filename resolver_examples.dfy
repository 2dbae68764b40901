/**
  Worked examples of the resolver on short label columns.  Each example
  holds for any labels that are already stripped and live, so it covers
  every sheet whose label column starts with the rows it names.
*/
module ResolverExamples {
  import opened Wrappers
  import opened PyStr
  import opened Sheet
  import opened Resolver

  /** A two-column sheet whose rows 1, 2, ... hold the given cells in
      column index 1. */
  function Labels(cells: seq<Cell>): Worksheet {
    Worksheet(2, seq(|cells|, i requires 0 <= i < |cells| => Row([Blank, cells[i]], false)))
  }

  /** Every column the examples below ask for exists. */
  lemma LabelsAt(cells: seq<Cell>, i: nat)
    requires i < |cells|
    ensures 1 < Labels(cells).maxColumn && At(Labels(cells), i + 1, 1) == cells[i]
  {
  }

  /** A label with no outer whitespace that does not start with `*`. */
  predicate Plain(s: string) {
    |s| > 0 && !IsSpace(s[0]) && s[0] != '*' && Strip(s) == s
  }

  /** A plain label is live and adds nothing to its cell's indent. */
  lemma PlainLive(s: string)
    requires Plain(s)
    ensures Classify(Text(s), true) == Live(s)
    ensures forall indent: nat :: RawIndent(s, indent) == indent
  {
    assert FirstNonSpace(s) == Some(s[0]);
    assert !StartsWith(s, " ") by {
      assert s[..1][0] == s[0];
    }
  }

  /** Any one letter other than a space or `*` is a plain label. */
  lemma PlainLetter(c: char)
    requires !IsSpace(c) && c != '*'
    ensures Plain([c])
  {
    assert [c][..0] == [];
  }

  /** One live row of a walk over column 1, spelled out. */
  lemma NextLine(ws: Worksheet, upto: int, tr: Trace, s: string, indent: nat, st: State, e: Entry, b: bool)
    requires 1 < ws.maxColumn && 1 < upto
    requires RunTo(ws, 1, true, 1, upto - 1) == Ok(tr)
    requires At(ws, upto, 1) == Cell(Text(s), indent) && Classify(Text(s), true) == Live(s)
    requires Step(tr.state, s, indent, upto) == Ok(st)
    requires EntryOf(st, upto) == e && StartsBlock(tr.state, s, indent) == b
    ensures RunTo(ws, 1, true, 1, upto) == Ok(Trace(st, tr.entries + [e], tr.starts + [b]))
  {
    WalkLive(ws, 1, true, 1, upto - 1, upto, tr, st);
  }

  /** A step is the restacking of its translated rank and stripped label. */
  lemma StepOf(st: State, s: string, indent: nat, row: int, rank: nat, mapper: map<nat, nat>, pKey: nat)
    requires Valid(st) && Plain(s)
    requires Translate(st.mapper, st.pKey, indent) == (rank, mapper, pKey)
    ensures Step(st, s, indent, row) == Restack(st, rank, mapper, pKey, s, row)
    ensures StartsBlock(st, s, indent) <==> rank == 0
  {
    PlainLive(s);
  }

  /** The state after a seed label `a` at cell indent `indent`. */
  function Root(a: string, indent: nat): State {
    State([a], indent, map[indent := 0], indent, map[a := 1], a)
  }

  /** The seed row alone: its label is both the path and the test. */
  lemma SeedLine(ws: Worksheet, a: string, indent: nat)
    requires 1 < ws.maxColumn && At(ws, 1, 1) == Cell(Text(a), indent)
    ensures RunTo(ws, 1, true, 1, 1) == Ok(Trace(Root(a, indent), [Entry(a, a, 1, 1)], [true]))
  {
  }

  // ---------------------------------------------------------------------
  // A child one indent below the root nests under it
  // ---------------------------------------------------------------------

  /** Column 1 of `ws` starts with `a` at indent 0 and `b` at indent 1. */
  ghost predicate NestedColumn(ws: Worksheet, a: string, b: string) {
    && 1 < ws.maxColumn
    && At(ws, 1, 1) == Cell(Text(a), 0)
    && At(ws, 2, 1) == Cell(Text(b), 1)
  }

  function Pair(a: string, b: string): State {
    State([a, b], 1, map[0 := 0, 1 := 1], 1, map[a := 1], a)
  }

  lemma NestStep(a: string, b: string)
    requires Plain(b)
    ensures Step(Root(a, 0), b, 1, 2) == Ok(Pair(a, b)) && !StartsBlock(Root(a, 0), b, 1)
    ensures EntryOf(Pair(a, b), 2) == Entry(a + Sep + b, a, 1, 2)
  {
    StepOf(Root(a, 0), b, 1, 2, 1, map[0 := 0, 1 := 1], 1);
    assert [a] + [b] == [a, b];
    assert [a, b][..1] == [a];
    assert Join([a], Sep) == a;
  }

  lemma NestedRun2(ws: Worksheet, a: string, b: string)
    requires NestedColumn(ws, a, b) && Plain(b)
    ensures RunTo(ws, 1, true, 1, 2)
            == Ok(Trace(Pair(a, b), [Entry(a, a, 1, 1), Entry(a + Sep + b, a, 1, 2)], [true, false]))
  {
    SeedLine(ws, a, 0);
    NestStep(a, b);
    PlainLive(b);
    NextLine(ws, 2, Trace(Root(a, 0), [Entry(a, a, 1, 1)], [true]), b, 1, Pair(a, b), Entry(a + Sep + b, a, 1, 2), false);
    assert [Entry(a, a, 1, 1)] + [Entry(a + Sep + b, a, 1, 2)] == [Entry(a, a, 1, 1), Entry(a + Sep + b, a, 1, 2)];
    assert [true] + [false] == [true, false];
  }

  /** Labels `a`, `b` at indents 0, 1 resolve to the paths `a` and
      `a | b`, both in the first block of `a`. */
  lemma NestedPair(ws: Worksheet, a: string, b: string)
    requires NestedColumn(ws, a, b) && Plain(b)
    ensures Resolve(ws, 1, true, 1, 2) == Ok([Entry(a, a, 1, 1), Entry(a + " | " + b, a, 1, 2)])
  {
    NestedRun2(ws, a, b);
  }

  // ---------------------------------------------------------------------
  // A dedent to a nonzero rank pops the two deepest labels
  // ---------------------------------------------------------------------

  /** Column 1 of `ws` starts with `a`, `b`, `c`, `d` at indents 0, 1, 2, 1. */
  ghost predicate DeepColumn(ws: Worksheet, a: string, b: string, c: string, d: string) {
    && NestedColumn(ws, a, b)
    && At(ws, 3, 1) == Cell(Text(c), 2)
    && At(ws, 4, 1) == Cell(Text(d), 1)
  }

  function Triple(a: string, b: string, c: string): State {
    State([a, b, c], 2, map[0 := 0, 1 := 1, 2 := 2], 2, map[a := 1], a)
  }

  function Back(a: string, d: string): State {
    State([a, d], 1, map[0 := 0, 1 := 1, 2 := 2], 2, map[a := 1], a)
  }

  lemma DeepStep(a: string, b: string, c: string)
    requires Plain(c)
    ensures Step(Pair(a, b), c, 2, 3) == Ok(Triple(a, b, c)) && !StartsBlock(Pair(a, b), c, 2)
    ensures EntryOf(Triple(a, b, c), 3) == Entry(a + Sep + b + Sep + c, a, 1, 3)
  {
    StepOf(Pair(a, b), c, 2, 3, 2, map[0 := 0, 1 := 1, 2 := 2], 2);
    assert [a, b] + [c] == [a, b, c];
    assert [a, b, c][..2] == [a, b];
    assert [a, b][..1] == [a];
    assert Join([a], Sep) == a;
    assert Join([a, b], Sep) == a + Sep + b;
  }

  lemma DedentStep(a: string, b: string, c: string, d: string)
    requires Plain(d)
    ensures Step(Triple(a, b, c), d, 1, 4) == Ok(Back(a, d)) && !StartsBlock(Triple(a, b, c), d, 1)
    ensures EntryOf(Back(a, d), 4) == Entry(a + Sep + d, a, 1, 4)
  {
    StepOf(Triple(a, b, c), d, 1, 4, 1, map[0 := 0, 1 := 1, 2 := 2], 2);
    assert [a, b, c][..1] + [d] == [a, d];
    assert [a, d][..1] == [a];
    assert Join([a], Sep) == a;
  }

  lemma DeepRun3(ws: Worksheet, a: string, b: string, c: string)
    requires NestedColumn(ws, a, b) && At(ws, 3, 1) == Cell(Text(c), 2) && Plain(b) && Plain(c)
    ensures RunTo(ws, 1, true, 1, 3)
            == Ok(Trace(Triple(a, b, c),
                        [Entry(a, a, 1, 1), Entry(a + Sep + b, a, 1, 2), Entry(a + Sep + b + Sep + c, a, 1, 3)],
                        [true, false, false]))
  {
    var lines := [Entry(a, a, 1, 1), Entry(a + Sep + b, a, 1, 2)];
    var e := Entry(a + Sep + b + Sep + c, a, 1, 3);
    NestedRun2(ws, a, b);
    DeepStep(a, b, c);
    PlainLive(c);
    NextLine(ws, 3, Trace(Pair(a, b), lines, [true, false]), c, 2, Triple(a, b, c), e, false);
    assert lines + [e] == [Entry(a, a, 1, 1), Entry(a + Sep + b, a, 1, 2), e];
    assert [true, false] + [false] == [true, false, false];
  }

  /** Labels `a`, `b`, `c`, `d` at indents 0, 1, 2, 1 resolve to the paths
      `a`, `a | b`, `a | b | c` and `a | d`, all in the first block of `a`. */
  lemma Deep(ws: Worksheet, a: string, b: string, c: string, d: string)
    requires DeepColumn(ws, a, b, c, d) && Plain(b) && Plain(c) && Plain(d)
    ensures Resolve(ws, 1, true, 1, 4)
            == Ok([Entry(a, a, 1, 1), Entry(a + " | " + b, a, 1, 2),
                   Entry(a + " | " + b + " | " + c, a, 1, 3), Entry(a + " | " + d, a, 1, 4)])
  {
    var lines := [Entry(a, a, 1, 1), Entry(a + Sep + b, a, 1, 2), Entry(a + Sep + b + Sep + c, a, 1, 3)];
    var e := Entry(a + Sep + d, a, 1, 4);
    DeepRun3(ws, a, b, c);
    DedentStep(a, b, c, d);
    PlainLive(d);
    NextLine(ws, 4, Trace(Triple(a, b, c), lines, [true, false, false]), d, 1, Back(a, d), e, false);
    assert lines + [e] == [lines[0], lines[1], lines[2], e];
  }

  // ---------------------------------------------------------------------
  // The root coming back starts its second block
  // ---------------------------------------------------------------------

  /** Column 1 of `ws` starts with `a`, `b`, `a` at indents 0, 1, 0. */
  ghost predicate RepeatColumn(ws: Worksheet, a: string, b: string) {
    && NestedColumn(ws, a, b)
    && At(ws, 3, 1) == Cell(Text(a), 0)
  }

  function Again(a: string): State {
    State([a], 0, map[0 := 0], 0, map[a := 2], a)
  }

  lemma RepeatStep(a: string, b: string)
    requires Plain(a)
    ensures Step(Pair(a, b), a, 0, 3) == Ok(Again(a)) && StartsBlock(Pair(a, b), a, 0)
    ensures EntryOf(Again(a), 3) == Entry(a, a, 2, 3)
  {
    StepOf(Pair(a, b), a, 0, 3, 0, map[0 := 0, 1 := 1], 1);
    assert Bump(map[a := 1], a) == map[a := 2];
  }

  /** A root label that comes back after a nested row starts its second
      block: the count goes to 2 and the path restarts at the root. */
  lemma SecondBlock(ws: Worksheet, a: string, b: string)
    requires RepeatColumn(ws, a, b) && Plain(a) && Plain(b)
    ensures Resolve(ws, 1, true, 1, 3)
            == Ok([Entry(a, a, 1, 1), Entry(a + " | " + b, a, 1, 2), Entry(a, a, 2, 3)])
  {
    var lines := [Entry(a, a, 1, 1), Entry(a + Sep + b, a, 1, 2)];
    NestedRun2(ws, a, b);
    RepeatStep(a, b);
    PlainLive(a);
    NextLine(ws, 3, Trace(Pair(a, b), lines, [true, false]), a, 0, Again(a), Entry(a, a, 2, 3), true);
    assert lines + [Entry(a, a, 2, 3)] == [Entry(a, a, 1, 1), Entry(a + Sep + b, a, 1, 2), Entry(a, a, 2, 3)];
  }

  // ---------------------------------------------------------------------
  // The seed keeps its raw indent as the previous rank
  // ---------------------------------------------------------------------

  /** Column 1 of `ws` starts with `a` at indent 1 and `b` at indent 2. */
  ghost predicate ShiftedColumn(ws: Worksheet, a: string, b: string) {
    && 1 < ws.maxColumn
    && At(ws, 1, 1) == Cell(Text(a), 1)
    && At(ws, 2, 1) == Cell(Text(b), 2)
  }

  function Replaced(a: string, b: string): State {
    State([b], 1, map[1 := 0, 2 := 1], 2, map[a := 1], a)
  }

  lemma ShiftedStep(a: string, b: string)
    requires Plain(b)
    ensures Step(Root(a, 1), b, 2, 2) == Ok(Replaced(a, b)) && !StartsBlock(Root(a, 1), b, 2)
    ensures EntryOf(Replaced(a, b), 2) == Entry(b, a, 1, 2)
  {
    StepOf(Root(a, 1), b, 2, 2, 1, map[1 := 0, 2 := 1], 2);
    assert [a][..0] + [b] == [b];
  }

  /** The seed row keeps its raw indent 1 as the previous rank, so a child
      one indent deeper gets rank 1, equal to it, and replaces the seed on
      the stack instead of nesting under it. */
  lemma ShiftedSeed(ws: Worksheet, a: string, b: string)
    requires ShiftedColumn(ws, a, b) && Plain(b)
    ensures Resolve(ws, 1, true, 1, 2) == Ok([Entry(a, a, 1, 1), Entry(b, a, 1, 2)])
  {
    SeedLine(ws, a, 1);
    ShiftedStep(a, b);
    PlainLive(b);
    NextLine(ws, 2, Trace(Root(a, 1), [Entry(a, a, 1, 1)], [true]), b, 2, Replaced(a, b), Entry(b, a, 1, 2), false);
    assert [Entry(a, a, 1, 1)] + [Entry(b, a, 1, 2)] == [Entry(a, a, 1, 1), Entry(b, a, 1, 2)];
  }

  // ---------------------------------------------------------------------
  // A nonzero dedent pops twice, even from a one-label stack
  // ---------------------------------------------------------------------

  /** Column 1 of `ws` starts with `a` at indent 2 and `b` at indent 3. */
  ghost predicate UnderflowColumn(ws: Worksheet, a: string, b: string) {
    && 1 < ws.maxColumn
    && At(ws, 1, 1) == Cell(Text(a), 2)
    && At(ws, 2, 1) == Cell(Text(b), 3)
  }

  /** The new indent 3 gets rank 1: below the seed's 2 but not 0, with only
      the seed on the stack. */
  lemma UnderflowStep(a: string, b: string)
    requires Plain(b)
    ensures Step(Root(a, 2), b, 3, 2) == Err(DedentUnderflow(2))
  {
    StepOf(Root(a, 2), b, 3, 2, 1, map[2 := 0, 3 := 1], 3);
  }

  /** A seed at raw indent 2 followed by a row at a new indent: the row gets
      rank 1, below the seed's 2, so the dedent pops twice from a one-label
      stack and the walk fails at row 2. */
  lemma Underflow(ws: Worksheet, a: string, b: string)
    requires UnderflowColumn(ws, a, b) && Plain(b)
    ensures Resolve(ws, 1, true, 1, 2) == Err(DedentUnderflow(2))
  {
    SeedLine(ws, a, 2);
    UnderflowStep(a, b);
    PlainLive(b);
    WalkFails(ws, 1, true, 1, 1, 2, 2, Trace(Root(a, 2), [Entry(a, a, 1, 1)], [true]), DedentUnderflow(2));
  }
}
