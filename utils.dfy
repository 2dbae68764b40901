/**
  The psychometric conversion table grouped by percentile rank, and the
  tolerance test `close_any` (`utils.py`).
*/
module Utils {
  /** One row of the conversion table. */
  datatype ConversionRow = ConversionRow(
    percentileRank: real,
    standardScore: real,
    scaledScore: real,
    etsScore: real,
    tScore: real,
    zScore: real,
    description: string)

  function StandardScore(r: ConversionRow): real { r.standardScore }
  function ScaledScore(r: ConversionRow): real { r.scaledScore }
  function EtsScore(r: ConversionRow): real { r.etsScore }
  function TScore(r: ConversionRow): real { r.tScore }
  function ZScore(r: ConversionRow): real { r.zScore }
  function Description(r: ConversionRow): string { r.description }

  /** The six dictionaries of `get_psychometric_objects`, each from a
      percentile rank to the list of one column's values. */
  datatype Psychometric = Psychometric(
    standardScore: map<real, seq<real>>,
    scaledScore: map<real, seq<real>>,
    etsScore: map<real, seq<real>>,
    tScore: map<real, seq<real>>,
    zScore: map<real, seq<real>>,
    description: map<real, seq<string>>)

  /** One column grouped by rank: each row's value is appended to its
      rank's list, a first row starting the list. */
  function Group<T>(rows: seq<ConversionRow>, f: ConversionRow -> T): map<real, seq<T>> {
    if rows == [] then map[]
    else
      var g := Group(rows[..|rows| - 1], f);
      var r := rows[|rows| - 1];
      g[r.percentileRank := (if r.percentileRank in g then g[r.percentileRank] else []) + [f(r)]]
  }

  function PsychometricOf(rows: seq<ConversionRow>): Psychometric {
    Psychometric(
      Group(rows, StandardScore), Group(rows, ScaledScore), Group(rows, EtsScore),
      Group(rows, TScore), Group(rows, ZScore), Group(rows, Description))
  }

  /** The percentile ranks of the rows. */
  function Ranks(rows: seq<ConversionRow>): set<real> {
    set i | 0 <= i < |rows| :: rows[i].percentileRank
  }

  /** The rows with rank `pr`, in table order. */
  function WithRank(rows: seq<ConversionRow>, pr: real): seq<ConversionRow> {
    if rows == [] then []
    else WithRank(rows[..|rows| - 1], pr)
         + (if rows[|rows| - 1].percentileRank == pr then [rows[|rows| - 1]] else [])
  }

  function Column<T>(rows: seq<ConversionRow>, f: ConversionRow -> T): (c: seq<T>)
    ensures |c| == |rows|
  {
    seq(|rows|, i requires 0 <= i < |rows| => f(rows[i]))
  }

  /** Every grouped column has the ranks seen as keys, and under each rank
      the column's values of exactly the rows with that rank, in table order
      (so as many values as there are such rows). */
  lemma {:induction false} GroupSpec<T>(rows: seq<ConversionRow>, f: ConversionRow -> T)
    ensures Group(rows, f).Keys == Ranks(rows)
    ensures forall pr | pr in Group(rows, f) :: Group(rows, f)[pr] == Column(WithRank(rows, pr), f)
    decreases |rows|
  {
    if rows != [] {
      var front := rows[..|rows| - 1];
      var r := rows[|rows| - 1];
      GroupSpec(front, f);
      assert Ranks(rows) == Ranks(front) + {r.percentileRank} by {
        forall x | x in Ranks(rows) ensures x in Ranks(front) + {r.percentileRank} {
          var i :| 0 <= i < |rows| && rows[i].percentileRank == x;
          if i < |front| {
            assert front[i] == rows[i];
          }
        }
        forall x | x in Ranks(front) ensures x in Ranks(rows) {
          var i :| 0 <= i < |front| && front[i].percentileRank == x;
          assert rows[i] == front[i];
        }
      }
      forall pr | pr in Group(rows, f) ensures Group(rows, f)[pr] == Column(WithRank(rows, pr), f) {
        if pr == r.percentileRank && pr !in Group(front, f) {
          assert pr !in Ranks(front);
          WithRankAbsent(front, pr);
        }
      }
    }
  }

  lemma {:induction false} WithRankAbsent(rows: seq<ConversionRow>, pr: real)
    requires pr !in Ranks(rows)
    ensures WithRank(rows, pr) == []
    decreases |rows|
  {
    if rows != [] {
      var front := rows[..|rows| - 1];
      assert forall i | 0 <= i < |front| :: front[i] == rows[i];
      WithRankAbsent(front, pr);
      assert rows[|rows| - 1].percentileRank in Ranks(rows);
    }
  }

  /** The six dictionaries share one key set, the ranks seen, and each list
      under a rank holds one value per row of that rank. */
  lemma PsychometricShape(rows: seq<ConversionRow>, pr: real)
    ensures var p := PsychometricOf(rows);
            && p.standardScore.Keys == p.scaledScore.Keys == p.etsScore.Keys == Ranks(rows)
            && p.tScore.Keys == p.zScore.Keys == p.description.Keys == Ranks(rows)
            && (pr in Ranks(rows) ==>
                  && |p.standardScore[pr]| == |p.scaledScore[pr]| == |p.etsScore[pr]| == |WithRank(rows, pr)|
                  && |p.tScore[pr]| == |p.zScore[pr]| == |p.description[pr]| == |WithRank(rows, pr)|)
  {
    GroupSpec(rows, StandardScore);
    GroupSpec(rows, ScaledScore);
    GroupSpec(rows, EtsScore);
    GroupSpec(rows, TScore);
    GroupSpec(rows, ZScore);
    GroupSpec(rows, Description);
  }

  /** Appending one row's value to the list of its rank, or starting it. */
  function Extend<T>(g: map<real, seq<T>>, seen: bool, pr: real, x: T): map<real, seq<T>>
    requires seen ==> pr in g
  {
    if seen then g[pr := g[pr] + [x]] else g[pr := [x]]
  }

  lemma GroupStep<T>(rows: seq<ConversionRow>, f: ConversionRow -> T, i: nat)
    requires i < |rows|
    requires Group(rows[..i], f).Keys == Ranks(rows[..i])
    ensures var pr := rows[i].percentileRank;
            var seen := pr in Ranks(rows[..i]);
            Group(rows[..i + 1], f) == Extend(Group(rows[..i], f), seen, pr, f(rows[i]))
  {
    var a := rows[..i + 1];
    assert a[..i] == rows[..i];
    assert a[|a| - 1] == rows[i];
    assert [] + [f(rows[i])] == [f(rows[i])];
  }

  /** The loop of `get_psychometric_objects` over the table's rows, with its
      `seen` set. */
  method GetPsychometricObjects(rows: seq<ConversionRow>) returns (res: Psychometric)
    ensures res == PsychometricOf(rows)
  {
    var standard: map<real, seq<real>> := map[];
    var scaled: map<real, seq<real>> := map[];
    var ets: map<real, seq<real>> := map[];
    var t: map<real, seq<real>> := map[];
    var z: map<real, seq<real>> := map[];
    var description: map<real, seq<string>> := map[];
    var seen: set<real> := {};
    var i := 0;
    while i < |rows|
      invariant 0 <= i <= |rows|
      invariant seen == Ranks(rows[..i])
      invariant standard == Group(rows[..i], StandardScore) && scaled == Group(rows[..i], ScaledScore)
      invariant ets == Group(rows[..i], EtsScore) && t == Group(rows[..i], TScore)
      invariant z == Group(rows[..i], ZScore) && description == Group(rows[..i], Description)
    {
      var row := rows[i];
      var pr := row.percentileRank;
      GroupSpec(rows[..i], StandardScore);
      GroupSpec(rows[..i], ScaledScore);
      GroupSpec(rows[..i], EtsScore);
      GroupSpec(rows[..i], TScore);
      GroupSpec(rows[..i], ZScore);
      GroupSpec(rows[..i], Description);
      GroupStep(rows, StandardScore, i);
      GroupStep(rows, ScaledScore, i);
      GroupStep(rows, EtsScore, i);
      GroupStep(rows, TScore, i);
      GroupStep(rows, ZScore, i);
      GroupStep(rows, Description, i);
      if pr in seen {
        standard := standard[pr := standard[pr] + [row.standardScore]];
        scaled := scaled[pr := scaled[pr] + [row.scaledScore]];
        ets := ets[pr := ets[pr] + [row.etsScore]];
        t := t[pr := t[pr] + [row.tScore]];
        z := z[pr := z[pr] + [row.zScore]];
        description := description[pr := description[pr] + [row.description]];
      } else {
        standard := standard[pr := [row.standardScore]];
        scaled := scaled[pr := [row.scaledScore]];
        ets := ets[pr := [row.etsScore]];
        t := t[pr := [row.tScore]];
        z := z[pr := [row.zScore]];
        description := description[pr := [row.description]];
      }
      seen := seen + {pr};
      RanksStep(rows, i);
      i := i + 1;
    }
    assert rows[..|rows|] == rows;
    return Psychometric(standard, scaled, ets, t, z, description);
  }

  lemma RanksStep(rows: seq<ConversionRow>, i: nat)
    requires i < |rows|
    ensures Ranks(rows[..i + 1]) == Ranks(rows[..i]) + {rows[i].percentileRank}
  {
    var a, b := rows[..i + 1], rows[..i];
    forall x | x in Ranks(a) ensures x in Ranks(b) + {rows[i].percentileRank} {
      var j :| 0 <= j < |a| && a[j].percentileRank == x;
      if j < i {
        assert b[j] == a[j];
      }
    }
    forall x | x in Ranks(b) ensures x in Ranks(a) {
      var j :| 0 <= j < |b| && b[j].percentileRank == x;
      assert a[j] == b[j];
    }
    assert a[i] == rows[i];
  }

  // ---------------------------------------------------------------------
  // close_any

  function Abs(x: real): real {
    if x < 0.0 then -x else x
  }

  /** `close_any(value, test_values, close)`: `any` over the list, in order. */
  function CloseAny(value: real, testValues: seq<real>, close: real): bool {
    if testValues == [] then false
    else Abs(value - testValues[0]) < close || CloseAny(value, testValues[1..], close)
  }

  /** Some test value lies strictly closer than `close` to `value` exactly
      when `close_any` holds; so it never holds for an empty list or a
      tolerance that is not positive. */
  lemma {:induction false} CloseAnySpec(value: real, testValues: seq<real>, close: real)
    ensures CloseAny(value, testValues, close) <==> exists i | 0 <= i < |testValues| :: Abs(value - testValues[i]) < close
    ensures close <= 0.0 ==> !CloseAny(value, testValues, close)
    ensures testValues == [] ==> !CloseAny(value, testValues, close)
    decreases |testValues|
  {
    if testValues != [] {
      var rest := testValues[1..];
      CloseAnySpec(value, rest, close);
      if exists i | 0 <= i < |testValues| :: Abs(value - testValues[i]) < close {
        var i :| 0 <= i < |testValues| && Abs(value - testValues[i]) < close;
        if i > 0 {
          assert rest[i - 1] == testValues[i];
        }
      }
      if CloseAny(value, rest, close) {
        var i :| 0 <= i < |rest| && Abs(value - rest[i]) < close;
        assert testValues[i + 1] == rest[i];
      }
    }
  }
}
