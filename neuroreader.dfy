/**
  From `parsers/neuroreader.py`: locating labelled fields in the text lines
  of a Neuroreader report, reading each header value from the line after
  its label, finding the line with the measured total intracranial volume,
  and splitting the patient name.
*/
module Neuroreader {
  import opened Wrappers
  import opened PyStr

  datatype NeuroError =
    | MissingFields(fields: set<string>) // `get_field_locs` on fields the page lacks
    | NoValueLine(field: string)         // the label is the page's last line (IndexError)
    | PageTooShort                       // `pdf_data[0][22]` on a shorter page (IndexError)
    | NoKey(key: string)                 // a dictionary lookup of an absent key (KeyError)
    | TooFewNames                        // `patient_names[1]` on fewer than two words (IndexError)

  // ---------------------------------------------------------------------
  // get_field_locs

  /** `{x: i for i, x in enumerate(data[..k]) if x in fields}`: the
      comprehension visits the lines in order, so a later occurrence of a
      field overwrites an earlier one. */
  function LocsTo(data: seq<string>, fields: set<string>, k: nat): (m: map<string, nat>)
    requires k <= |data|
    ensures m.Keys <= fields
  {
    if k == 0 then map[]
    else
      var m := LocsTo(data, fields, k - 1);
      if data[k - 1] in fields then m[data[k - 1] := k - 1] else m
  }

  /** `get_field_locs(data, fields)`: each field's location, or the fields
      that do not occur. */
  function GetFieldLocs(data: seq<string>, fields: set<string>): (r: Result<map<string, nat>, NeuroError>)
    ensures r.Ok? ==> r.value.Keys == fields && r.value == LocsTo(data, fields, |data|)
  {
    var locs := LocsTo(data, fields, |data|);
    if !(fields <= locs.Keys) then Err(MissingFields(fields - locs.Keys)) else Ok(locs)
  }

  /** The location of a field is its last occurrence among the lines seen. */
  predicate LastAt(data: seq<string>, f: string, i: nat, k: nat)
    requires k <= |data|
  {
    i < k && data[i] == f && forall j | i < j < k :: data[j] != f
  }

  lemma {:induction false} LocsToSpec(data: seq<string>, fields: set<string>, k: nat)
    requires k <= |data|
    ensures forall f :: f in LocsTo(data, fields, k) <==> f in fields && f in data[..k]
    ensures forall f | f in LocsTo(data, fields, k) :: LastAt(data, f, LocsTo(data, fields, k)[f], k)
    decreases k
  {
    if k > 0 {
      LocsToSpec(data, fields, k - 1);
      assert data[..k] == data[..k - 1] + [data[k - 1]];
    }
  }

  /** `get_field_locs` fails exactly when some field does not occur, and
      reports exactly those fields; otherwise it maps every field, and only
      the fields, to the index of its last occurrence. */
  lemma FieldLocsSpec(data: seq<string>, fields: set<string>)
    ensures GetFieldLocs(data, fields).Err? <==> exists f | f in fields :: f !in data
    ensures GetFieldLocs(data, fields).Err? ==>
              GetFieldLocs(data, fields).error == MissingFields(set f | f in fields && f !in data)
    ensures GetFieldLocs(data, fields).Ok? ==>
              && GetFieldLocs(data, fields).value.Keys == fields
              && forall f | f in fields :: LastAt(data, f, GetFieldLocs(data, fields).value[f], |data|)
  {
    LocsToSpec(data, fields, |data|);
    assert data[..|data|] == data;
    var locs := LocsTo(data, fields, |data|);
    assert fields - locs.Keys == set f | f in fields && f !in data;
    if fields - locs.Keys != {} {
      var f :| f in fields - locs.Keys;
    }
  }

  // ---------------------------------------------------------------------
  // The header values

  /** The fields in the order of their first occurrence: the order in which
      the comprehension inserted them, and so the order `.items()` yields. */
  function FirstSeen(data: seq<string>, fields: set<string>, k: nat): (order: seq<string>)
    requires k <= |data|
    ensures forall f :: f in order <==> f in LocsTo(data, fields, k)
    ensures forall i, j | 0 <= i < j < |order| :: order[i] != order[j]
  {
    if k == 0 then []
    else
      var order := FirstSeen(data, fields, k - 1);
      if data[k - 1] in fields && data[k - 1] !in order then order + [data[k - 1]] else order
  }

  /** `results[header_mapper[field]] = working_data[loc + 1]` for the first
      `k` fields of `order`. */
  function FillTo(data: seq<string>, mapper: map<string, string>, locs: map<string, nat>, order: seq<string>, k: nat)
    : Result<map<string, string>, NeuroError>
    requires k <= |order|
    requires forall f | f in order :: f in locs && f in mapper
  {
    if k == 0 then Ok(map[])
    else match FillTo(data, mapper, locs, order, k - 1)
      case Err(e) => Err(e)
      case Ok(results) =>
        var f := order[k - 1];
        if locs[f] + 1 < |data| then Ok(results[mapper[f] := data[locs[f] + 1]])
        else Err(NoValueLine(f))
  }

  /** The header part of `parse_neuroreader` on the first page `data`. */
  function HeaderValues(data: seq<string>, mapper: map<string, string>): Result<map<string, string>, NeuroError> {
    match GetFieldLocs(data, mapper.Keys)
    case Err(e) => Err(e)
    case Ok(locs) =>
      var order := FirstSeen(data, mapper.Keys, |data|);
      FillTo(data, mapper, locs, order, |order|)
  }

  /** The header part of `parse_neuroreader`: locate the fields, then fill
      their values. */
  method ParseHeader(data: seq<string>, mapper: map<string, string>) returns (r: Result<map<string, string>, NeuroError>)
    ensures r == HeaderValues(data, mapper)
  {
    var found := GetFieldLocs(data, mapper.Keys);
    if found.Err? {
      return Err(found.error);
    }
    var order := FirstSeen(data, mapper.Keys, |data|);
    r := FillHeader(data, mapper, found.value, order);
  }

  /** The loop over `field_locs.items()`, filling the header values. */
  method FillHeader(data: seq<string>, mapper: map<string, string>, locs: map<string, nat>, order: seq<string>)
    returns (r: Result<map<string, string>, NeuroError>)
    requires forall f | f in order :: f in locs && f in mapper
    ensures r == FillTo(data, mapper, locs, order, |order|)
  {
    var results: map<string, string> := map[];
    for k := 0 to |order|
      invariant FillTo(data, mapper, locs, order, k) == Ok(results)
    {
      var field := order[k];
      var loc := locs[field];
      if loc + 1 >= |data| {
        FillFails(data, mapper, locs, order, k + 1, |order|);
        return Err(NoValueLine(field));
      }
      results := results[mapper[field] := data[loc + 1]];
    }
    return Ok(results);
  }

  lemma {:induction false} FillFails(data: seq<string>, mapper: map<string, string>, locs: map<string, nat>, order: seq<string>, k: nat, m: nat)
    requires k <= m <= |order|
    requires forall f | f in order :: f in locs && f in mapper
    requires FillTo(data, mapper, locs, order, k).Err?
    ensures FillTo(data, mapper, locs, order, m) == FillTo(data, mapper, locs, order, k)
    decreases m - k
  {
    if m > k {
      FillFails(data, mapper, locs, order, k, m - 1);
    }
  }

  /** The value under `name` is the line after the location of some field
      that the mapper renames to `name`. */
  predicate FilledFrom(data: seq<string>, mapper: map<string, string>, locs: map<string, nat>, order: seq<string>, k: nat, results: map<string, string>, name: string)
    requires k <= |order|
    requires forall f | f in order :: f in locs && f in mapper
    requires name in results
  {
    exists j | 0 <= j < k :: mapper[order[j]] == name && locs[order[j]] + 1 < |data| && results[name] == data[locs[order[j]] + 1]
  }

  /** Filling fails exactly when one of the fields sits on the last line. */
  lemma {:induction false} FillToOk(data: seq<string>, mapper: map<string, string>, locs: map<string, nat>, order: seq<string>, k: nat)
    requires k <= |order|
    requires forall f | f in order :: f in locs && f in mapper
    ensures FillTo(data, mapper, locs, order, k).Ok? <==> forall j | 0 <= j < k :: locs[order[j]] + 1 < |data|
    decreases k
  {
    if k > 0 {
      FillToOk(data, mapper, locs, order, k - 1);
    }
  }

  /** Filled values sit under each field's new name, and each comes from the
      line after some field that the mapper renames to that name. */
  lemma {:induction false} FillToSpec(data: seq<string>, mapper: map<string, string>, locs: map<string, nat>, order: seq<string>, k: nat)
    requires k <= |order|
    requires forall f | f in order :: f in locs && f in mapper
    requires FillTo(data, mapper, locs, order, k).Ok?
    ensures var results := FillTo(data, mapper, locs, order, k).value;
            && (forall j | 0 <= j < k :: mapper[order[j]] in results)
            && (forall name | name in results :: FilledFrom(data, mapper, locs, order, k, results, name))
    decreases k
  {
    if k > 0 {
      var prev := FillTo(data, mapper, locs, order, k - 1);
      FillToSpec(data, mapper, locs, order, k - 1);
      var results := FillTo(data, mapper, locs, order, k).value;
      var f := order[k - 1];
      forall name | name in results ensures FilledFrom(data, mapper, locs, order, k, results, name) {
        if name != mapper[f] {
          var j :| 0 <= j < k - 1 && mapper[order[j]] == name && locs[order[j]] + 1 < |data|
                   && prev.value[name] == data[locs[order[j]] + 1];
        }
      }
    }
  }

  /** No other field is renamed to the name of `f`. */
  predicate Unshared(mapper: map<string, string>, f: string)
    requires f in mapper
  {
    forall g | g in mapper && g != f :: mapper[g] != mapper[f]
  }

  /** The header values fail exactly when a field is missing from the page
      or its last occurrence is the page's last line. */
  lemma HeaderValuesOk(data: seq<string>, mapper: map<string, string>)
    ensures HeaderValues(data, mapper).Ok? <==>
              && GetFieldLocs(data, mapper.Keys).Ok?
              && forall f | f in mapper :: GetFieldLocs(data, mapper.Keys).value[f] + 1 < |data|
  {
    if GetFieldLocs(data, mapper.Keys).Ok? {
      var locs := GetFieldLocs(data, mapper.Keys).value;
      var order := FirstSeen(data, mapper.Keys, |data|);
      assert HeaderValues(data, mapper) == FillTo(data, mapper, locs, order, |order|);
      FillAllOk(data, mapper, locs, order);
    }
  }

  /** Filling every field of `mapper` succeeds exactly when none of them
      sits on the last line. */
  lemma FillAllOk(data: seq<string>, mapper: map<string, string>, locs: map<string, nat>, order: seq<string>)
    requires forall f :: f in order <==> f in mapper
    requires forall f | f in order :: f in locs
    ensures FillTo(data, mapper, locs, order, |order|).Ok? <==> forall f | f in mapper :: locs[f] + 1 < |data|
  {
    FillToOk(data, mapper, locs, order, |order|);
    if FillTo(data, mapper, locs, order, |order|).Ok? {
      forall f | f in mapper ensures locs[f] + 1 < |data| {
        var j :| 0 <= j < |order| && order[j] == f;
      }
    } else {
      var j :| 0 <= j < |order| && locs[order[j]] + 1 >= |data|;
      assert order[j] in mapper;
    }
  }

  /** `results` holds, under each field's new name, the line after the
      field's location (a name shared by several fields holds the value of
      one of them), and no other name. */
  predicate HeaderShape(data: seq<string>, mapper: map<string, string>, locs: map<string, nat>, results: map<string, string>) {
    && (forall f | f in mapper :: mapper[f] in results)
    && (forall name | name in results ::
          exists f | f in mapper && mapper[f] == name :: f in locs && locs[f] + 1 < |data| && results[name] == data[locs[f] + 1])
    && (forall f | f in mapper && Unshared(mapper, f) ::
          mapper[f] in results && f in locs && locs[f] + 1 < |data| && results[mapper[f]] == data[locs[f] + 1])
  }

  lemma FillContent(data: seq<string>, mapper: map<string, string>, locs: map<string, nat>, order: seq<string>)
    requires forall f :: f in order <==> f in mapper
    requires forall f | f in order :: f in locs
    requires FillTo(data, mapper, locs, order, |order|).Ok?
    ensures HeaderShape(data, mapper, locs, FillTo(data, mapper, locs, order, |order|).value)
  {
    FillToSpec(data, mapper, locs, order, |order|);
    var results := FillTo(data, mapper, locs, order, |order|).value;
    forall f | f in mapper ensures mapper[f] in results {
      var j :| 0 <= j < |order| && order[j] == f;
    }
    forall name | name in results
      ensures exists f | f in mapper && mapper[f] == name :: f in locs && locs[f] + 1 < |data| && results[name] == data[locs[f] + 1]
    {
      assert FilledFrom(data, mapper, locs, order, |order|, results, name);
      var j :| 0 <= j < |order| && mapper[order[j]] == name && locs[order[j]] + 1 < |data|
               && results[name] == data[locs[order[j]] + 1];
      assert order[j] in mapper;
    }
    forall f | f in mapper && Unshared(mapper, f)
      ensures mapper[f] in results && f in locs && locs[f] + 1 < |data| && results[mapper[f]] == data[locs[f] + 1]
    {
      FilledUnshared(data, mapper, locs, order, results, f);
    }
  }

  /** A name that only `f` is renamed to holds the line after `f`. */
  lemma FilledUnshared(data: seq<string>, mapper: map<string, string>, locs: map<string, nat>, order: seq<string>, results: map<string, string>, f: string)
    requires forall g | g in order :: g in locs && g in mapper
    requires f in mapper && Unshared(mapper, f) && mapper[f] in results
    requires FilledFrom(data, mapper, locs, order, |order|, results, mapper[f])
    ensures f in locs && locs[f] + 1 < |data| && results[mapper[f]] == data[locs[f] + 1]
  {
    var j :| 0 <= j < |order| && mapper[order[j]] == mapper[f] && locs[order[j]] + 1 < |data|
             && results[mapper[f]] == data[locs[order[j]] + 1];
    assert order[j] == f;
  }

  /** Read header values hold, under each field's new name, the line after
      the field's last occurrence (a name shared by several fields holds the
      value of one of them), and no other name. */
  lemma HeaderValuesContent(data: seq<string>, mapper: map<string, string>)
    requires HeaderValues(data, mapper).Ok?
    ensures GetFieldLocs(data, mapper.Keys).Ok?
    ensures HeaderShape(data, mapper, GetFieldLocs(data, mapper.Keys).value, HeaderValues(data, mapper).value)
  {
    var locs := GetFieldLocs(data, mapper.Keys).value;
    var order := FirstSeen(data, mapper.Keys, |data|);
    assert locs.Keys == mapper.Keys;
    assert forall f :: f in order <==> f in mapper;
    FillContent(data, mapper, locs, order);
  }

  // ---------------------------------------------------------------------
  // The mtiv line

  const MtivField := "The measured total intracranial volume"
  const MtivLoc := 22

  predicate IsMtivLine(line: string) {
    StartsWith(line, MtivField)
  }

  /** The first index from `k` on whose line starts with the mtiv text. */
  function FirstMtiv(page: seq<string>, k: nat): (r: Option<nat>)
    requires k <= |page|
    ensures r.Some? ==> k <= r.value < |page| && IsMtivLine(page[r.value])
    ensures r.Some? ==> forall j | k <= j < r.value :: !IsMtivLine(page[j])
    ensures r.None? ==> forall j | k <= j < |page| :: !IsMtivLine(page[j])
    decreases |page| - k
  {
    if k == |page| then None
    else if IsMtivLine(page[k]) then Some(k)
    else FirstMtiv(page, k + 1)
  }

  /** The line holding the mtiv: line 22 when it starts with the mtiv text,
      else the first line that does, else still 22. */
  function MtivLocation(page: seq<string>): Result<nat, NeuroError> {
    if |page| <= MtivLoc then Err(PageTooShort)
    else if IsMtivLine(page[MtivLoc]) then Ok(MtivLoc)
    else match FirstMtiv(page, 0)
      case None => Ok(MtivLoc)
      case Some(i) => Ok(i)
  }

  /** The test of line 22 and the `for`/`break` search of the first page. */
  method FindMtivLocation(page: seq<string>) returns (r: Result<nat, NeuroError>)
    ensures r == MtivLocation(page)
  {
    if |page| <= MtivLoc {
      return Err(PageTooShort);
    }
    var mtivLoc := MtivLoc;
    if !IsMtivLine(page[MtivLoc]) {
      var i := 0;
      while i < |page|
        invariant 0 <= i <= |page|
        invariant FirstMtiv(page, 0) == FirstMtiv(page, i)
      {
        if IsMtivLine(page[i]) {
          mtivLoc := i;
          break;
        }
        i := i + 1;
      }
    }
    return Ok(mtivLoc);
  }

  /** The location is on the page; line 22 is kept whenever it holds the
      mtiv text; otherwise the location holds the mtiv text whenever some
      line does, and it is then the first such line; with no such line it
      stays 22. It fails exactly on a page of at most 22 lines. */
  lemma MtivLocationSpec(page: seq<string>)
    ensures MtivLocation(page).Err? <==> |page| <= MtivLoc
    ensures MtivLocation(page).Ok? ==>
              var loc := MtivLocation(page).value;
              && loc < |page|
              && ((exists j | 0 <= j < |page| :: IsMtivLine(page[j])) ==> IsMtivLine(page[loc]))
              && ((forall j | 0 <= j < |page| :: !IsMtivLine(page[j])) ==> loc == MtivLoc)
              && (loc != MtivLoc ==> forall j | 0 <= j < loc :: !IsMtivLine(page[j]))
    ensures |page| > MtivLoc && IsMtivLine(page[MtivLoc]) ==> MtivLocation(page) == Ok(MtivLoc)
  {
    if |page| > MtivLoc && !IsMtivLine(page[MtivLoc]) && FirstMtiv(page, 0).None? {
      assert forall j | 0 <= j < |page| :: !IsMtivLine(page[j]);
    }
  }

  // ---------------------------------------------------------------------
  // The patient name

  /** `patient_names = results[name].split()`, then `first_name`,
      `last_name` and, with three or more words, `middle_name`, then
      `results.pop(name)`; `name` is `header_mapper['Patient name']`.
      The split fails exactly when the name is missing or has fewer than
      two words. Otherwise the name's key is gone, the last name is its
      first word, the first name its second word, the middle name its third
      word if there is one (with two words an earlier middle name stays),
      and every other entry is unchanged. */
  function SplitName(results: map<string, string>, mapper: map<string, string>): (r: Result<map<string, string>, NeuroError>)
    ensures r.Ok? <==> "Patient name" in mapper && mapper["Patient name"] in results
                       && |Words(results[mapper["Patient name"]])| >= 2
    ensures r.Ok? && mapper["Patient name"] !in {"first_name", "last_name", "middle_name"} ==>
              var key := mapper["Patient name"];
              var names := Words(results[key]);
              && key !in r.value
              && r.value.Keys == results.Keys - {key} + {"first_name", "last_name"} + (if |names| >= 3 then {"middle_name"} else {})
              && r.value["last_name"] == names[0] && r.value["first_name"] == names[1]
              && (|names| >= 3 ==> r.value["middle_name"] == names[2])
              && (|names| < 3 && "middle_name" in results ==> r.value["middle_name"] == results["middle_name"])
              && (forall k | k in results && k !in {key, "first_name", "last_name", "middle_name"} :: r.value[k] == results[k])
  {
    if "Patient name" !in mapper then Err(NoKey("Patient name"))
    else
      var key := mapper["Patient name"];
      if key !in results then Err(NoKey(key))
      else
        var names := Words(results[key]);
        if |names| < 2 then Err(TooFewNames)
        else
          var named := results["first_name" := names[1]]["last_name" := names[0]];
          Ok((if |names| >= 3 then named["middle_name" := names[2]] else named) - {key})
  }

  /** A name written as words joined by single spaces splits back into those
      words: last name first, then first name, then middle name. */
  lemma SplitNameJoined(results: map<string, string>, mapper: map<string, string>, words: seq<string>)
    requires "Patient name" in mapper
    requires mapper["Patient name"] !in {"first_name", "last_name", "middle_name"}
    requires mapper["Patient name"] in results && results[mapper["Patient name"]] == Join(words, " ")
    requires forall i | 0 <= i < |words| :: words[i] != [] && NoSpace(words[i])
    ensures SplitName(results, mapper).Ok? <==> |words| >= 2
    ensures SplitName(results, mapper).Ok? ==>
              && SplitName(results, mapper).value["last_name"] == words[0]
              && SplitName(results, mapper).value["first_name"] == words[1]
              && (|words| >= 3 ==> "middle_name" in SplitName(results, mapper).value
                                   && SplitName(results, mapper).value["middle_name"] == words[2])
  {
    WordsJoin(words);
  }

  /** When the header values were read with a mapper that names the patient
      name field, the split finds the name under its new key. */
  lemma HeaderHasName(data: seq<string>, mapper: map<string, string>)
    requires "Patient name" in mapper
    requires HeaderValues(data, mapper).Ok?
    ensures mapper["Patient name"] in HeaderValues(data, mapper).value
    ensures SplitName(HeaderValues(data, mapper).value, mapper).Err? ==>
              SplitName(HeaderValues(data, mapper).value, mapper) == Err(TooFewNames)
  {
    HeaderValuesContent(data, mapper);
  }
}
