# mcw_readers in Dafny

A model of the parsing core of `mcw_readers`. This is the package that reads
MCW neuropsychology Neuroscore workbooks, their lookup tables (LUTs) and
Neuroreader reports. The model covers:

- **Resolver** (`resolver.dfy`). The indentation-driven line-identifier
  resolver that `wb_parser.parse_lines`, `peds_wb_parser.get_all_identifiers`
  and `initialize_lut` each carry a copy of. It walks one label column, keeps
  a stack of labels, translates raw cell indents into ranks, and gives every
  live row an identifier `"Root | Sub | Item"`, its root test and the block
  number of that root (`test_no`). It is written once, as a state machine
  (`Seed`, `Step`, `RunTo`), together with the loop the source runs
  (`ResolveRows`), which is proved to compute it.
- **Workbook parsers** (`wb_parsers.dfy`). The first-data-row search, the
  two parser constructors, the administered tests, and both `parse_data`
  joins of resolved lines against a LUT. The joins collect the results map,
  the new lines and the missing lines.
- **LUT** (`lut.dfy`). `initialize_lut` (the header scan and the resolver),
  the department check, `convert_df_to_lut`, `split_identifiers` and
  `get_headers_at_indent_level`.
- **Utilities** (`utils.dfy`). The grouping loop of
  `get_psychometric_objects`, and `close_any`.
- **Clinical Neuroscore** (`clinical.dfy`). `parse_neuroscore`: the exam
  column shift, the variable/value assembly, the exam date, the garbage
  filter, the per-test presence flags and the final pivot.
- **Neuroreader** (`neuroreader.dfy`). `get_field_locs`, the header values,
  the mtiv fallback search and the patient-name split.
- **Variable generation** (`generate_variables.dfy`). The tp filter, the
  redcap suffix strip, column letter to number, and the row numbering,
  whitespace indent bump and `indent_header` loop of the font-property table.

Supporting modules:

- `wrappers.dfy` holds `Option` and `Result`.
- `pystr.dfy` models Python's `str.strip`, `split`, `join`, `split()` and
  `startswith`.
- `sheet.dfy` models an openpyxl worksheet as rows of cells, each with a
  value, an indent and a hidden flag.
- `lists.dfy` holds filtering and a result-propagating map.
- `resolver_examples.dfy` runs the resolver on small fixed worksheets.

Each Python exception the model covers is a `Result` error naming the
exception it stands for. Failure lemmas (such as `Resolver.Step`,
`WbParsers.ParseDataFails`, `WbParsers.PedsParseDataFails` and
`Neuroreader.HeaderValuesOk`) say when an operation fails; the content
lemmas describe successful runs. Where the source changes state
step by step, the model is a method with its loop, proved equal to a
specification function. The source's properties are then proved about that
function.

## Model

| member | source | states |
|---|---|---|
| Resolver.ResolveRows | mcw_readers/interfaces/wb_parsers.py:79-159 | The row loop over `unique_stack`, `p_indent`, `indent_mapper`, `p_indent_key`, `test_counter` and `current_test` computes exactly the resolver's specification, failures included. |
| Resolver.RankOf | mcw_readers/interfaces/wb_parsers.py:109-116 | The in-loop indent translation equals `Translate`: a label starting with a space has its indent raised by one; a seen indent keeps its rank; an unseen one gets the rank of the last-added key plus one and becomes that key. |
| Resolver.TranslateKeepsRanking | mcw_readers/interfaces/wb_parsers.py:113-116 | Translation keeps the ranks pairwise distinct, with the largest at the last-added key. An unseen indent's rank is above every rank given so far. |
| Resolver.StepRow | mcw_readers/interfaces/wb_parsers.py:122-151 | One row's stack transition in the loop equals `Step`. |
| Resolver.RestackRow | mcw_readers/interfaces/wb_parsers.py:120-151 | The three-way branch on equal, deeper and shallower ranks, with its `pop`/`append` and counter updates on the loop's variables, computes `Restack`. |
| Resolver.Step | mcw_readers/interfaces/wb_parsers.py:145-149 | A step keeps the loop invariant. It fails exactly on a nonzero dedent with fewer than two labels on the stack: the second `pop` of a one-element stack. |
| Resolver.StepStack | mcw_readers/interfaces/wb_parsers.py:122-151 | After a step, the top of the stack is the stripped label and the rest is a prefix of the old stack. The height stays the same on an equal rank, grows by one on a deeper rank, shrinks by one on a shallower nonzero rank, and becomes one on rank 0. |
| Resolver.StepBlock | mcw_readers/interfaces/wb_parsers.py:126-131 | A row starts a block exactly when its rank is 0. Such a row becomes the whole stack and the current test, and its counter goes up by one. Any other row leaves the current test and the counter unchanged. |
| Resolver.WalkRanking | mcw_readers/interfaces/wb_parsers.py:113-116 | Along a whole walk, the mapper's ranks stay distinct and the last-added indent holds the largest. This includes the reset to `{0: 0}` on a dedent to rank 0. |
| Resolver.WalkCounted | mcw_readers/interfaces/wb_parsers.py:126-143 | In every walk that gets through its rows, each line's `test_no` is the number of blocks its root test has started so far, and its test is the root of the latest block. |
| Resolver.LiveRowsSpec | mcw_readers/interfaces/wb_parsers.py:99-105 | The rows that emit lines are exactly those in range whose label is not blank, not whitespace-only and (where `*` lines are skipped) does not start with `*`. They come in strictly increasing order. |
| Resolver.ResolveLines | mcw_readers/interfaces/wb_parsers.py:87-105 | A successful resolution emits one line for the seed row, then one for each later live row through the last row, in row order. The seed line has `test_no` 1, and every line has `test_no` at least 1. |
| ResolverExamples.NestedPair | mcw_readers/interfaces/wb_parsers.py:87-134 | A root label at indent 0 followed by a plain label at indent 1 gives two lines: the root alone, and the root and the child joined by the level separator, both in block 1 of the root. |
| ResolverExamples.Deep | mcw_readers/interfaces/wb_parsers.py:120-151 | Indents 0, 1, 2, 1 give identifiers of one, two and three levels, then the dedent to rank 1 drops both deeper labels, so the fourth line is the root joined with the fourth label. All four lines are in block 1 of the root. |
| ResolverExamples.SecondBlock | mcw_readers/interfaces/wb_parsers.py:122-131 | Indents 0, 1, 0 with the root label repeated: the third line is the root alone again, now with `test_no` 2. |
| ResolverExamples.ShiftedSeed | mcw_readers/interfaces/wb_parsers.py:91-124 | The seed keeps its raw indent as `p_indent` while later rows compare ranks. A seed at indent 1 followed by a label at indent 2 (rank 1) therefore takes the equal-indent branch, and the second identifier is the child's label alone, with no root prefix. |
| ResolverExamples.Underflow | mcw_readers/interfaces/wb_parsers.py:145-149 | A seed at indent 2 followed by a label at indent 3 (rank 1, below the raw 2) takes the nonzero-dedent branch, pops twice from a one-label stack, and fails at row 2. |
| WbParsers.FindFirstDataRow | mcw_readers/interfaces/wb_parsers.py:63-77 | The two `for`/`break` loops compute `FirstDataRow`, including a row tuple too short for the read and a sheet with no rows. |
| WbParsers.SearchFinds | mcw_readers/interfaces/wb_parsers.py:66-76 | A search stops at the first row that is a hit, or at `max_row` when no row is one. Every row before it is not a hit. |
| WbParsers.FirstDataRowSpec | mcw_readers/interfaces/wb_parsers.py:63-77 | The first data row lies in `1..max_row`. The sentinel search stops at the first row whose column-2 value is exactly `"Raw"`. The label search then stops at the first later row with a truthy column-1 value. A search that finds nothing stops at `max_row`. |
| WbParsers.NewWbParser | mcw_readers/interfaces/wb_parsers.py:48-61 | The constructor computes `WbParserOf`: the first data row, the lines resolved from label column 1 with `*` lines skipped through `max_row`, and the unhidden lines. |
| WbParsers.WbParserLines | mcw_readers/interfaces/wb_parsers.py:55-61 | There is one line per live row from the first data row on, and the first line is the first data row with `test_no` 1. A line is in `unhidden_lines` exactly when it is a line whose row is not hidden. |
| WbParsers.ResolvedLines | mcw_readers/interfaces/wb_parsers.py:87-159 | A successful resolution's first line is the start row with `test_no` 1. Every later line comes from a row strictly after the start row and no later than the last row, and every `test_no` is at least 1. |
| WbParsers.NoFirstRowPastEnd | mcw_readers/interfaces/wb_parsers.py:55-56 | The `first_data_row > max_row` exception can never be raised. |
| WbParsers.AdministeredTests | mcw_readers/interfaces/wb_parsers.py:169-173 | A test is administered exactly when it is the identifier of an unhidden line and contains no level separator. |
| WbParsers.RootNamesAppend | mcw_readers/interfaces/wb_parsers.py:169-173 | The administered tests are taken line by line: those of two runs of lines are those of the first followed by those of the second, so they keep the lines' order and repeats. |
| WbParsers.ReadSlot | mcw_readers/interfaces/wb_parsers.py:197-202 | A slot reads a value exactly when Python indexing reaches the column and the cell holds none of the NaN placeholders. Otherwise the slot is NaN. |
| WbParsers.ParseDataRows | mcw_readers/interfaces/wb_parsers.py:175-219 | The loop over the parser's unhidden lines and their slots, reading the parser's sheet, computes `ParseData` at the column offset `2 + 4*(tp-1)`. |
| WbParsers.ParseSlots | mcw_readers/interfaces/wb_parsers.py:191-217 | The inner slot loop computes `SlotsTo`. |
| WbParsers.NewLinesUnmatched | mcw_readers/interfaces/wb_parsers.py:185-189 | `new_lines` is exactly the lines whose `(identifier, test_no)` key is not in the LUT, in order. |
| WbParsers.ResultKeys | mcw_readers/interfaces/wb_parsers.py:203-204 | A variable is in `results` exactly when it is non-empty and names a slot of some matched line. |
| WbParsers.ResultLastWins | mcw_readers/interfaces/wb_parsers.py:203-204 | A variable's result is the reading of its last naming slot in its last naming line. |
| WbParsers.MissingReported | mcw_readers/interfaces/wb_parsers.py:204-212 | Each missing-lines row reports an unnamed slot of some line that holds a non-NaN value. It carries that line, the slot's column and `COL_NAMES[n]`. |
| WbParsers.MissingInOrder | mcw_readers/interfaces/wb_parsers.py:191-212 | On success, `missing_lines` is exactly one row per slot of a matched line that has no variable, is among the four `COL_NAMES` and holds a non-NaN value. The rows come in line order, then slot order, each with the line, the slot's column, `COL_NAMES[n]` and the value. |
| WbParsers.SlotReported | mcw_readers/interfaces/wb_parsers.py:204-212 | Every such slot is reported: an unnamed slot with n below 4 whose cell holds a non-NaN value gives a missing-lines row with its line, column, name and value. |
| WbParsers.ParseDataFails | mcw_readers/interfaces/wb_parsers.py:204-212 | `parse_data` fails exactly when some unnamed slot past the four `COL_NAMES` holds a value. |
| WbParsers.NewPedsParser | mcw_readers/interfaces/wb_parsers.py:242-251 | The constructor computes `PedsParserOf`: sentinel column 3, label column 2, no `*` skip, and the resolver stopping before `max_row`. |
| WbParsers.PedsParserLines | mcw_readers/interfaces/wb_parsers.py:269-348 | There is one identifier per live row from the first data line up to `max_row - 1`. The first identifier has `test_no` 1, every `test_no` is at least 1, and no identifier after the first comes from row `max_row`. |
| WbParsers.PedsAdministeredRoots | mcw_readers/interfaces/wb_parsers.py:358-362 | The peds rule (splitting on the level separator gives one piece) picks the same lines as the adult rule (no separator at all). |
| WbParsers.PedsParseData | mcw_readers/interfaces/wb_parsers.py:364-386 | The loop over the parser's identifiers, reading the parser's sheet, computes `PedsLinesTo`. |
| WbParsers.PedsParseDataSpec | mcw_readers/interfaces/wb_parsers.py:364-386 | The new identifiers are exactly the keys of the lines absent from the LUT, in order. A variable is in `results` exactly when it names a slot of a matched line. |
| WbParsers.PedsResultLastWins | mcw_readers/interfaces/wb_parsers.py:377-381 | A variable's result is the cell at column `3 + n` of its last naming line and slot, or NaN when that cell holds one of the module's `NAN_VALUES`; that column always lies inside the row tuple. |
| WbParsers.PedsParseDataFails | mcw_readers/interfaces/wb_parsers.py:377-379 | The peds `parse_data` fails, with the IndexError of a short row tuple, exactly when some matched line has a named slot whose column `3 + n` lies past the row tuple. |
| Lut.TemplateColumns | mcw_readers/interfaces/lut.py:32-39 | The columns are (2, 3) for `peds` and (1, 2) for `epilepsy`, `dementia` and `aphasia`. Every other department is an error. |
| Lut.ScanFromStops | mcw_readers/interfaces/lut.py:44-56 | A header loop stops at the first row whose condition is false, or at `max_row`. Every row it passes satisfied the condition. |
| Lut.Scan | mcw_readers/interfaces/lut.py:44-56 | Each header `while` loop computes `ScanFrom`: from the start row it moves on while its condition holds and the row is before `max_row`. |
| Lut.ReadLines | mcw_readers/interfaces/lut.py:58-134 | The resolver part computes `LinesFrom`: empty lists when the scan ends at or after `max_row`, otherwise the resolved lines split into identifiers, test numbers and rows. |
| Lut.InitializeLut | mcw_readers/interfaces/lut.py:5-136 | The two `while` loops and the resolver loop compute `BlankLut`. |
| Lut.BlankLutLines | mcw_readers/interfaces/lut.py:60-134 | If the header scan ends at or after `max_row`, the three lists are empty. Otherwise there is one entry for the start row plus one per later live row. The first `test_no` is 1 and every `test_no` is at least 1. |
| Lut.SlotColumns | mcw_readers/interfaces/lut.py:161-186 | There are 9 slot columns for `peds`, 7 for `neonatology` and 4 otherwise. They begin with `raw`, `ss` and `percentile`. |
| Lut.NewLut | mcw_readers/interfaces/lut.py:140-156 | The constructor succeeds exactly when the department is one of the five known ones and the sheet has the identifier, test-number and slot columns. Each identifier's split is its level-separator split: the pieces contain no separator and join back to the identifier. |
| Lut.TableOfKeys | mcw_readers/interfaces/lut.py:188-193 | The table's keys are exactly the rows' `(identifier, test_no)` keys. |
| Lut.TableOfLastWins | mcw_readers/interfaces/lut.py:188-193 | A key maps to the slot values of the last row carrying it. |
| Lut.NewLutTable | mcw_readers/interfaces/lut.py:188-193 | A built LUT's table holds exactly the frame's keys, each with one value per slot column. |
| Lut.HeadersAtLevel | mcw_readers/interfaces/lut.py:197-201 | There is one header per identifier, taken at that level with Python indexing. The call fails only when some negative level reaches past the start of an identifier. |
| Lut.HeadersAtLevelNatural | mcw_readers/interfaces/lut.py:197-201 | For a level of 0 or more, each header is that component of the identifier, or `""` when the identifier has fewer components. |
| Lut.LutHeaders | mcw_readers/interfaces/lut.py:197-201 | On a built LUT and a level of 0 or more, the headers are, per identifier, its component at that level between level separators, or `""` when it has fewer components. |
| Utils.GetPsychometricObjects | mcw_readers/utils.py:18-46 | The loop with its `seen` set builds the six dictionaries that `PsychometricOf` defines. |
| Utils.GroupSpec | mcw_readers/utils.py:28-46 | A grouped dictionary's keys are exactly the ranks seen. Each rank's list is its rows' column values, in input order. |
| Utils.PsychometricShape | mcw_readers/utils.py:18-46 | The six dictionaries share the set of ranks as their key set. For each rank, all six lists have one entry per row with that rank. |
| Utils.CloseAnySpec | mcw_readers/utils.py:50-53 | `close_any` holds exactly when some test value lies closer than `close`. It never holds for an empty list or a tolerance of 0 or less. |
| Clinical.SelectedSpec | mcw_readers/parsers/clinical.py:56-57 | The selected key rows are exactly the rows of the detected version, each moved `4*exam` columns right. |
| Clinical.SelectedAppend | mcw_readers/parsers/clinical.py:56-57 | Selection goes key row by key row: the rows selected from two runs of key rows are those of the first followed by those of the second, so key order and repeated key rows are kept. |
| Clinical.ReadRowsSpec | mcw_readers/parsers/clinical.py:63-72 | After a successful read of the selected cells, variable `i` is row `i`'s redcap name and value `i` is what its worksheet cell holds. Both lists have one entry per row. |
| Clinical.CollectAllSpec | mcw_readers/parsers/clinical.py:52-81 | Collection succeeds only with a detected version. Each selected key row then contributes its redcap name and its cell's value, in order, and every selected row has a worksheet. `np_date` comes last: `'07071977'` in debug mode, otherwise the date held by `Template` row 9, column `5 + 4*exam`, formatted. |
| Clinical.Clean | mcw_readers/parsers/clinical.py:85-87 | A cleaned value is never garbage. It is either the value itself or NaN, and it is NaN-ed exactly when the value is garbage: a string starting with `=`, or equal to `raw`, `val`, `[ERR]` or `SS`, alone or followed by one final newline (which the regular expression's `$` also accepts). |
| Clinical.BlankGarbage | mcw_readers/parsers/clinical.py:85-87 | The in-place masking blanks exactly the garbage values and keeps the others. |
| Clinical.FlagSpec | mcw_readers/parsers/clinical.py:89-99 | A test's flag is 0 or 1. It is 1 exactly when some redcap variable of the test has a non-missing value. |
| Clinical.FlagNames | mcw_readers/parsers/clinical.py:89-99 | There is one flag per distinct test name, each once. |
| Clinical.PivotSpec | mcw_readers/parsers/clinical.py:101-104 | The pivot succeeds exactly when the variables are distinct. The record's keys are then the variables, each mapped to its value. |
| Clinical.RecordSpec | mcw_readers/parsers/clinical.py:101-104 | Concatenation and pivot succeed exactly when the variables and the flag names are all distinct: no variable repeats and no test is named like a variable. The record then holds every value and every test flag, and its keys are exactly the variables and the test names. |
| Clinical.RecordKeys | mcw_readers/parsers/clinical.py:101-104 | The pivoted record has no keys besides the variables and the test names. |
| Clinical.ParseNeuroscore | mcw_readers/parsers/clinical.py:51-104 | The sheet loop, the masking and the pivot compute `NeuroscoreOf`. |
| Clinical.NeuroscoreSpec | mcw_readers/parsers/clinical.py:74-104 | After collection, the record exists exactly when the variables and flag names are all distinct. It then holds each cleaned value, a flag of 1 or 0 for each test (by whether the test is present), and `np_date`, which is `'07071977'` in debug mode. Its keys are exactly the variables and the test names. |
| Neuroreader.GetFieldLocs | mcw_readers/parsers/neuroreader.py:30-36 | On success, the locations cover exactly the requested fields. |
| Neuroreader.FieldLocsSpec | mcw_readers/parsers/neuroreader.py:30-36 | The call fails exactly when some field is absent from the data, and the error names exactly the absent fields. On success each field maps to its last occurrence. |
| Neuroreader.ParseHeader | mcw_readers/parsers/neuroreader.py:75-80 | Locating the mapped fields and then filling their values computes `HeaderValues`, failing with the field-location error when a field is absent. |
| Neuroreader.FillHeader | mcw_readers/parsers/neuroreader.py:79-80 | The loop over the field locations computes `FillTo` over every field. |
| Neuroreader.FillAllOk | mcw_readers/parsers/neuroreader.py:79-80 | Filling succeeds exactly when every mapped field's location has a next line to read (`loc + 1` is inside the page). |
| Neuroreader.HeaderValuesOk | mcw_readers/parsers/neuroreader.py:75-80 | Header parsing succeeds exactly when every field is found and none sits on the last line. |
| Neuroreader.HeaderValuesContent | mcw_readers/parsers/neuroreader.py:79-80 | Every mapped name is filled, and no other name. Each name holds the line after the last occurrence of some field renamed to it; a name fed by one field only holds the line after that field's last occurrence. |
| Neuroreader.FindMtivLocation | mcw_readers/parsers/neuroreader.py:103-108 | The `for`/`break` search computes `MtivLocation`. |
| Neuroreader.MtivLocationSpec | mcw_readers/parsers/neuroreader.py:103-108 | The search fails exactly when the page has at most 22 lines. Line 22 is kept whenever it starts with the mtiv text. Otherwise the result is the first line that does, or 22 when none does. |
| Neuroreader.SplitName | mcw_readers/parsers/neuroreader.py:113-119 | The split fails exactly when the name is not mapped, missing from the results, or has fewer than two words. On success `last_name` is word 0 and `first_name` is word 1; `middle_name` is word 2 with three or more words and otherwise keeps any earlier value; the name key is removed and all else is unchanged. |
| Neuroreader.SplitNameJoined | mcw_readers/parsers/neuroreader.py:114-118 | A name made of space-separated words splits back into those words. |
| Neuroreader.HeaderHasName | mcw_readers/parsers/neuroreader.py:75-80 | After header parsing, the mapped patient-name key is always present. The only way the name split can then fail is a name of fewer than two words. |
| GenerateVariables.IncludedSpec | mcw_readers/upkeep/clinical_generate_variables.py:17 | Exactly the rows with `tp` 1 or null are kept, in order, and the filter distributes over concatenation. |
| GenerateVariables.StripDigitSuffix | mcw_readers/upkeep/clinical_generate_variables.py:18 | The result is the text itself, or the text with a final `_digits` removed. |
| GenerateVariables.RedcapNameSpec | mcw_readers/upkeep/clinical_generate_variables.py:18 | `base_digits` becomes `base`, also before a final newline. A variable whose last character is neither a digit nor a newline is unchanged. |
| GenerateVariables.ColumnOfLetter | mcw_readers/upkeep/clinical_generate_variables.py:19-20 | A letter padded with spaces maps to `ord(lower) - 96`, so `a` and `A` are 1 and `z` is 26. |
| GenerateVariables.ColumnNumber | mcw_readers/upkeep/clinical_generate_variables.py:19-20 | A null column stays null. A column fails exactly when, once stripped, it is not one character; otherwise it becomes a number. |
| GenerateVariables.KeyRowOf | mcw_readers/upkeep/clinical_generate_variables.py:18-20 | A row fails exactly when its column, once stripped, is not one character, and the error carries that column. A null column passes through as null. Otherwise the row carries its redcap name, worksheet, row and column number. |
| GenerateVariables.VariableKeySpec | mcw_readers/upkeep/clinical_generate_variables.py:17-24 | The variable key fails exactly when a kept row has a bad column, and the error is the first such row's. On success there is one key row per kept row, with its redcap name, worksheet, row and column number. |
| GenerateVariables.Adjusted | mcw_readers/upkeep/clinical_generate_variables.py:37-39 | A measure that starts with whitespace is one indent level deeper. |
| GenerateVariables.EntriesSpec | mcw_readers/upkeep/clinical_generate_variables.py:28-33 | Rows are numbered consecutively from 13, and lines without a measure are dropped. The kept entries have strictly increasing rows, one per measured line, each with that line's adjusted indent. |
| GenerateVariables.LatestAt | mcw_readers/upkeep/clinical_generate_variables.py:44 | The result is the latest earlier entry at the given indent level, or none. |
| GenerateVariables.IndentHeaders | mcw_readers/upkeep/clinical_generate_variables.py:40-49 | The loop over `indent_reference` computes `HeadersTo`. |
| GenerateVariables.ParentOfSpec | mcw_readers/upkeep/clinical_generate_variables.py:44-48 | An entry's header is its own measure at indent 0. Otherwise it is the measure of the most recent earlier entry one level up, if there is one. |
| GenerateVariables.HeadersFailSpec | mcw_readers/upkeep/clinical_generate_variables.py:42-48 | The loop fails exactly when some entry has no earlier entry one level up, and it names the first such entry. |
| GenerateVariables.HeadersSpec | mcw_readers/upkeep/clinical_generate_variables.py:42-49 | On success there is one header per entry, as `ParentOfSpec` describes. |
| PyStr.JoinSplit | mcw_readers/interfaces/lut.py:149-150 | Splitting an identifier on any non-empty separator and joining the pieces gives back the identifier. |
| PyStr.SplitPieces | mcw_readers/interfaces/lut.py:149-150 | No piece of a split contains the separator, so the pieces are the separator-free stretches between occurrences. |
| PyStr.WordsJoin | mcw_readers/parsers/neuroreader.py:114 | `str.split()` of non-empty words without spaces, joined by single spaces, gives back those words. |

## Left out

- Workbook loading, openpyxl objects, `row_dimensions` and `alignment.indent` are not modelled. A worksheet is given as rows of cells (value, indent, hidden flag) and `max_column`. Cells past a row's stored cells read as blank.
- Reading and writing files is not modelled: CSV/TSV/Excel loading and writing, the PDF reading, `print` calls, the GUI and the command-line scripts. Their tables are inputs (sequences of rows).
- `wb_parser.parse_header` and `parse_default_data` are not modelled: they format dates of fixed cells and load package resources.
- `wb_parser.find_new_lines` and `peds_wb_parser.get_new_identifiers` are not modelled. The first returns the `line` class itself and the second refers to an undefined name.
- `clinical_detect_neuroscore_version` is not part of this model. Its result is a parameter (`Option<string>`).
- Clinical.CollectAll: reads the key's sheets in key order, while the source reads them grouped by worksheet in sorted order. The record is a map, so this changes only which error is reported first when several sheets fail.
- Clinical.ReadCell: does not model `int()` of row and column numbers (they are integers already), nor pandas' NaN floats. A blank cell is the `NaN` reading.
- Clinical.NeuroscoreSpec: the record is a map from variable to reading, not a one-row DataFrame, so column order is not modelled.
- Neuroreader: the `results_mapper` and `table_mapper` float reads, the mtiv regular expression and its float, `version = pdf_data[0][-1]`, the birth-date and analysis-date `strptime` formatting, and the DEMENTIA/ECP steps are not modelled. They are float and date parsing over fixed positions.
- Neuroreader.SplitName: the DEMENTIA step's `results.pop('middle_name')` after the split is not modelled, so its `KeyError` on a two-word name is not modelled either.
- GenerateVariables.RedcapName: `\d` is taken as ASCII `0`-`9`. Python's `re` also matches other Unicode digits.
- GenerateVariables.ColumnNumber: lower-casing is ASCII only.
- GenerateVariables.KeyRowOf: variables are strings. A null variable, which pandas passes through as NaN, is not modelled.
- The `is_bold`/`bold_header` forward fill (`clinical_generate_variables.py:30-36`) is not modelled. Nothing else in the file depends on it.
- WbParsers.ParseData: `results[var]` holds the reading itself rather than a one-element list.
- Lut.NewLut: the LUT frame's identifiers are strings and its test numbers integers. A blank (NaN) identifier or test number is not modelled, so neither is the AttributeError that `x.split(' | ')` raises on a NaN identifier (`lut.py:149-150`).
- Utils.GetPsychometricObjects: the table is given as a sequence of rows, and the returned `df` is not modelled.
- Integers are unbounded, and the source relies on no fixed width. Percentile ranks and scores are reals; floating-point rounding is not modelled.
