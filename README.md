# honeybee-energy result decoding, CSV export and construction-set library in Dafny

This project models three parts of honeybee-energy:

- **The EnergyPlus SQLite result decoder** (`SQLiteResult`). The database is plain data:
  - dictionary rows;
  - `(value, time index)` data rows;
  - a map from time index to a Time record;
  - a map from table name to its string rows.

  Against that data the model covers:
  - the path check of the constructor, and the lazily cached `location` field;
  - the run-period and frequency decoder;
  - the transposition of the flat data rows into one value list per channel, with the
    Joule to kWh conversion;
  - the first-match unit lookup and the design-day check;
  - the location parser;
  - the assembly of `data_collections_by_output_name`.

- **The row logic of the `result` commands**:
  - the `[a, b]` output-name parser;
  - the header rows (with the Zone → Surface → System object-cell fallback) and the data
    rows of `output-csv`;
  - for `output-csv-queryable`: the routing of matched outputs and the "no match"
    failure, room and face normalisation (zero floor area gives zeros), the base
    collection and its datetime rows, column names, the `write_rows` row writer, and the
    room file then the face file.

- **The construction-set library**:
  - module initialisation, which adds the generic default set;
  - the `CONSTRUCTION_SETS` list;
  - the `construction_set_by_name` fallback chain;
  - `_constrs_from_set_dict`, which collects the constructions a standards entry
    references.

Files:
- `common.dfy`: `Result`, `Option` and the output-name argument type.
- `text.dfy`: Python's `str.split`, `join`, `strip`, `replace` and ASCII `lower`, with their lemmas.
- `seqs.dfy`: `zip(*)` transposition and fixed-size slicing.
- `sql_result.dfy`: the result decoder.
- `cli_result.dfy`: the commands' row logic.
- `construction_sets.dfy`: the construction-set library.

Where the code loops or updates state, the model is a method proved against a
specification function:
- the timeseries cleaners;
- the header and collection builders;
- the `location` cache, as a class field;
- the `obj_row` and row-writing loops;
- normalisation, in place on an array;
- the nested loops of `_constrs_from_set_dict`;
- the library initialisation, a constructor over the loaded-set fields.

Properties are proved about those functions.

The model follows the code in these places:
- **`kWh` units.** A unit that is already `kWh` is divided by 3,600,000 as well. After
  relabelling `J` as `kWh`, the code tests the label and not the original unit.
- **One-name tuples.** A tuple of exactly one output name is formatted into the SQL
  text as `('x',)`. That is a syntax error, so it fails (`QueryRejected`).
- **Ragged data.** A data-row count that is not a multiple of the channel count is
  truncated by `zip`. It raises no error.
- **Short General table.** A General table with fewer than seven rows fails with an
  index error (`MissingTableRow`). Only an empty table leaves the location unset.
- **Location fields.** Latitude, longitude, time zone and elevation are read from rows
  3, 4, 6 and 5.

## Model

| member | source | states |
|---|---|---|
| SqlResult.CheckPath | honeybee_energy/result/sql.py:31-33 | the path is accepted iff it is a file and ends in `.sql`, `.db` or `.sqlite`; otherwise the failing check is named |
| SqlResult.Open | honeybee_energy/result/sql.py:29-35 | a rejected path gives that error; an accepted one gives a fresh result object with no cached location |
| SqlResult.SQLiteResult.GetLocation | honeybee_energy/result/sql.py:42-51 | a cached location is returned unchanged; otherwise the parse is returned and a parsed location is cached |
| SqlResult.RowsNamed | honeybee_energy/result/sql.py:70-76 | a dictionary row is selected iff its output name is one of the requested names |
| SqlResult.RowsNamedAppend | honeybee_energy/result/sql.py:70-76 | selecting from two runs of rows is selecting from the first and then from the second, so table order is kept |
| SqlResult.RowsNamedOne | honeybee_energy/result/sql.py:70-76 | one row is kept iff its name is requested |
| SqlResult.SelectChannels | honeybee_energy/result/sql.py:70-76 | a single name selects its rows; a tuple selects the rows for any of its names and fails when it has exactly one name |
| SqlResult.RowsOf | honeybee_energy/result/sql.py:84-91 | a data row is kept iff its dictionary index is one of the selected channels |
| SqlResult.RowsOfAppend | honeybee_energy/result/sql.py:84-91 | selecting from two runs of data rows is selecting from the first and then from the second, so table order is kept |
| SqlResult.RowsOfOne | honeybee_energy/result/sql.py:84-91 | one data row is kept iff its dictionary index is selected |
| SqlResult.TabularData | honeybee_energy/result/sql.py:135-153 | the rows of a named table, and none for an unknown table |
| SqlResult.TruncDiv | honeybee_energy/result/sql.py:199 | for a non-negative numerator and a positive divisor, `int(a / b)` is the largest `q` with `q * b <= a` |
| SqlResult.DecodeInterval | honeybee_energy/result/sql.py:196-204 | decoding succeeds iff the interval type is at most 1 with a non-zero interval, or is 2 to 4; type at most 1 gives `int(60 / interval)` steps per hour and `min_per_step` equal to the interval; types above 1 give a named code with one step and 60 minutes |
| SqlResult.NamedFrequencies | honeybee_energy/result/sql.py:200-202 | interval types 2, 3 and 4 give Daily, Monthly and Annual, each with one step and 60 minutes; no other type gives a named frequency |
| SqlResult.StepsPerHour | honeybee_energy/result/sql.py:197-200 | for intervals of 1 to 60 minutes the step count is between 1 and 60 and is `int(60 / interval)`; 60 minutes gives one step |
| SqlResult.RunPeriodFields | honeybee_energy/result/sql.py:207-216 | leap year iff `year % 4 == 0`; start day 1 for Monthly, else the raw day; start hour 0; the raw end date; end hour `(1440 - min_per_step) div 60`, which is 23 for 1 to 60 minutes |
| SqlResult.RunPeriodErrors | honeybee_energy/result/sql.py:186-204 | a missing start or end record, a zero interval and an interval code past Annual each fail with their own error |
| SqlResult.DataTypeFromUnit | honeybee_energy/result/sql.py:228-235 | a data type is found iff some entry lists the unit, and it is that of the first such entry |
| SqlResult.CheckDesignDaysInReport | honeybee_energy/result/sql.py:220-225 | an empty Simulation Control table gives true; otherwise the result is whether row 3 is `No`, and a table of one to three rows fails |
| SqlResult.ExtractLocation | honeybee_energy/result/sql.py:155-170 | no location iff the General table is empty; latitude, longitude, elevation and time zone are rows 3, 4, 5 and 6 |
| SqlResult.LocationRoundTrip | honeybee_energy/result/sql.py:163-166 | `city + " " + source + " StationId=" + id` parses back into city, source and id when source and id hold no space and id holds no `=` |
| SqlResult.LocationTokens | honeybee_energy/result/sql.py:163 | splitting `city source last` on spaces gives the city's tokens, then source, then last |
| SqlResult.StationIdToken | honeybee_energy/result/sql.py:166 | the text after the last `=` of `StationId=id` is id |
| SqlResult.CleanTimeseriesData | honeybee_energy/result/sql.py:237-243 | the loop's blocks transposed are the reconstruction of the rows' values |
| SqlResult.CleanAndConvertTimeseriesData | honeybee_energy/result/sql.py:245-251 | the same for the values divided by 3,600,000 |
| SqlResult.NextChunk | honeybee_energy/result/sql.py:241-242 | one loop step takes the next block of `n_lists` values and leaves the blocks of the rest |
| SqlResult.ReconstructExact | honeybee_energy/result/sql.py:238-243 | for `k * n` rows there are `n` sequences of length `k`, sequence `i` being values `i, i + n, i + 2n, ...` |
| SqlResult.ReconstructRagged | honeybee_energy/result/sql.py:241-243 | for `k * n + r` rows with `0 < r < n` there are `r` sequences of length `k + 1`, laid out the same way |
| SqlResult.ConvertedExact | honeybee_energy/result/sql.py:246-251 | for `k * n` rows, converted channel `i`'s `j`-th value is data row `i + j * n` divided by 3,600,000 |
| SqlResult.ConvertedMatchesPlain | honeybee_energy/result/sql.py:238-251 | the converted reconstruction has the plain one's shape, each value divided by 3,600,000 |
| SqlResult.MetadataKeys | honeybee_energy/result/sql.py:106-107 | a header's metadata has `type` mapped to the output name and the object key mapped to the object name, and no other key |
| SqlResult.Headers | honeybee_energy/result/sql.py:104-108 | one header per dictionary row |
| SqlResult.Combine | honeybee_energy/result/sql.py:118-129 | pairing headers with value lists stops at the shorter |
| SqlResult.BuildHeaders | honeybee_energy/result/sql.py:104-108 | the loop builds, for each row, a header of the data type, units, run period and that row's metadata |
| SqlResult.BuildCollections | honeybee_energy/result/sql.py:118-129 | the loop pairs each header with its value list in the chosen container, up to the shorter list |
| SqlResult.AssembleOutput | honeybee_energy/result/sql.py:101-133 | the method's headers, values and container equal the assembly function's |
| SqlResult.SQLiteResult.DataCollectionsByOutputName | honeybee_energy/result/sql.py:53-133 | the method's result, errors included, is the collections function of the database |
| SqlResult.NoMatchIsEmpty | honeybee_energy/result/sql.py:78-81 | a name that no dictionary row carries gives the empty list |
| SqlResult.NoRowsNamed | honeybee_energy/result/sql.py:76-79 | rows none of which carries a requested name select nothing |
| SqlResult.AssembledHeaders | honeybee_energy/result/sql.py:101-108 | every collection's header has the relabelled unit, its data type, the run period and the two-key metadata; the object key is `Surface` when a surface output was requested |
| SqlResult.AssembledContainer | honeybee_energy/result/sql.py:119-131 | Hourly or a step count gives hourly collections; Daily and Monthly give their own; anything else gives the raw value lists |
| SqlResult.AssembledValues | honeybee_energy/result/sql.py:110-131 | for `k * n` data rows there is one collection or list per channel, holding that channel's values |
| SqlResult.ChannelValuesExact | honeybee_energy/result/sql.py:110-115 | channel `i`'s `j`-th value is data row `i + j * n`, divided by 3,600,000 when the unit label is `kWh` |
| SqlResult.JoulesRelabelled | honeybee_energy/result/sql.py:102-115 | `J` is relabelled `kWh` and the values are converted; any other unit except `kWh` keeps its label and values |
| CliResult.ParseOutputName | honeybee_energy/cli/result.py:270-272 | a name not starting with `[` is passed through; otherwise name `k` is piece `k` of the bracket-stripped text split on `,`, with its `"` removed and then only whitespace dropped at its ends; there are commas + 1 names, none holding `"` or `,` and none with surrounding whitespace |
| CliResult.Item | honeybee_energy/cli/result.py:271 | an item is a slice of the piece without its `"`, with only whitespace dropped outside it and none left at its ends |
| CliResult.ParseQuotedList | honeybee_energy/cli/result.py:270-272 | `["a","b",...]` parses back into the names when they hold no comma or quote and no surrounding whitespace |
| CliResult.ParsePaddedList | honeybee_energy/cli/result.py:270-272 | a list of quoted names with any whitespace around each quoted name parses back into the names |
| CliResult.ParseJsonList | honeybee_energy/cli/result.py:270-272 | the JSON form `["a", "b"]` parses back into the names |
| CliResult.UnquotePadded | honeybee_energy/cli/result.py:271 | a quoted name with whitespace around it is read back as the name |
| CliResult.FirstPresent | honeybee_energy/cli/result.py:350-360 | the value of the first key present, or empty when none is |
| CliResult.ObjectCell | honeybee_energy/cli/result.py:350-360 | the Zone value if present, else Surface, else System, else empty |
| CliResult.ObjectRow | honeybee_energy/cli/result.py:349-360 | the loop builds an empty cell followed by each collection's object cell |
| CliResult.HeaderRows | honeybee_energy/cli/result.py:347-360 | the type, units and object rows have `1 + n` cells, start with `DateTime`, empty and empty, and then hold each collection's type, unit and object cell |
| CliResult.DataRowsShape | honeybee_energy/cli/result.py:363-375 | no collections gives no data rows; otherwise there are exactly as many rows as the shortest column has entries, and row `i` holds datetime `i`, then value `i` of each collection |
| CliResult.DataRowsCount | honeybee_energy/cli/result.py:363-375 | when every column has as many values as there are datetimes, there is one row per datetime |
| CliResult.AppendRows | honeybee_energy/cli/result.py:370-376 | writing further rows extends the text by exactly those rows |
| CliResult.OutputCsv | honeybee_energy/cli/result.py:346-376 | the written text is the three header rows then the data rows; a collection without `type` metadata fails |
| CliResult.LinesSplit | honeybee_energy/cli/result.py:370-371 | the written text split on line breaks is the rows, each joined with commas, then an empty final piece |
| CliResult.CsvRoundTrip | honeybee_energy/cli/result.py:370-376 | a written row whose cells hold no comma or line break is read back cell by cell |
| CliResult.RouteKeepsMatches | honeybee_energy/cli/result.py:458-472 | only non-empty matches are kept, and outputs without a `Surface` key contribute no face data |
| CliResult.MatchToModel | honeybee_energy/cli/result.py:455-474 | the command fails with "no match" iff neither room nor face data matched; otherwise it gives both groups |
| CliResult.NormalizedRoomValues | honeybee_energy/cli/result.py:485-493 | same length; each value is divided by floor area times multiplier, and a zero divisor gives zeros |
| CliResult.Quotient | honeybee_energy/cli/result.py:484-490 | the quotient times the divisor is the dividend |
| CliResult.DividedValues | honeybee_energy/cli/result.py:483-484 | a zero divisor with values fails with a division by zero; otherwise each value is divided by the divisor |
| CliResult.DivideAll | honeybee_energy/cli/result.py:480-484 | a group's division fails iff some tuple's fails; otherwise every tuple has its values divided |
| CliResult.NormalizeRoomGroup | honeybee_energy/cli/result.py:486-493 | every matched room in the group has its values normalised in place |
| CliResult.DivideGroup | honeybee_energy/cli/result.py:480-484 | division in place fails iff some tuple's does; on success every tuple is divided, and on failure the tuples before the first failing one are divided and the rest are unchanged |
| CliResult.NormalizeFaces | honeybee_energy/cli/result.py:477-484 | a face group is divided by its face areas when normalisation is asked for and its first collection is normalizable, and left unchanged otherwise |
| CliResult.RoomGroupIntended | honeybee_energy/cli/result.py:485-496 | a room group is normalised when normalisation applies, and otherwise each tuple is divided by its multiplier |
| CliResult.MultipliersAccounted | honeybee_energy/cli/result.py:494-496 | with no zero multiplier, a group that is not normalised has each value times its multiplier equal to the value it replaces |
| CliResult.NormalizeRooms | honeybee_energy/cli/result.py:485-496 | the room loop over one group, in place, gives what `RoomGroupIntended` gives, or its division by zero |
| CliResult.FaceLoop | honeybee_energy/cli/result.py:477-484 | the face loop keeps the groups' shapes, and without normalisation leaves them as they are |
| CliResult.FaceLoopBinding | honeybee_energy/cli/result.py:478-479 | after the face loop `matched_tup` is unbound without normalisation, and otherwise is the last tuple of a normalised face group |
| CliResult.DivideBound | honeybee_energy/cli/result.py:494-496 | as written, the `else` branch fails when `matched_tup` is unbound, and otherwise can change only the bound tuple |
| CliResult.RoomStep | honeybee_energy/cli/result.py:485-496 | one step of the room loop as written changes only its own group when normalised, and the bound tuple's group |
| CliResult.NoNormalizeFails | honeybee_energy/cli/result.py:477-496 | as written, without normalisation any matched room data makes the room loop fail on an unbound `matched_tup` |
| CliResult.UnnormalizedRoomsUntouched | honeybee_energy/cli/result.py:485-496 | as written, a room group that is not normalised comes out of the loop with its values unchanged |
| CliResult.DoubleDivision | honeybee_energy/cli/result.py:485-496 | as written, a normalised group followed by one that is not has the first group's last tuple divided again while the second keeps its values; as intended, the second is divided by its multiplier |
| CliResult.DateTimeRows | honeybee_energy/cli/result.py:501-515 | one row per moment of an hourly base, per day of a daily one and per month of a monthly one, and none for any other collection; each row has five cells starting with 2016 for a leap year and 2017 otherwise; hourly rows hold month, day, hour and minute; daily rows the date of the day then two zeros; monthly rows `m, 1, 0, 0` |
| CliResult.DateTimeTableUnique | honeybee_energy/cli/result.py:501-515 | the datetime rows are determined by the base collection |
| CliResult.BaseSeriesOf | honeybee_energy/cli/result.py:499-500 | the base collection is the first room collection when any room data matched, and otherwise the first face collection |
| CliResult.ColumnName | honeybee_energy/cli/result.py:537 | same length; spaces become `_`, every other character goes through the ASCII lowercase map, and no space or ASCII upper-case letter is left |
| CliResult.ColumnNameIdempotent | honeybee_energy/cli/result.py:537 | normalising a column name twice changes nothing further |
| CliResult.ColumnNames | honeybee_energy/cli/result.py:535-550 | the six datetime and identifier columns, then each output type's column name |
| CliResult.CellsAtFull | honeybee_energy/cli/result.py:526-528 | when every collection reaches row `i`, row `i` gets one cell per collection, in order |
| CliResult.WriteRows | honeybee_energy/cli/result.py:522-530 | fails iff some collection has more values than there are datetime rows; otherwise writes the query rows |
| CliResult.QueryRowsShape | honeybee_energy/cli/result.py:522-530 | each row is its datetime row, then the identifier, then each collection's value in order |
| CliResult.GroupTypes | honeybee_energy/cli/result.py:537-549 | one output type per group, taken from its first match |
| CliResult.TupleDatas | honeybee_energy/cli/result.py:542-554 | one value list per output in a tuple |
| CliResult.WriteTuples | honeybee_energy/cli/result.py:541-556 | the loop writes each tuple's rows in order, and stops at the first that does not fit |
| CliResult.WriteQueryableCsv | honeybee_energy/cli/result.py:532-556 | the file text is the column-name header and the tuples' rows; there is no file for no groups |
| CliResult.WriteQueryableFiles | honeybee_energy/cli/result.py:499-556 | the datetime rows are those of the base collection, and both the room file and then the face file are written with them; a failure in either fails the command |
| CliResult.OverrunFails | honeybee_energy/cli/result.py:522-529 | a file fails with a row-index error when a collection that `zip` reaches has more values than there are datetime rows |
| CliResult.FaceOverrunFails | honeybee_energy/cli/result.py:499-556 | when room data matched, a face collection with more values than the first room collection has datetimes fails the command with a row-index error |
| CliResult.TuplesTextFailureStays | honeybee_energy/cli/result.py:541-544 | once a tuple fails, the rows after it do not change the failure |
| CliResult.TuplesTextError | honeybee_energy/cli/result.py:527-528 | writing fails only with a row-index error |
| CliResult.QueryableHeaderSplits | honeybee_energy/cli/result.py:535-540 | the header line splits back into the column names when no output type holds a comma |
| ConstructionSets.NestedRefs | honeybee_energy/lib/constructionsets.py:46-55 | the values of a nested entry are looked up as opaque or window constructions |
| ConstructionSets.Resolve | honeybee_energy/lib/constructionsets.py:50-59 | nested and air boundary names are tried as opaque constructions first; a nested name falls back to windows only when that fails; shade names are looked up as shades |
| ConstructionSets.ConstrsFromSetDict | honeybee_energy/lib/constructionsets.py:41-60 | the nested loops give the collection function's result, stopping at the first failed lookup |
| ConstructionSets.AddEntry | honeybee_energy/lib/constructionsets.py:46-59 | one entry adds its references' constructions; plain entries other than shade and air boundary add nothing |
| ConstructionSets.AddNested | honeybee_energy/lib/constructionsets.py:47-55 | the inner loop adds every non-`type` value's construction |
| ConstructionSets.ReferenceNames | honeybee_energy/lib/constructionsets.py:44-60 | a name is referenced iff it is a non-`type` value of a nested entry, or the shade or air boundary value |
| ConstructionSets.CollectOutcome | honeybee_energy/lib/constructionsets.py:44-60 | the collection fails iff some referenced name cannot be looked up; otherwise its keys are exactly the referenced names, each holding the lookup of its last reference |
| ConstructionSets.CollectError | honeybee_energy/lib/constructionsets.py:50-59 | a failed collection names the missing construction |
| ConstructionSets.ExtendAppend | honeybee_energy/lib/constructionsets.py:45-59 | assigning two runs of references is assigning the first and then the second |
| ConstructionSets.DistinctCard | honeybee_energy/lib/constructionsets.py:19-20 | a list of distinct names is as long as their set |
| ConstructionSets.ConstructionSetLibrary.constructor | honeybee_energy/lib/constructionsets.py:10-15 | after initialisation the generic set is loaded; an existing entry is kept, and otherwise it is appended |
| ConstructionSets.ConstructionSetLibrary.ConstructionSetNames | honeybee_energy/lib/constructionsets.py:19-20 | the loaded names then the standards names; the length is the sum, and the names are those of either library |
| ConstructionSets.ConstructionSetLibrary.ConstructionSetByName | honeybee_energy/lib/constructionsets.py:23-38 | a loaded set is returned as stored; else a standards entry is built from its constructions and fails iff one is missing; else "not found" |
| ConstructionSets.ConstructionSetLibrary.ListedNamesAreFound | honeybee_energy/lib/constructionsets.py:19-38 | a listed name is never "not found", and the generic set is always found |
| ConstructionSets.InitAndLookUpGeneric | honeybee_energy/lib/constructionsets.py:10-30 | after initialisation, looking up the generic set gives the loaded one, or the new default set |
| Text.Split | honeybee_energy/result/sql.py:163 | `str.split(sep)`: one more piece than there are separators, and no piece holds the separator |
| Text.JoinSplit | honeybee_energy/result/sql.py:163-164 | joining the pieces of a split gives the input back |
| Text.SplitJoin | honeybee_energy/cli/result.py:540 | splitting a join of separator-free parts gives the parts back |
| Text.StripChars | honeybee_energy/cli/result.py:272 | `str.strip(chars)` gives a slice of the input with only stripped characters outside it and none at its ends |
| Text.StripCharsUnique | honeybee_energy/cli/result.py:272 | any slice with only stripped characters outside it and none at its ends is what `strip` gives |
| Seqs.Zip | honeybee_energy/result/sql.py:243 | `zip(*)`: result `i` holds element `i` of every input, up to the shortest |
| Seqs.ZipChunksExact | honeybee_energy/result/sql.py:240-243 | for `k * n` values, `n` transposed sequences of `k` values, sequence `i` holding values `i, i + n, ...` |
| Seqs.ZipChunks | honeybee_energy/result/sql.py:241-243 | the shape and layout of transposed blocks, for any row count |

## Left out

- The SQL text, `sqlite3` connections and cursors. The database is an input value.
- The foreign classes: ladybug's `Header`, `AnalysisPeriod`, `DateTime`, `Location`, the data collections, `UNITS` and `TYPESDICT`.
  - Headers, run periods, locations and collections are plain records.
  - `UNITS` is an ordered list of (type, units) pairs.
- SqlResult.DecodeRunPeriod: `add_minute(1440 - min_per_step)` is modelled only within one day. An offset outside `[0, 1440)` gives `EndBeyondDay`, not a day rollover.
- Floating point. Values and areas are Dafny reals; no rounding is modelled.
- `str()` rendering of numbers and datetimes.
  - Datetime cells and the values of `output-csv` are taken as already-rendered strings.
  - In `output-csv-queryable` the rendering is a parameter.
  - Python renders the zero fallback `[0] * len` as `0`, not `0.0`, so the rendering function would need to see integers. Here it sees reals.
- `Date.from_doy` and the matching functions `match_rooms_to_data` and `match_faces_to_data` are parameters.
- `Model.from_dict`, unit conversion, click options, the files written, JSON logging, `sys.exit` and run-period selection by name.
  - When the face file fails, the room file written before it stays on disk. The model gives only the error.
- The `else` branch of room normalisation (honeybee_energy/cli/result.py:494-496) reads `matched_tup`, which only an earlier loop binds. It never touches the current group, and it does one of three things:
  - It raises an `UnboundLocalError` when no loop bound `matched_tup`. This always happens with `--no-normalize`, because the face loop runs only under `if normalize:`. It also happens under normalisation when the first room group is not normalizable and no face group was normalised. The command then logs the error and exits with status 1, writing no CSV.
  - It indexes `[2]` on a face tuple left over from the face loop.
  - It divides an earlier room group's last collection by its multiplier a second time.
  `NormalizeAsWritten` models this branch as written, and "## Findings" records it. `NormalizeRooms` models what the comment at :494 intends instead: each tuple of the current group divided by its multiplier.
- `match_faces_to_data` is not part of this model. Whether its tuples have a third element is the `facesCarryMultiplier` parameter of the as-written loop; without one, `matched_tup[2]` fails with `TupleIndexOutOfRange`.
- The `isinstance(matched_tup, Face)` test at honeybee_energy/cli/result.py:481 is always false for a tuple. The model always divides by the face's area.
- CliResult.NormalizeRoomGroup: normalises a group unconditionally. `NormalizeRooms` adds the test on the `normalize` flag and the first collection's normalised type.
- CliResult.NormalizeRooms: follows the intent of the `else` branch, not its code (see above and "## Findings").
- CliResult.ColumnName: lowercases ASCII `A`–`Z` only. Python's `lower()` also folds the other cased Unicode letters, and some of them change length.
- SqlResult.RowsNamed, SqlResult.RowsOf: the dictionary and data queries (honeybee_energy/result/sql.py:70-74 and 84-89) have no `ORDER BY`. The model returns them in table order. SQLite does not promise any order without `ORDER BY`.
- The other commands of the `result` group (available results, tabular data, sizes, load balance) are not part of this model.
- `ConstructionSet` construction, `from_dict_abridged` and `lock()`.
  - A set built from standards data is the pair of its dictionary and its collected constructions.
  - A `KeyError` raised inside `from_dict_abridged` is not modelled.
- The construction library itself (`honeybee_energy/lib/constructions.py` and `_loadconstructionsets`) is not part of this model. Its three lookups are maps from which a name may be missing.
- Non-string values (such as `None`) in a standards dictionary are not modelled.
- honeybee_energy/cli/simulate.py (process orchestration) and tests/idealair_test.py (the ideal air system) are not part of this model.

## Findings

| source | as written | input that shows it | evidently intended | confidence | as-written member | corrected member |
|---|---|---|---|---|---|---|
| honeybee_energy/cli/result.py:477-496 | the room loop's `else` branch reads `matched_tup`, which only the face loop or an earlier room group binds | `output-csv-queryable --no-normalize` with any room output matched: `matched_tup` is unbound, so the command exits with status 1 and writes no CSV | each tuple of the current group divided by its room multiplier, as the comment at :494 says | not executed | CliResult.NoNormalizeFails | CliResult.NormalizeRooms |
| honeybee_energy/cli/result.py:485-496 | the `else` branch divides the tuple bound last, never the current group | normalising a room group whose type has a normalised form, followed by one whose type has none (a temperature): the first group's last collection is divided by its multiplier a second time, and the second group keeps its values | the second group divided by its multipliers, the first only normalised | not executed | CliResult.DoubleDivision | CliResult.NormalizeRooms |
