# kokdata in Dafny

A Dafny model of the data-shaping core of kokdata. kokdata is a small Flask
dashboard for river and soil monitoring stations in Thailand, together with
the script that loads its CSV exports into SQLite.

The model covers five parts:

- **Row clean-up** (`Rows`). Every text field of a fetched row is stripped of
  surrounding whitespace in place. Other values (`id`, NULL) are untouched.
- **Station list page** (`StationDirectory`). `get_stations` and
  `get_station_by_code` clean each row. `index` derives four sorted,
  de-duplicated filter lists (rivers, provinces, tambons, amphoes) and the
  `province -> amphoe -> sorted tambons` hierarchy behind the cascading
  dropdowns.
- **Measurement pivot** (`MeasurementPivot`). `get_water_data` and
  `get_soil_data` are one routine, parameterised by `Schema = Water | Soil`.
  The routine turns flat rows into:
  - a sparse `parameter -> check -> value` map;
  - a global check order: integers ascending, then texts in code-point order;
  - the sorted parameters;
  - per parameter, one table row and one chart row. Each is dense over the
    checks and keyed by `str(check)`.

  Soil check numbers lose the round word "ครั้งที่" before the integer parse.
  Only water tracks a unit per parameter.
- **CSV import** (`CsvImport`). `create_table_from_csv` and `main`:
  - the stripped header becomes the column list, and the database rejects an
    empty list, a column named `id` and two columns with the same name;
  - data records are padded with `''` or truncated to the header's width;
  - the INSERT has one `?` per column;
  - `rows_inserted` and `total_rows` count the records.
- **Python built-ins the code relies on** (`Strings`, `Sorting`):
  - `str.strip` over the `str.isspace` characters;
  - code-point string order;
  - `int(...)` on a string, as an `Option`;
  - `str(n)`;
  - `str.replace(token, '')`;
  - `sep.join`;
  - `sorted` of a set.

Where the source mutates state in a loop, the model is a method with a loop,
proved against a function. Examples:

- `StripStrings` against `StripAll`;
- `CollectRows` against the folds `Accumulate`, `UnitInfo` and `CheckSet`;
- `CollectTambons` against `HierarchySets`;
- `FitRow` against `Fit`;
- `ImportAll` against `Convert`.

The properties the code promises are proved about those functions as lemmas.

## Model

| member | source | states |
|---|---|---|
| Strings.StripLeft | app.py:45-46 | the left strip leaves a suffix of the input that is empty or starts with a non-space |
| Strings.StripRight | app.py:45-46 | the right strip leaves a prefix of the input that is empty or ends with a non-space |
| Strings.IsSpace | app.py:45-46 | the whitespace class `str.strip()` removes; pinned down by `StripLeftDropsSpace` and `StripSurrounds` |
| Strings.StripLeftDropsSpace | app.py:45-46 | everything the left strip removes is whitespace |
| Strings.StripRightDropsSpace | app.py:45-46 | everything the right strip removes is whitespace |
| Strings.Strip | app.py:45-46 | `strip()` leaves no whitespace at either end and never lengthens the string |
| Strings.StripSurrounds | app.py:45-46 | the input is its stripped form with only whitespace before and after it |
| Strings.StripTrimmed | app.py:45-46 | stripping a string with no surrounding whitespace returns it unchanged |
| Strings.StripLeftSpace | app.py:45-46 | a leading whitespace character is skipped by the left strip |
| Strings.StripLeftSpaces | app.py:283 | any run of leading whitespace is skipped by the left strip |
| Strings.StripPadded | app.py:283 | a text with no surrounding whitespace, after leading whitespace, strips to itself |
| Strings.StripIdempotent | app.py:45-46 | stripping twice equals stripping once |
| Strings.StrLessIrreflexive | app.py:60 | no string sorts before itself |
| Strings.StrLessTransitive | app.py:60 | code-point order is transitive |
| Strings.StrLessTotal | app.py:60 | any two distinct strings are ordered one way or the other |
| Strings.StrLessIsStrictTotalOrder | app.py:60-63 | code-point order is a strict total order, so `sorted` on strings has one answer |
| Strings.ParseInt | app.py:183-187 | `int(s)` on a stripped string: the value of an optional sign and ASCII digits, `None` for the `ValueError` case; pinned down by `ParseIntToString`, `ParseIntLeadingZero` and `CheckKeyOfDigits` |
| Strings.IntToString | app.py:208 | `str(n)` of an integer; pinned down by `NatToStringDigits`, `IntToStringShape` and the round trip `ParseIntToString` |
| Strings.NatToStringDigits | app.py:208 | the decimal form of a natural is a non-empty digit string whose value is the number |
| Strings.ParseIntToString | app.py:183-208 | `int(str(n)) == n` for every integer |
| Strings.IntToStringShape | app.py:208 | `str(n)` is non-empty and made of digits and a minus sign only |
| Strings.ParseIntLeadingZero | app.py:183 | "01" and "1" both parse to 1 |
| Strings.RemoveAll | app.py:283 | `replace(tok, '')` never lengthens the string and only keeps characters of the input |
| Strings.RemoveAllAbsent | app.py:283 | a string without the token's first character is returned unchanged |
| Strings.RemoveAllPrefix | app.py:283 | a token at the start of the string is removed |
| Strings.RemoveAllSkip | app.py:283 | a leading stretch without the token's first character is kept as it is, and the removal goes on after it |
| Strings.RemoveAllOccurrence | app.py:283 | for any prefix `a` without the token's first character, `replace` on `a + tok + b` gives `a` followed by `replace` on `b`: the first occurrence is removed wherever it stands |
| Strings.CountAppend | convert_csv_to_sqlite.py:44 | character counts add over concatenation |
| Strings.Join | convert_csv_to_sqlite.py:31-44 | `sep.join(parts)`; pinned down by `CountJoin`, `CountJoinEach` and `PlaceholdersCount` |
| Strings.CountJoin | convert_csv_to_sqlite.py:44 | joining parts with one occurrence each, by a separator with none, gives one occurrence per part |
| Sorting.IntLessIsStrictTotalOrder | app.py:196 | `<` on integers is a strict total order |
| Sorting.Insert | app.py:83 | inserting into an ascending list keeps it ascending and adds exactly the element, at most once |
| Sorting.SortedUnique | app.py:60-63 | `sorted(list(set(xs)))` is ascending and holds exactly the elements of `xs` |
| Sorting.Enumerate | app.py:83 | a finite set can be listed |
| Sorting.SortedSet | app.py:83 | `sorted(s)` of a set is ascending and holds exactly `s` |
| Sorting.AscendingUnique | app.py:83 | two ascending lists with the same elements are equal, so the order a set is walked in does not matter |
| Sorting.AscendingTail | app.py:83 | dropping the head of an ascending list removes exactly that element |
| Sorting.AscendingCard | app.py:83 | an ascending list holds each of its elements exactly once |
| Sorting.SortSet | app.py:83 | the insertion loop yields the ascending, duplicate-free listing of the set, equal to `SortedSet` |
| Rows.StripValue | app.py:45-46 | a text value stays text and becomes its trimmed core, with only whitespace removed around it; any other value is returned unchanged |
| Rows.StripAll | app.py:44-46 | the cleaned row has the same columns; every text value is trimmed and is the original with only surrounding whitespace removed; every non-text value is untouched |
| Rows.StripAllIdempotent | app.py:44-46 | cleaning a row twice equals cleaning it once |
| Rows.StripStrings | app.py:44-46 | the in-place strip loop yields exactly `StripAll` of the row |
| Rows.StripAllAgrees | app.py:44-46 | a row with the same columns and every value cleaned is the cleaned row |
| Rows.StripEntry | app.py:45-46 | one loop turn strips the value of one key and changes no other entry |
| Rows.Truthy | app.py:207-221 | Python truthiness behind `if value:`: `None`, 0 and the empty string are false; its effect on the cells is stated by `CellFromLastRow` |
| StationDirectory.LoadStations | app.py:40-47 | `get_stations` returns every fetched row, in order, cleaned |
| StationDirectory.StationByCode | app.py:127-134 | `get_station_by_code` returns the cleaned row when one was found and `None` otherwise |
| StationDirectory.StripKeepsStationRow | app.py:44-46 | cleaning keeps every station column present and text or NULL |
| StationDirectory.HasValueSnoc | app.py:60 | the values in a column over one more station are the earlier ones plus the new station's |
| StationDirectory.FilterValues | app.py:60-63 | the comprehension keeps exactly the non-empty values of the column |
| StationDirectory.Get | app.py:69-71 | `station.get(column, '')`: a missing column reads as the empty text; pinned down by `HierarchySetsSpec` and `BuildHierarchy` |
| StationDirectory.HierarchySets | app.py:67-78 | the dictionary of sets built by the first hierarchy loop; pinned down by `HierarchySetsSpec` (an iff with the stations' locations, no level empty) |
| StationDirectory.AddTambon | app.py:74-78 | one insertion into the dictionary of sets, creating missing levels; pinned down by `AddTambonSpec` |
| StationDirectory.UniqueValues | app.py:60-63 | each filter list is strictly ascending and holds exactly the non-empty values of its column |
| StationDirectory.HierarchySetsSpec | app.py:67-78 | `t` is under `p` and `a` iff some station has province `p`, amphoe `a`, tambon `t`, all non-empty; no level is empty |
| StationDirectory.LocatedSnoc | app.py:68-73 | the located triples of one more station are the earlier ones plus the new station's own |
| StationDirectory.HierarchyStep | app.py:68-78 | one station adds exactly its own location, if all three fields are non-empty |
| StationDirectory.AddTambonSpec | app.py:74-78 | adding a tambon records exactly that location and leaves no level empty |
| StationDirectory.CollectTambons | app.py:67-78 | the first hierarchy loop builds `HierarchySets` of the stations |
| StationDirectory.SortTambons | app.py:82-83 | each amphoe's set becomes a strictly ascending list of the same tambons |
| StationDirectory.SortedLikeStep | app.py:81-83 | sorting one more province keeps every sorted province faithful to its sets |
| StationDirectory.SortedHierarchy | app.py:80-83 | the sorted hierarchy records the same locations as the sets, with ascending, non-empty lists |
| StationDirectory.SortHierarchy | app.py:81-83 | the second loop sorts every province's tambon sets and keeps every province |
| StationDirectory.BuildHierarchy | app.py:65-83 | `t` is in `hierarchy[p][a]` iff a station lies there (all three non-empty); lists strictly ascending; no province or amphoe empty |
| StationDirectory.Index | app.py:57-83 | the index view holds the cleaned stations, the four filter lists of the cleaned rows, and the hierarchy of `BuildHierarchy` |
| MeasurementPivot.KeyLessIsStrictTotalOrder | app.py:196-197 | integers before texts, each ascending, is a strict total order on check keys |
| MeasurementPivot.Schema.Extract | app.py:283 | the check number before the integer parse: water keeps it as it is (app.py:183), soil removes the round word and strips (app.py:283); pinned down by `ExtractDigits`, `ExtractIntString`, `RemoveRoundWord` and `SoilRoundWord` |
| MeasurementPivot.Schema.CheckKeyOf | app.py:182-292 | the key of a check number: the integer its cleaned form spells, else its raw text (water 182-191, soil 282-292); pinned down by `CheckKeyOfDigits`, `SoilRoundWord`, `SoilRoundNumber` and `TextCheckIsKeptVerbatim` |
| MeasurementPivot.KeyString | app.py:208 | `str(check_num)` of a key; pinned down by `KeyStringInjective` |
| MeasurementPivot.KeyLess | app.py:196-197 | integers before texts, each ascending; pinned down by `KeyLessIsStrictTotalOrder` and `SortedChecksSpec` |
| MeasurementPivot.ExtractIntString | app.py:283 | the soil clean-up leaves the decimal form of an integer unchanged |
| MeasurementPivot.KeyStringInjective | app.py:204-208 | distinct check keys render to distinct `str(check)` strings |
| MeasurementPivot.LeadingZeroSharesColumn | app.py:181-185 | "01" and "1" yield the same key `Num(1)`, water and soil alike |
| MeasurementPivot.CheckKeyOfDigits | app.py:182-185 | a check number of digits is an integer key with its decimal value |
| MeasurementPivot.ExtractDigits | app.py:283 | the soil clean-up leaves a digit string unchanged |
| MeasurementPivot.RemoveRoundWord | app.py:283 | for any rest `s` without the letter U+0E04, removing the round word from round word + `s` gives back exactly `s` |
| MeasurementPivot.SoilRoundWord | app.py:282-292 | for any such rest `s`, round word + `s` is cleaned to `s.strip()`; its key is the integer that spells, or else the raw text, round word kept |
| MeasurementPivot.SoilRoundNumber | app.py:282-288 | for every natural `n` and whitespace `pad`, the check number round word + `pad` + `str(n)` is the integer key `n` |
| MeasurementPivot.PaddedNumber | app.py:283-285 | whitespace then `str(n)` holds no round-word letter, strips to `str(n)` and parses back to `n` |
| MeasurementPivot.NoRoundLetter | app.py:283 | whitespace and digits never contain the round word's first letter |
| MeasurementPivot.SoilRoundWordIsDropped | app.py:282-288 | the soil check number "ครั้งที่ 3" is the integer key 3 |
| MeasurementPivot.SoilTextKeepsRoundWord | app.py:289-292 | the soil check number "ครั้งที่A" fails the parse and keeps its raw text, round word included, not the cleaned text "A" |
| MeasurementPivot.TextCheckIsKeptVerbatim | app.py:187-191 | a water check number that is not an integer is kept as its own text |
| MeasurementPivot.Readings | app.py:160-171 | one reading per fetched row |
| MeasurementPivot.ReadingAt | app.py:160-171 | reading `i` is read from fetched row `i` |
| MeasurementPivot.NumericOf | app.py:170 | the `numeric_value` column, 0 when it is NULL or absent; pinned down by `ReadingOfCleaned` |
| MeasurementPivot.ReadingOf | app.py:161-171 | the fields the row loop reads from one cleaned row; pinned down by `ReadingOfCleaned` and `ReadRow` |
| MeasurementPivot.Accumulate | app.py:176-191 | `pivot_data` and `numeric_data` as folds over the readings; pinned down by `AccumulateCovers`, `AccumulateFromRows` and `LastRowWins` |
| MeasurementPivot.UnitInfo | app.py:176-179 | `unit_info` as a fold over the readings; pinned down by `UnitInfoKeys` and `FirstUnitWins` |
| MeasurementPivot.CheckSet | app.py:184-189 | `check_numbers` as a fold over the readings; pinned down by `CheckSetSpec` |
| MeasurementPivot.AccumulateCovers | app.py:176-191 | every row's parameter has a sparse row holding a cell for the row's check |
| MeasurementPivot.AccumulateFromRows | app.py:176-191 | every sparse row and cell comes from some fetched row |
| MeasurementPivot.LastRowWins | app.py:185-186 | a cell holds what the last row with that parameter and check wrote |
| MeasurementPivot.UnitInfoKeys | app.py:176-179 | `unit_info` has exactly the parameters of `pivot_data`, so `.get(param, '')` never defaults |
| MeasurementPivot.FirstUnitWins | app.py:176-179 | a parameter's unit is the one on the first row carrying it |
| MeasurementPivot.UnitEntry | app.py:203 | a pivot row's unit: water looks it up with `''` as default, soil has none; pinned down by `UnitInfoKeys`, `FirstUnitWins` and `PivotRows` (same lookup at app.py:216) |
| MeasurementPivot.CheckSetSpec | app.py:184-189 | `check_numbers` holds exactly the keys of the rows |
| MeasurementPivot.ReadingOfKey | app.py:182-191 | a row's key is one the parse can produce: a text key never parses as an integer |
| MeasurementPivot.ReadingKeys | app.py:182-191 | every key of the fetched rows is one the parse can produce |
| MeasurementPivot.SortedChecks | app.py:196-197 | `sorted_checks` of a check set; pinned down by `SortedChecksSpec` and `SortedChecksDistinctStrings` |
| MeasurementPivot.MergedAscending | app.py:196-197 | sorted integers followed by sorted texts are ascending in the key order |
| MeasurementPivot.MergedElems | app.py:196-197 | sorted integers followed by sorted texts hold exactly the check set |
| MeasurementPivot.SortedChecksSpec | app.py:196-197 | `sorted_checks` lists every distinct key exactly once, integers ascending before texts ascending |
| MeasurementPivot.SortedChecksDistinctStrings | app.py:204-208 | the keys of `sorted_checks` render to pairwise distinct strings |
| MeasurementPivot.DenseCell | app.py:206-228 | one cell of a table or chart row: the value if truthy else `None`, the numeric value if the value is truthy else 0; pinned down by `CellFromLastRow` and `CellWithoutRow` |
| MeasurementPivot.Dense | app.py:204-228 | a dense `check_values` or `numeric_values` row; pinned down by `DenseKeys`, `DenseSize` and `DenseLookup` |
| MeasurementPivot.DenseKeys | app.py:204-210 | a dense row has exactly the keys `str(c)` of the checks |
| MeasurementPivot.DenseSize | app.py:204-210 | with distinct strings, a dense row has one entry per check |
| MeasurementPivot.DenseLookup | app.py:206-210 | the entry `str(c)` holds the cell of check `c` |
| MeasurementPivot.DenseAt | app.py:206-210 | the entry of a listed check holds its cell |
| MeasurementPivot.ChecksDistinct | app.py:196-208 | the check order of the rows holds the check set and renders to distinct strings |
| MeasurementPivot.CheckedOrder | app.py:196-208 | returns the check order of the rows, which lists the given key of the rows and renders to distinct strings |
| MeasurementPivot.CellFromLastRow | app.py:202-329 | table cell: the last `(P, c)` row's value if truthy, else `None`; chart cell: that row's numeric value if the value is truthy, else 0 (water 202-228, soil 303-329) |
| MeasurementPivot.CellWithoutRow | app.py:202-329 | a check with no row for parameter `P` is `None` in the table and 0 on the chart (water 202-228, soil 303-329) |
| MeasurementPivot.DenseRowShape | app.py:200-230 | every table and chart row has exactly one entry `str(c)` per check `c` |
| MeasurementPivot.CollectRows | app.py:160-292 | the row loop leaves `pivot_data`, `numeric_data`, `check_numbers` and `unit_info` equal to their folds over the rows (water 160-191, soil 263-292) |
| MeasurementPivot.CollectRow | app.py:160-292 | one iteration extends the dictionaries by one row (water 160-191, soil 263-292) |
| MeasurementPivot.RecordReading | app.py:176-191 | recording a row adds its cell, its key and, for a new water parameter, its unit |
| MeasurementPivot.ReadRow | app.py:161-191 | one row is cleaned, read and its check number parsed into the row's reading |
| MeasurementPivot.ReadingOfCleaned | app.py:161-171 | a reading's fields are the cleaned row's columns, with `numeric_value` 0 when NULL |
| MeasurementPivot.FillCheckValues | app.py:204-210 | the inner loop builds the dense `check_values` row |
| MeasurementPivot.FillChartValues | app.py:217-228 | the inner loop builds the dense `check_values` and `numeric_values` rows |
| MeasurementPivot.PivotRows | app.py:200-312 | `pivot_list` has one row per parameter, in order, with its dense values and (water) unit (water 200-211, soil 301-312) |
| MeasurementPivot.ChartRows | app.py:213-331 | `pivot_list_filtered` has one row per parameter, in order, with both dense rows and (water) unit (water 213-230, soil 314-331) |
| MeasurementPivot.BuildPivot | app.py:155-339 | sparse map, check order, ascending duplicate-free parameters, and one table row and one chart row per parameter (water 155-239, soil 258-339) |
| CsvImport.CleanColumns | convert_csv_to_sqlite.py:28 | one column per header field, in order, each field stripped |
| CsvImport.CleanColumnsSpec | convert_csv_to_sqlite.py:25-28 | same count and order; each column trimmed and only whitespace removed around it; cleaning twice changes nothing |
| CsvImport.FoldCase | convert_csv_to_sqlite.py:31-39 | ASCII case folding, as SQLite compares the column names of the CREATE TABLE; used by `TableAccepted` |
| CsvImport.NamesFree | convert_csv_to_sqlite.py:31-39 | declaring the columns one by one after the names already taken; pinned down by `NamesFreeSpec` |
| CsvImport.NamesFreeSpec | convert_csv_to_sqlite.py:31-39 | declaring the columns in order succeeds iff no folded name is already taken and no two folded names coincide |
| CsvImport.TableAccepted | convert_csv_to_sqlite.py:31-39 | whether SQLite accepts the CREATE TABLE; pinned down by `TableAcceptedSpec` |
| CsvImport.TableAcceptedSpec | convert_csv_to_sqlite.py:31-39 | the CREATE TABLE is accepted iff there is a column, none is `id` and no two share a name, with ASCII case folded |
| CsvImport.Quoted | convert_csv_to_sqlite.py:31-43 | each column wrapped in double quotes and followed by the suffix, in order: `"col" TEXT` for CREATE TABLE, `"col"` for INSERT |
| CsvImport.ColumnDefs | convert_csv_to_sqlite.py:31 | the column definitions of CREATE TABLE, the `Quoted` parts with suffix ` TEXT` joined by `, `; pinned down by `Quoted` |
| CsvImport.ColumnList | convert_csv_to_sqlite.py:43 | the column list of INSERT, the bare `Quoted` names joined by `, `; pinned down by `Quoted` and `ColumnListQuotes` |
| CsvImport.Marks | convert_csv_to_sqlite.py:44 | one `?` per column |
| CsvImport.Placeholders | convert_csv_to_sqlite.py:44 | the VALUES list of INSERT; pinned down by `PlaceholdersCount` (one `?` per column) |
| CsvImport.PlaceholdersCount | convert_csv_to_sqlite.py:42-45 | the VALUES list holds exactly one `?` per column |
| CsvImport.ColumnListQuotes | convert_csv_to_sqlite.py:43 | a shape fact about the generated text, not its meaning: with quote-free names, the column list holds two quotes per column |
| CsvImport.CountJoinEach | convert_csv_to_sqlite.py:43 | a shape fact about the generated text, not its meaning: joining parts with `k` occurrences each, by a separator with none, gives `k` per part |
| CsvImport.FitAll | convert_csv_to_sqlite.py:48-53 | every data record fitted to the header width, in order |
| CsvImport.FitAllStep | convert_csv_to_sqlite.py:48-53 | fitting one more record appends its fitted form |
| CsvImport.Fit | convert_csv_to_sqlite.py:49-53 | a fitted record has exactly `n` fields: its own where it has them, then `''` |
| CsvImport.FitIdempotent | convert_csv_to_sqlite.py:49-53 | fitting a fitted record again changes nothing |
| CsvImport.FitRow | convert_csv_to_sqlite.py:49-53 | the pad loop and truncation yield `Fit` of the record |
| CsvImport.Import | convert_csv_to_sqlite.py:22-59 | what `create_table_from_csv` leaves in the database, or `None` when it raises; pinned down by `ImportSpec` and `ImportedRows` |
| CsvImport.ImportSpec | convert_csv_to_sqlite.py:22-59 | the import fails iff the file has no header or the database rejects its cleaned header; otherwise cleaned columns, one `?` each, and `rows_inserted` is the data-record count |
| CsvImport.ImportedRows | convert_csv_to_sqlite.py:47-55 | in a successful import, inserted row `i` is data record `i` fitted to the header width |
| CsvImport.ImportCsv | convert_csv_to_sqlite.py:18-59 | `create_table_from_csv` computes `Import` of the file's records |
| CsvImport.SumRowsSnoc | convert_csv_to_sqlite.py:78-83 | the data-record sum over one more file adds that file's records |
| CsvImport.ConvertTotal | convert_csv_to_sqlite.py:78-85 | `total_rows` exists iff every present file has a header the database accepts, and is then the sum of data records, missing files counting 0 |
| CsvImport.Convert | convert_csv_to_sqlite.py:78-85 | the tables and `total_rows` of `main` over the files; pinned down by `ConvertTotal`, `MissingAddsNothing` and `ConvertStopsAfterFailure` |
| CsvImport.MissingAddsNothing | convert_csv_to_sqlite.py:81-85 | a missing file adds no table and no rows |
| CsvImport.ConvertStopsAfterFailure | convert_csv_to_sqlite.py:79-83 | after a failed import, later files change nothing |
| CsvImport.ImportAll | convert_csv_to_sqlite.py:78-86 | the loop of `main` computes `Convert` of the files |
| CsvImport.ImportFile | convert_csv_to_sqlite.py:80-85 | one turn imports a present file and adds its rows, ends the run when the import fails, or skips a missing one |
| CsvImport.StepPresent | convert_csv_to_sqlite.py:81-83 | a present file's turn adds the imported table and its rows, or ends the run with no total when the import fails |
| CsvImport.ConvertStep | convert_csv_to_sqlite.py:79-85 | the outcome over one more file is one more `Step` |
| CsvImport.Step | convert_csv_to_sqlite.py:80-85 | one turn of `main`'s loop; pinned down by `StepPresent` and `ConvertStep` |
| CsvImport.CsvFiles | convert_csv_to_sqlite.py:72-76 | the three CSV files and their tables, water, soil and station, in that order; `ConvertFolder` converts exactly these |
| CsvImport.ConvertFolder | convert_csv_to_sqlite.py:61-90 | `main` over the three files water, soil, station, in that order |

## Left out

- Flask routing, templates, JSON responses, CORS headers, the error pages and
  the startup block: these are web-framework glue.
- SQLite: the SQL text, column aliases, `WHERE TRIM(...) = ?`, `ORDER BY` and
  connections. A query result is an input sequence of rows in the order the
  store returned them.
- File and CSV I/O in the importer: `open`, the `csv.reader` tokenizer,
  `os.remove`, `os.path.exists`, `print`, `execute` and `commit`. A file is
  given as its records, or as missing. The exact whitespace of the generated
  CREATE TABLE and INSERT text is not modelled; only the column definitions,
  the column list and the placeholder list are.
- SQL quoting of column names: a header field containing `"` would break the
  generated SQL. The model joins the names as they are.
- ImportSpec: a header the database rejects for a reason other than an empty
  column list, a column named `id` or two columns with the same name (a
  column name holding `"`, any other SQL error) still counts as
  an accepted import here.
- ImportSpec: column names are compared with ASCII case folded only, as
  SQLite does by default; letters outside ASCII are compared as they are.
- ConvertTotal: inherits both gaps of `ImportSpec`, so a run that SQLite would
  end on such a header still has a total here.
- ParseInt: `int()` extras are not modelled. Underscore separators and
  non-ASCII Unicode digits are not accepted: `ParseInt` takes only an optional
  sign followed by ASCII digits. The limit on integer string length is not
  modelled either: from Python 3.11, `int()` raises `ValueError` on more than
  4300 digits, so the source keeps such a check number as a text key, while
  `ParseInt` makes it an integer key.
- ParseIntToString: holds for every integer only because of that gap. From
  Python 3.11, `str(n)` and `int(s)` both raise beyond 4300 digits.
- CheckKeyOfDigits: inherits the same gap. A digit check number longer than
  4300 digits is an integer key here but a text key in the source.
- A NULL parameter or check number: `IsMeasurementRow` requires both to be
  text. A NULL check number raises inside the row loop: `int(None)`
  (app.py:183) is a `TypeError`, which `except ValueError` does not catch,
  and the soil clean-up (app.py:283) cannot call `replace` on it. A NULL
  parameter does not raise in the loop; it is an ordinary dictionary key.
  It raises only at `sorted(pivot_data.keys())` (app.py:200, soil
  app.py:301), and only when a text parameter is present too. A result
  whose only parameter is NULL returns a row with parameter `None`.
- `numeric_value` as a number: it stays an opaque value, as in the source.
  Float values are not modelled.
- Dictionary insertion order. All of these are maps, so the order in which
  their keys were inserted is not kept:
  - `check_values` and `numeric_values`, whose keys are filled in
    `sorted_checks` order;
  - `location_hierarchy` (app.py:74-77), whose provinces and amphoes the
    source lists in the order their first station was seen;
  - `pivot_data` and `unit_info`, returned as `pivot` and `units`, whose
    parameters the source lists in the order their first row was seen.
- Hierarchy aliasing: `BuildHierarchy` builds a new map of sorted lists from
  the map of sets, rather than replacing the sets inside the same dictionaries.
- Exceptions: an empty CSV file makes `next(reader)` raise and end `main`,
  and so does a CREATE TABLE the database rejects. Here either ends the run
  with no total: `Outcome.total` is `None`, and the tables imported before it
  stay in the outcome.
- Station rows are required to hold every selected column, as text or NULL,
  since the query always returns them all. A missing column, which the source
  would reject with a `KeyError`, is not modelled.
