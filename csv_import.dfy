/** The CSV-to-SQLite importer (convert_csv_to_sqlite.py): each CSV file that
    exists becomes one table whose columns are the stripped header fields and
    whose rows are the data records, padded with empty strings or truncated
    to the header's width. Files, the CSV tokenizer and the database are left
    out: a file is given as its records, and a table as what is inserted. */
module CsvImport {
  import opened Wrappers
  import opened Strings

  // ---------------------------------------------------------------------------
  // Header and statements

  /** The header fields, each with surrounding whitespace stripped. */
  function CleanColumns(header: seq<string>): (r: seq<string>)
    ensures |r| == |header|
    ensures forall i :: 0 <= i < |header| ==> r[i] == Strip(header[i])
  {
    if header == [] then [] else [Strip(header[0])] + CleanColumns(header[1..])
  }

  /** The cleaned header keeps the count and order of the header fields; each
      column is its field less surrounding whitespace, and cleaning again
      changes nothing. */
  lemma CleanColumnsSpec(header: seq<string>)
    ensures |CleanColumns(header)| == |header|
    ensures forall i :: 0 <= i < |header| ==> IsTrimmed(CleanColumns(header)[i])
    ensures forall i :: 0 <= i < |header| ==> Surrounds(header[i], CleanColumns(header)[i])
    ensures CleanColumns(CleanColumns(header)) == CleanColumns(header)
  {
    var once := CleanColumns(header);
    forall i | 0 <= i < |header|
      ensures IsTrimmed(once[i])
      ensures Surrounds(header[i], once[i])
      ensures CleanColumns(once)[i] == once[i]
    {
      assert once[i] == Strip(header[i]);
      StripIdempotent(header[i]);
      StripSurrounds(header[i]);
    }
  }

  /** Each column name in double quotes, followed by `suffix`: the type
      " TEXT" in CREATE TABLE, nothing in the INSERT. */
  function Quoted(columns: seq<string>, suffix: string): (r: seq<string>)
    ensures |r| == |columns|
    ensures forall i :: 0 <= i < |columns| ==> r[i] == "\"" + columns[i] + "\"" + suffix
  {
    if columns == [] then [] else ["\"" + columns[0] + "\"" + suffix] + Quoted(columns[1..], suffix)
  }

  /** The column definitions of CREATE TABLE: `"col" TEXT`, comma-separated. */
  function ColumnDefs(columns: seq<string>): string {
    Join(", ", Quoted(columns, " TEXT"))
  }

  /** The column list of the INSERT: `"col"`, comma-separated. */
  function ColumnList(columns: seq<string>): string {
    Join(", ", Quoted(columns, ""))
  }

  /** ASCII case folding, the way SQLite compares column names. */
  function FoldCase(s: string): string {
    if s == [] then [] else [FoldChar(s[0])] + FoldCase(s[1..])
  }

  /** An ASCII capital as its small letter; any other character unchanged. */
  function FoldChar(c: char): char {
    if 'A' <= c <= 'Z' then (c as int + 32) as char else c
  }

  /** Whether SQLite accepts the CREATE TABLE built from these columns. The
      list must not be empty: with no column the definitions end in a comma,
      a syntax error. After that the columns are declared one by one, and
      each must differ, with ASCII case folded, from `id` and from every
      column before it. */
  predicate TableAccepted(columns: seq<string>) {
    |columns| > 0 && NamesFree(columns, {"id"})
  }

  /** Declaring `columns` in order when the names `taken` (folded) exist. */
  predicate NamesFree(columns: seq<string>, taken: set<string>) {
    columns == [] || (FoldCase(columns[0]) !in taken && NamesFree(columns[1..], taken + {FoldCase(columns[0])}))
  }

  /** Declaring columns in order succeeds exactly when no folded name is
      already taken and no two folded names coincide. */
  lemma {:induction false} NamesFreeSpec(columns: seq<string>, taken: set<string>)
    ensures NamesFree(columns, taken) <==>
      && (forall i :: 0 <= i < |columns| ==> FoldCase(columns[i]) !in taken)
      && (forall i, j :: 0 <= i < j < |columns| ==> FoldCase(columns[i]) != FoldCase(columns[j]))
  {
    if columns != [] {
      var rest := columns[1..];
      NamesFreeSpec(rest, taken + {FoldCase(columns[0])});
      assert forall i :: 1 <= i < |columns| ==> columns[i] == rest[i - 1];
    }
  }

  /** The database accepts the table exactly when there is a column, none is
      `id` and no two share a name, all compared with ASCII case folded. */
  lemma TableAcceptedSpec(columns: seq<string>)
    ensures TableAccepted(columns) <==>
      && columns != []
      && (forall i :: 0 <= i < |columns| ==> FoldCase(columns[i]) != "id")
      && (forall i, j :: 0 <= i < j < |columns| ==> FoldCase(columns[i]) != FoldCase(columns[j]))
  {
    NamesFreeSpec(columns, {"id"});
  }

  /** The VALUES list of the INSERT: one `?` per column, comma-separated. */
  function Placeholders(n: nat): string {
    Join(", ", Marks(n))
  }

  /** One `?` mark per column. */
  function Marks(n: nat): (r: seq<string>)
    ensures |r| == n
    ensures forall i :: 0 <= i < n ==> r[i] == "?"
  {
    if n == 0 then [] else Marks(n - 1) + ["?"]
  }

  /** The VALUES list has exactly one `?` per column, so every fitted row
      binds every placeholder. */
  lemma PlaceholdersCount(n: nat)
    ensures Count('?', Placeholders(n)) == n
  {
    if n > 0 {
      var parts := Marks(n);
      forall i | 0 <= i < |parts| ensures Count('?', parts[i]) == 1 {
        assert parts[i] == "?";
      }
      CountJoin('?', ", ", parts);
    }
  }

  /** With no quote character inside a column name, the column list holds
      exactly two quote characters per column: every name is opened and
      closed once, and the separators add none. */
  lemma ColumnListQuotes(columns: seq<string>)
    requires forall i :: 0 <= i < |columns| ==> Count('"', columns[i]) == 0
    ensures Count('"', ColumnList(columns)) == 2 * |columns|
  {
    var parts := Quoted(columns, "");
    if parts != [] {
      forall i | 0 <= i < |parts| ensures Count('"', parts[i]) == 2 {
        assert parts[i] == "\"" + columns[i] + "\"";
        CountAppend('"', "\"", columns[i]);
        CountAppend('"', "\"" + columns[i], "\"");
      }
      CountJoinEach('"', ", ", parts, 2);
    }
  }

  /** Count in a join whose separator has no occurrence and whose parts have
      `k` each. */
  lemma {:induction false} CountJoinEach(c: char, sep: string, parts: seq<string>, k: nat)
    requires parts != []
    requires Count(c, sep) == 0
    requires forall i :: 0 <= i < |parts| ==> Count(c, parts[i]) == k
    ensures Count(c, Join(sep, parts)) == k * |parts|
  {
    if |parts| > 1 {
      CountJoinEach(c, sep, parts[1..], k);
      assert k * |parts| == k * |parts[1..]| + k;
      CountAppend(c, parts[0], sep);
      CountAppend(c, parts[0] + sep, Join(sep, parts[1..]));
    }
  }

  // ---------------------------------------------------------------------------
  // Row normalisation

  /** Every data record fitted to `n` columns, in order. */
  function FitAll(data: seq<seq<string>>, n: nat): (r: seq<seq<string>>)
    ensures |r| == |data|
    ensures forall i :: 0 <= i < |data| ==> r[i] == Fit(data[i], n)
  {
    if data == [] then [] else FitAll(data[..|data| - 1], n) + [Fit(data[|data| - 1], n)]
  }

  /** Fitting one more data record appends its fitted form. */
  lemma FitAllStep(records: seq<seq<string>>, i: nat, n: nat)
    requires 1 <= i < |records|
    ensures FitAll(records[1..i + 1], n) == FitAll(records[1..i], n) + [Fit(records[i], n)]
  {
    assert records[1..i + 1][..i - 1] == records[1..i];
  }

  /** A record fitted to `n` columns: field `j` is the record's field `j`
      where it has one, else the empty string. */
  function Fit(row: seq<string>, n: nat): (r: seq<string>)
    ensures |r| == n
    ensures forall j :: 0 <= j < n ==> r[j] == if j < |row| then row[j] else ""
  {
    if |row| < n then row + seq(n - |row|, _ => "") else row[..n]
  }

  /** Fitting a fitted record again changes nothing. */
  lemma FitIdempotent(row: seq<string>, n: nat)
    ensures Fit(Fit(row, n), n) == Fit(row, n)
  {
  }

  /** The pad-then-truncate of one data record: append `''` while the record
      is shorter than the header, then keep its first `n` fields. */
  method FitRow(row: seq<string>, n: nat) returns (fitted: seq<string>)
    ensures fitted == Fit(row, n)
  {
    fitted := row;
    while |fitted| < n
      invariant |row| <= |fitted| <= if |row| < n then n else |row|
      invariant fitted[..|row|] == row
      invariant forall j :: |row| <= j < |fitted| ==> fitted[j] == ""
      decreases n - |fitted|
    {
      fitted := fitted + [""];
    }
    fitted := fitted[..n];
  }

  // ---------------------------------------------------------------------------
  // One file

  /** What importing one CSV file leaves in the database. */
  datatype TableImport = TableImport(
    table: string,
    columns: seq<string>,
    columnDefs: string,
    columnList: string,
    placeholders: string,
    rows: seq<seq<string>>,
    rowsInserted: nat)

  /** `create_table_from_csv` on a file whose records are `records`: `None`
      when the file has no header record (the `next(reader)` failure) or when
      the database rejects the CREATE TABLE built from the header. */
  function Import(table: string, records: seq<seq<string>>): Option<TableImport> {
    if records == [] then None
    else
      var columns := CleanColumns(records[0]);
      var n := |columns|;
      if !TableAccepted(columns) then None
      else Some(TableImport(table, columns, ColumnDefs(columns), ColumnList(columns), Placeholders(n),
                       FitAll(records[1..], n),
                       |records| - 1))
  }

  /** An import fails exactly on an empty file and on a cleaned header the
      database rejects. Otherwise the columns are the cleaned header, with
      one `?` placeholder each, and `rows_inserted` is the number of data
      records. */
  lemma ImportSpec(table: string, records: seq<seq<string>>)
    ensures Import(table, records).None? <==> records == [] || !TableAccepted(CleanColumns(records[0]))
    ensures Import(table, records).Some? ==>
      var t := Import(table, records).value;
      && t.table == table
      && t.columns == CleanColumns(records[0]) && |t.columns| == |records[0]|
      && Count('?', t.placeholders) == |t.columns|
      && t.rowsInserted == |records| - 1 == |t.rows|
  {
    if records != [] {
      CleanColumnsSpec(records[0]);
      PlaceholdersCount(|records[0]|);
    }
  }

  /** One row is inserted per data record, in order; every inserted row has
      exactly one field per column, the record's own field where it has one
      and `''` after its end. */
  lemma ImportedRows(table: string, records: seq<seq<string>>, i: int)
    requires Import(table, records).Some? && 0 <= i < |records| - 1
    ensures
      var t := Import(table, records).value;
      && |t.rows[i]| == |t.columns|
      && forall j :: 0 <= j < |t.columns| ==> t.rows[i][j] == if j < |records[i + 1]| then records[i + 1][j] else ""
  {
    var t := Import(table, records).value;
    assert t.rows == FitAll(records[1..], |records[0]|);
    assert t.rows[i] == Fit(records[1..][i], |records[0]|);
  }

  /** `create_table_from_csv`: read the header, clean it, build the
      statements, then fit and insert each remaining record, counting them. */
  method ImportCsv(table: string, records: seq<seq<string>>) returns (result: Option<TableImport>)
    ensures result == Import(table, records)
  {
    if records == [] {
      return None;
    }
    var columns := CleanColumns(records[0]);
    var columnDefs := ColumnDefs(columns);
    if !TableAccepted(columns) {
      return None;
    }
    var columnList := ColumnList(columns);
    var placeholders := Placeholders(|columns|);
    var inserted: seq<seq<string>> := [];
    var rowsInserted := 0;
    for i := 1 to |records|
      invariant inserted == FitAll(records[1..i], |columns|)
      invariant rowsInserted == i - 1
    {
      var row := FitRow(records[i], |columns|);
      FitAllStep(records, i, |columns|);
      inserted := inserted + [row];
      rowsInserted := rowsInserted + 1;
    }
    assert records[1..|records|] == records[1..];
    result := Some(TableImport(table, columns, columnDefs, columnList, placeholders, inserted, rowsInserted));
  }

  // ---------------------------------------------------------------------------
  // All files

  /** A CSV file as `main` finds it: absent, or present with its records. */
  datatype CsvSource = Missing | Present(records: seq<seq<string>>)

  datatype CsvFile = CsvFile(name: string, table: string, source: CsvSource)

  /** The three files `main` looks for, in order, with their tables. */
  const CsvFiles: seq<(string, string)> :=
    [("water_raw_melted.csv", "water_data"), ("soil_raw_melted.csv", "soil_data"), ("station.csv", "station_data")]

  /** The tables written so far and the running total, or no total once an
      import has failed and ended the run. */
  datatype Outcome = Outcome(tables: seq<TableImport>, total: Option<nat>)

  /** `main` over the files in order: a missing file is skipped, a present
      one imported and its rows added to the total, and one whose import
      fails ends the run with no total. */
  function Convert(files: seq<CsvFile>): Outcome {
    if files == [] then Outcome([], Some(0))
    else Step(Convert(files[..|files| - 1]), files[|files| - 1])
  }

  /** One turn of `main`'s loop. */
  function Step(o: Outcome, f: CsvFile): Outcome {
    if o.total.None? then o
    else match f.source
      case Missing => o
      case Present(records) =>
        match Import(f.table, records)
        case None => Outcome(o.tables, None)
        case Some(t) => Outcome(o.tables + [t], Some(o.total.value + t.rowsInserted))
  }

  /** A file `main` can get through: missing, or with a header record whose
      table the database accepts. */
  predicate Readable(f: CsvFile) {
    f.source.Missing? || (f.source.records != [] && TableAccepted(CleanColumns(f.source.records[0])))
  }

  /** The data records of a file: none for a missing file. */
  function DataRows(f: CsvFile): nat {
    if f.source.Present? && f.source.records != [] then |f.source.records| - 1 else 0
  }

  function SumRows(files: seq<CsvFile>): nat {
    if files == [] then 0 else DataRows(files[0]) + SumRows(files[1..])
  }

  lemma {:induction false} SumRowsSnoc(files: seq<CsvFile>, f: CsvFile)
    ensures SumRows(files + [f]) == SumRows(files) + DataRows(f)
  {
    if files != [] {
      assert (files + [f])[1..] == files[1..] + [f];
      SumRowsSnoc(files[1..], f);
    } else {
      assert [f][1..] == [];
    }
  }

  /** `total_rows` exists exactly when every file is missing or readable, and
      is then the number of data records summed over the files, a missing
      file counting 0. */
  lemma {:induction false} ConvertTotal(files: seq<CsvFile>)
    ensures Convert(files).total.Some? <==> forall i :: 0 <= i < |files| ==> Readable(files[i])
    ensures Convert(files).total.Some? ==> Convert(files).total.value == SumRows(files)
  {
    if files != [] {
      var n := |files| - 1;
      var init := files[..n];
      ConvertTotal(init);
      assert files == init + [files[n]];
      SumRowsSnoc(init, files[n]);
      if Convert(init).total.Some? && files[n].source.Present? {
        ImportSpec(files[n].table, files[n].source.records);
      }
      if !Readable(files[n]) {
        assert !(forall i :: 0 <= i < |files| ==> Readable(files[i]));
      }
    }
  }

  /** A missing file adds no table and no rows. */
  lemma MissingAddsNothing(files: seq<CsvFile>, name: string, table: string)
    ensures Convert(files + [CsvFile(name, table, Missing)]) == Convert(files)
  {
    assert (files + [CsvFile(name, table, Missing)])[..|files|] == files;
  }

  /** Once an import has failed, later files change nothing. */
  lemma {:induction false} ConvertStopsAfterFailure(files: seq<CsvFile>, i: nat)
    requires i <= |files|
    requires Convert(files[..i]).total.None?
    ensures Convert(files) == Convert(files[..i])
    decreases |files| - i
  {
    if i < |files| {
      assert files[..i + 1][..i] == files[..i];
      ConvertStopsAfterFailure(files, i + 1);
    } else {
      assert files[..i] == files;
    }
  }

  /** `main`: import each file that exists, in order, summing the rows. */
  method ImportAll(files: seq<CsvFile>) returns (outcome: Outcome)
    ensures outcome == Convert(files)
  {
    var tables: seq<TableImport> := [];
    var totalRows: nat := 0;
    for i := 0 to |files|
      invariant Convert(files[..i]) == Outcome(tables, Some(totalRows))
    {
      ConvertStep(files, i);
      var ok;
      tables, totalRows, ok := ImportFile(files[i], tables, totalRows);
      if !ok {
        ConvertStopsAfterFailure(files, i + 1);
        return Outcome(tables, None);
      }
    }
    assert files[..|files|] == files;
    outcome := Outcome(tables, Some(totalRows));
  }

  /** One turn of `main`'s loop: import the file if it exists and add its
      rows to the total; `ok` is false when the import failed. */
  method ImportFile(file: CsvFile, tables: seq<TableImport>, totalRows: nat)
    returns (tables': seq<TableImport>, totalRows': nat, ok: bool)
    ensures Step(Outcome(tables, Some(totalRows)), file) == Outcome(tables', if ok then Some(totalRows') else None)
  {
    match file.source
    case Missing =>
      tables', totalRows', ok := tables, totalRows, true;
    case Present(records) =>
      var imported := ImportCsv(file.table, records);
      StepPresent(Outcome(tables, Some(totalRows)), file, imported);
      match imported
      case None =>
        tables', totalRows', ok := tables, totalRows, false;
      case Some(t) =>
        tables', totalRows', ok := tables + [t], totalRows + t.rowsInserted, true;
  }

  /** A present file's turn adds the imported table and its rows, or ends
      the run when the import fails. */
  lemma StepPresent(o: Outcome, f: CsvFile, imported: Option<TableImport>)
    requires o.total.Some? && f.source.Present?
    requires imported == Import(f.table, f.source.records)
    ensures imported.None? ==> Step(o, f) == Outcome(o.tables, None)
    ensures imported.Some? ==> Step(o, f) == Outcome(o.tables + [imported.value], Some(o.total.value + imported.value.rowsInserted))
  {
  }

  lemma ConvertStep(files: seq<CsvFile>, i: int)
    requires 0 <= i < |files|
    ensures Convert(files[..i + 1]) == Step(Convert(files[..i]), files[i])
  {
    assert files[..i + 1][..i] == files[..i];
  }

  /** `main` with the three files it looks for. */
  method ConvertFolder(water: CsvSource, soil: CsvSource, station: CsvSource) returns (outcome: Outcome)
    ensures outcome == Convert([CsvFile(CsvFiles[0].0, CsvFiles[0].1, water),
                                CsvFile(CsvFiles[1].0, CsvFiles[1].1, soil),
                                CsvFile(CsvFiles[2].0, CsvFiles[2].1, station)])
  {
    var files := [CsvFile(CsvFiles[0].0, CsvFiles[0].1, water),
                  CsvFile(CsvFiles[1].0, CsvFiles[1].1, soil),
                  CsvFile(CsvFiles[2].0, CsvFiles[2].1, station)];
    outcome := ImportAll(files);
  }
}
