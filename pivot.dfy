/** The measurement pivot builder behind the station detail page
    (app.py `get_water_data` and `get_soil_data`): flat rows of
    `(parameter, check number, value, numeric value[, unit])` become a sparse
    parameter -> check -> value map, a global ordering of the check numbers,
    and two dense per-parameter rows keyed by `str(check)`. The water and
    soil variants are one routine, parameterised by `Schema`. */
module MeasurementPivot {
  import opened Wrappers
  import opened Sorting
  import opened Strings
  import opened Rows

  // ---------------------------------------------------------------------------
  // Check numbers

  /** The word written before soil check numbers ("ครั้งที่", "round"). */
  const RoundToken: string := "\U{0E04}\U{0E23}\U{0E31}\U{0E49}\U{0E07}\U{0E17}\U{0E35}\U{0E48}"

  /** A check-number key: an integer when the cleaned check number parses as
      one, otherwise the trimmed raw text. */
  datatype CheckKey = Num(n: int) | Txt(t: string)

  /** The two datasets. They differ in how a check number is cleaned before
      the integer parse, and in whether a unit column is read. */
  datatype Schema = Water | Soil {
    predicate HasUnit() {
      Water?
    }

    /** Water parses the check number as it is; soil first removes every
        occurrence of the round word and strips the remainder. */
    function Extract(raw: string): string {
      if Water? then raw else Strip(RemoveAll(raw, RoundToken))
    }

    /** The integer the cleaned check number spells, or, when the parse
        fails, the raw (trimmed, uncleaned) check number. */
    function CheckKeyOf(raw: string): CheckKey {
      match ParseInt(Extract(raw))
      case Some(n) => Num(n)
      case None => Txt(raw)
    }
  }

  /** A key that `CheckKeyOf` can produce: text keys are exactly the ones
      whose cleaned form does not parse. */
  ghost predicate IsKeyOf(schema: Schema, c: CheckKey) {
    c.Txt? ==> ParseInt(schema.Extract(c.t)).None?
  }

  /** `str(check_num)`: the key of a check in the dense rows. */
  function KeyString(c: CheckKey): string {
    match c
    case Num(n) => IntToString(n)
    case Txt(t) => t
  }

  /** The global order of check numbers: every integer before every text,
      integers ascending, texts in code-point order. */
  predicate KeyLess(a: CheckKey, b: CheckKey) {
    match (a, b)
    case (Num(x), Num(y)) => x < y
    case (Num(_), Txt(_)) => true
    case (Txt(_), Num(_)) => false
    case (Txt(x), Txt(y)) => StrLess(x, y)
  }

  lemma KeyLessIsStrictTotalOrder()
    ensures IsStrictTotalOrder(KeyLess)
  {
    StrLessIsStrictTotalOrder();
    forall a, b, c | KeyLess(a, b) && KeyLess(b, c) ensures KeyLess(a, c) {
      if a.Txt? && b.Txt? && c.Txt? {
        assert StrLess(a.t, b.t) && StrLess(b.t, c.t);
      }
    }
    forall a, b | a != b ensures KeyLess(a, b) || KeyLess(b, a) {
      if a.Txt? && b.Txt? {
        assert a.t != b.t;
      }
    }
  }

  /** Every integer renders to a string that survives the soil clean-up
      unchanged: it holds no Thai letter and no surrounding whitespace. */
  lemma ExtractIntString(schema: Schema, n: int)
    ensures schema.Extract(IntToString(n)) == IntToString(n)
  {
    var s := IntToString(n);
    IntToStringShape(n);
    if schema.Soil? {
      RemoveAllAbsent(s, RoundToken);
      StripTrimmed(s);
    }
  }

  /** Distinct keys render to distinct `str(check)` strings, so the dense
      rows never merge two columns. */
  lemma KeyStringInjective(schema: Schema, a: CheckKey, b: CheckKey)
    requires IsKeyOf(schema, a) && IsKeyOf(schema, b)
    requires KeyString(a) == KeyString(b)
    ensures a == b
  {
    match (a, b)
    case (Num(x), Num(y)) =>
      ParseIntToString(x);
      ParseIntToString(y);
    case (Num(x), Txt(t)) =>
      ParseIntToString(x);
      ExtractIntString(schema, x);
      IntToStringShape(x);
    case (Txt(t), Num(y)) =>
      ParseIntToString(y);
      ExtractIntString(schema, y);
      IntToStringShape(y);
    case (Txt(_), Txt(_)) =>
  }

  /** A leading zero does not open a new column: "01" and "1" share one. */
  lemma LeadingZeroSharesColumn(schema: Schema)
    ensures schema.CheckKeyOf("01") == schema.CheckKeyOf("1") == Num(1)
  {
    ParseIntLeadingZero();
    CheckKeyOfDigits(schema, "01");
    CheckKeyOfDigits(schema, "1");
  }

  lemma CheckKeyOfDigits(schema: Schema, s: string)
    requires s != [] && AllDigits(s)
    ensures schema.CheckKeyOf(s) == Num(DigitsValue(s))
  {
    ExtractDigits(schema, s);
  }

  /** A check number made of digits only survives the soil clean-up. */
  lemma ExtractDigits(schema: Schema, s: string)
    requires AllDigits(s)
    ensures schema.Extract(s) == s
  {
    if schema.Soil? {
      RemoveAllAbsent(s, RoundToken);
      DigitsTrimmed(s);
      StripTrimmed(s);
    }
  }

  /** Removing the round word from the front of a text that does not hold
      its first letter U+0E04 gives back exactly that text. */
  lemma RemoveRoundWord(s: string)
    requires forall i :: 0 <= i < |s| ==> s[i] != RoundToken[0]
    ensures RemoveAll(RoundToken + s, RoundToken) == s
  {
    RemoveAllPrefix(RoundToken, s);
    RemoveAllAbsent(s, RoundToken);
  }

  /** A soil check number made of the round word and a rest `s` is cleaned to
      the stripped rest; its key is the integer that rest spells, or, when it
      spells none, the raw text with the round word kept. */
  lemma SoilRoundWord(s: string)
    requires forall i :: 0 <= i < |s| ==> s[i] != RoundToken[0]
    ensures Soil.Extract(RoundToken + s) == Strip(s)
    ensures ParseInt(Strip(s)).Some? ==> Soil.CheckKeyOf(RoundToken + s) == Num(ParseInt(Strip(s)).value)
    ensures ParseInt(Strip(s)).None? ==> Soil.CheckKeyOf(RoundToken + s) == Txt(RoundToken + s)
  {
    RemoveRoundWord(s);
  }

  /** A soil check number written as the round word, any whitespace and the
      decimal form of `n` is the integer `n`. */
  lemma SoilRoundNumber(pad: string, n: nat)
    requires AllSpace(pad)
    ensures Soil.CheckKeyOf(RoundToken + (pad + NatToString(n))) == Num(n)
  {
    PaddedNumber(pad, n);
    SoilRoundWord(pad + NatToString(n));
  }

  /** Whitespace followed by the decimal form of `n` holds no U+0E04, strips
      to the digits and parses back to `n`. */
  lemma PaddedNumber(pad: string, n: nat)
    requires AllSpace(pad)
    ensures forall i :: 0 <= i < |pad + NatToString(n)| ==> (pad + NatToString(n))[i] != RoundToken[0]
    ensures Strip(pad + NatToString(n)) == NatToString(n)
    ensures ParseInt(NatToString(n)) == Some(n)
  {
    var digits := NatToString(n);
    NatToStringDigits(n);
    ParseIntToString(n);
    assert IntToString(n) == digits;
    NoRoundLetter(pad, digits);
    DigitsTrimmed(digits);
    StripPadded(pad, digits);
  }

  /** Neither whitespace nor a digit is the round word's first letter. */
  lemma NoRoundLetter(pad: string, digits: string)
    requires AllSpace(pad) && AllDigits(digits)
    ensures forall i :: 0 <= i < |pad + digits| ==> (pad + digits)[i] != RoundToken[0]
  {
    assert RoundToken[0] == '\U{0E04}';
    forall i | 0 <= i < |pad + digits| ensures (pad + digits)[i] != '\U{0E04}' {
      if i < |pad| {
        assert IsSpace(pad[i]);
      } else {
        assert IsDigit(digits[i - |pad|]);
      }
    }
  }

  /** "ครั้งที่ 3" is the integer 3. */
  lemma SoilRoundWordIsDropped()
    ensures Soil.CheckKeyOf(RoundToken + " 3") == Num(3)
  {
    SoilRoundNumber(" ", 3);
    assert " " + NatToString(3) == " 3";
  }

  /** A soil check number whose rest is not an integer keeps its raw text,
      round word included, not the cleaned text. */
  lemma SoilTextKeepsRoundWord()
    ensures Soil.CheckKeyOf(RoundToken + "A") == Txt(RoundToken + "A")
  {
    LetterIsNotARound();
    SoilRoundWord("A");
  }

  /** The text "A" neither starts the round word nor reads as an integer. */
  lemma LetterIsNotARound()
    ensures forall i :: 0 <= i < |"A"| ==> "A"[i] != RoundToken[0]
    ensures ParseInt(Strip("A")) == None
  {
    StripTrimmed("A");
    assert !IsDigit("A"[0]);
  }

  /** A water check number that is not an integer keeps its own text. */
  lemma TextCheckIsKeptVerbatim()
    ensures Water.CheckKeyOf("A") == Txt("A")
  {
  }

  // ---------------------------------------------------------------------------
  // Rows

  /** A fetched measurement row: the columns the loop reads are present, and
      `parameter` and `check_number` hold text (NULL there is the source's
      TypeError, not modelled). */
  predicate IsMeasurementRow(schema: Schema, row: RowDict) {
    && "parameter" in row && row["parameter"].Text?
    && "check_number" in row && row["check_number"].Text?
    && "value" in row
    && (schema.HasUnit() ==> "unit" in row)
  }

  /** The locals `param`, `check_num`, `value`, `numeric_value` and `unit` of
      one loop iteration, read from the cleaned row, with the check key the
      `try: int(...)` computes from the check number. */
  datatype Reading = Reading(parameter: string, checkNumber: string, key: CheckKey, value: Value, numeric: Value, unit: Value)

  function TextField(d: RowDict, k: string): string {
    if k in d && d[k].Text? then d[k].s else ""
  }

  function Field(d: RowDict, k: string): Value {
    if k in d then d[k] else Null
  }

  /** `numeric_value`: the column's value, or 0 when it is NULL or absent. */
  function NumericOf(d: RowDict): Value {
    if "numeric_value" in d && d["numeric_value"] != Null then d["numeric_value"] else Int(0)
  }

  function ReadingOf(schema: Schema, row: RowDict): Reading {
    var d := StripAll(row);
    var checkNumber := TextField(d, "check_number");
    Reading(TextField(d, "parameter"), checkNumber, schema.CheckKeyOf(checkNumber), Field(d, "value"), NumericOf(d),
            if schema.HasUnit() then Field(d, "unit") else Null)
  }

  /** The readings of all fetched rows, in fetch order. */
  function Readings(schema: Schema, rows: seq<RowDict>): (rs: seq<Reading>)
    ensures |rs| == |rows|
  {
    if rows == [] then [] else Readings(schema, rows[..|rows| - 1]) + [ReadingOf(schema, rows[|rows| - 1])]
  }

  /** Reading `i` is the reading of fetched row `i`. */
  lemma {:induction false} ReadingAt(schema: Schema, rows: seq<RowDict>, i: int)
    requires 0 <= i < |rows|
    ensures Readings(schema, rows)[i] == ReadingOf(schema, rows[i])
  {
    var n := |rows| - 1;
    var init := rows[..n];
    var rs, last := Readings(schema, init), ReadingOf(schema, rows[n]);
    assert Readings(schema, rows) == rs + [last];
    if i < n {
      ReadingAt(schema, init, i);
      assert init[i] == rows[i];
      assert (rs + [last])[i] == rs[i];
      assert Readings(schema, rows)[i] == rs[i];
    } else {
      assert i == n;
      assert (rs + [last])[i] == last;
      assert Readings(schema, rows)[i] == last;
    }
  }

  /** Reading `i` carries parameter `p` and check key `c`. */
  ghost predicate RowAt(rs: seq<Reading>, i: int, p: string, c: CheckKey) {
    0 <= i < |rs| && rs[i].parameter == p && rs[i].key == c
  }

  ghost predicate ParamRowAt(rs: seq<Reading>, i: int, p: string) {
    0 <= i < |rs| && rs[i].parameter == p
  }

  // ---------------------------------------------------------------------------
  // The row loop, as folds over the readings

  /** Which of the two sparse dictionaries: `pivot_data` or `numeric_data`. */
  datatype Column = Shown | Numeric

  function CellOf(col: Column, r: Reading): Value {
    match col
    case Shown => r.value
    case Numeric => r.numeric
  }

  /** `pivot_data` (or `numeric_data`) after the row loop: each row writes its
      cell, so a later row with the same parameter and check overwrites. */
  function Accumulate(rs: seq<Reading>, col: Column): map<string, map<CheckKey, Value>> {
    if rs == [] then map[]
    else
      var n := |rs| - 1;
      var m := Accumulate(rs[..n], col);
      var p := rs[n].parameter;
      var inner := if p in m then m[p] else map[];
      m[p := inner[rs[n].key := CellOf(col, rs[n])]]
  }

  /** `unit_info` after the row loop: set when a parameter is first seen. */
  function UnitInfo(rs: seq<Reading>): map<string, Value> {
    if rs == [] then map[]
    else
      var n := |rs| - 1;
      var m := UnitInfo(rs[..n]);
      if rs[n].parameter in m then m else m[rs[n].parameter := rs[n].unit]
  }

  /** `check_numbers` after the row loop. */
  function CheckSet(rs: seq<Reading>): set<CheckKey> {
    if rs == [] then {}
    else CheckSet(rs[..|rs| - 1]) + {rs[|rs| - 1].key}
  }

  /** Every reading's parameter has a row in `pivot_data`, holding a cell for
      the reading's check. */
  lemma {:induction false} AccumulateCovers(rs: seq<Reading>, col: Column)
    ensures forall i :: 0 <= i < |rs| ==> rs[i].parameter in Accumulate(rs, col) && rs[i].key in Accumulate(rs, col)[rs[i].parameter]
  {
    if rs != [] {
      var n := |rs| - 1;
      var init := rs[..n];
      AccumulateCovers(init, col);
      forall i | 0 <= i < n ensures rs[i].parameter in Accumulate(rs, col) && rs[i].key in Accumulate(rs, col)[rs[i].parameter] {
        assert init[i] == rs[i];
      }
    }
  }

  /** Conversely, every parameter row and every cell of `pivot_data` comes
      from some reading. */
  lemma {:induction false} AccumulateFromRows(rs: seq<Reading>, col: Column)
    ensures forall p :: p in Accumulate(rs, col) ==> exists i :: ParamRowAt(rs, i, p)
    ensures forall p, c :: p in Accumulate(rs, col) && c in Accumulate(rs, col)[p] ==> exists i :: RowAt(rs, i, p, c)
  {
    if rs != [] {
      var n := |rs| - 1;
      var init := rs[..n];
      AccumulateFromRows(init, col);
      var m := Accumulate(init, col);
      forall p | p in Accumulate(rs, col) ensures exists i :: ParamRowAt(rs, i, p) {
        if p != rs[n].parameter {
          assert p in m;
          var i :| ParamRowAt(init, i, p);
          assert ParamRowAt(rs, i, p);
        } else {
          assert ParamRowAt(rs, n, p);
        }
      }
      forall p, c | p in Accumulate(rs, col) && c in Accumulate(rs, col)[p] ensures exists i :: RowAt(rs, i, p, c) {
        if p == rs[n].parameter && c == rs[n].key {
          assert RowAt(rs, n, p, c);
        } else {
          assert p in m && c in m[p];
          var i :| RowAt(init, i, p, c);
          assert RowAt(rs, i, p, c);
        }
      }
    }
  }

  /** Last row wins: the cell of a parameter and check holds what the last
      reading carrying both of them wrote. */
  lemma {:induction false} LastRowWins(rs: seq<Reading>, col: Column, i: int)
    requires 0 <= i < |rs|
    requires forall j :: i < j < |rs| ==> !RowAt(rs, j, rs[i].parameter, rs[i].key)
    ensures rs[i].parameter in Accumulate(rs, col)
    ensures rs[i].key in Accumulate(rs, col)[rs[i].parameter]
    ensures Accumulate(rs, col)[rs[i].parameter][rs[i].key] == CellOf(col, rs[i])
  {
    var n := |rs| - 1;
    if i < n {
      var init := rs[..n];
      assert init[i] == rs[i];
      forall j | i < j < |init| ensures !RowAt(init, j, init[i].parameter, init[i].key) {
        assert !RowAt(rs, j, rs[i].parameter, rs[i].key);
      }
      LastRowWins(init, col, i);
      assert !RowAt(rs, n, rs[i].parameter, rs[i].key);
    }
  }

  /** `unit_info` and `pivot_data` have the same parameters, so the unit
      lookup of a parameter never falls back to its default. */
  lemma {:induction false} UnitInfoKeys(rs: seq<Reading>, col: Column)
    ensures UnitInfo(rs).Keys == Accumulate(rs, col).Keys
  {
    if rs != [] {
      UnitInfoKeys(rs[..|rs| - 1], col);
    }
  }

  /** First unit wins: a parameter's unit is the one on the first reading that
      carries the parameter; later rows never change it. */
  lemma {:induction false} FirstUnitWins(rs: seq<Reading>, i: int)
    requires 0 <= i < |rs|
    requires forall j :: 0 <= j < i ==> rs[j].parameter != rs[i].parameter
    ensures rs[i].parameter in UnitInfo(rs)
    ensures UnitInfo(rs)[rs[i].parameter] == rs[i].unit
  {
    var n := |rs| - 1;
    var init := rs[..n];
    if i < n {
      assert init[i] == rs[i];
      FirstUnitWins(init, i);
    } else {
      UnitInfoKeys(init, Shown);
      AccumulateFromRows(init, Shown);
      assert forall j :: !ParamRowAt(init, j, rs[i].parameter);
    }
  }

  /** `check_numbers` holds exactly the keys of the readings. */
  lemma {:induction false} CheckSetSpec(rs: seq<Reading>)
    ensures forall i :: 0 <= i < |rs| ==> rs[i].key in CheckSet(rs)
    ensures forall c :: c in CheckSet(rs) ==> exists i :: 0 <= i < |rs| && rs[i].key == c
  {
    if rs != [] {
      var n := |rs| - 1;
      var init := rs[..n];
      CheckSetSpec(init);
      forall i | 0 <= i < n ensures rs[i].key in CheckSet(rs) {
        assert init[i] == rs[i];
      }
      forall c | c in CheckSet(rs) ensures exists i :: 0 <= i < |rs| && rs[i].key == c {
        if c != rs[n].key {
          var i :| 0 <= i < |init| && init[i].key == c;
          assert rs[i] == init[i];
        }
      }
    }
  }

  /** Every check key of the readings is one `CheckKeyOf` can produce. */
  ghost predicate KeysValid(schema: Schema, rs: seq<Reading>) {
    forall c :: c in CheckSet(rs) ==> IsKeyOf(schema, c)
  }

  /** The reading of a row carries a key `CheckKeyOf` can produce. */
  lemma ReadingOfKey(schema: Schema, row: RowDict)
    ensures IsKeyOf(schema, ReadingOf(schema, row).key)
  {
  }

  /** The readings of fetched rows carry keys `CheckKeyOf` can produce. */
  lemma ReadingKeys(schema: Schema, rows: seq<RowDict>)
    ensures KeysValid(schema, Readings(schema, rows))
  {
    var rs := Readings(schema, rows);
    CheckSetSpec(rs);
    forall c | c in CheckSet(rs) ensures IsKeyOf(schema, c) {
      var i :| 0 <= i < |rs| && rs[i].key == c;
      ReadingAt(schema, rows, i);
      ReadingOfKey(schema, rows[i]);
    }
  }

  // ---------------------------------------------------------------------------
  // sorted_checks

  function NumsOf(s: set<CheckKey>): set<int> {
    set c | c in s && c.Num? :: c.n
  }

  function TxtsOf(s: set<CheckKey>): set<string> {
    set c | c in s && c.Txt? :: c.t
  }

  function AsNums(xs: seq<int>): (r: seq<CheckKey>)
    ensures |r| == |xs| && forall k :: 0 <= k < |xs| ==> r[k] == Num(xs[k])
  {
    seq(|xs|, k requires 0 <= k < |xs| => Num(xs[k]))
  }

  function AsTxts(xs: seq<string>): (r: seq<CheckKey>)
    ensures |r| == |xs| && forall k :: 0 <= k < |xs| ==> r[k] == Txt(xs[k])
  {
    seq(|xs|, k requires 0 <= k < |xs| => Txt(xs[k]))
  }

  /** The global check order: the integer keys ascending, then the text keys
      ascending. */
  ghost function SortedChecks(s: set<CheckKey>): seq<CheckKey> {
    StrLessIsStrictTotalOrder();
    IntLessIsStrictTotalOrder();
    AsNums(SortedSet(NumsOf(s), IntLess)) + AsTxts(SortedSet(TxtsOf(s), StrLess))
  }

  lemma MergedAscending(ints: seq<int>, txts: seq<string>)
    requires Ascending(ints, IntLess) && Ascending(txts, StrLess)
    ensures Ascending(AsNums(ints) + AsTxts(txts), KeyLess)
  {
    var r := AsNums(ints) + AsTxts(txts);
    forall i, j | 0 <= i < j < |r| ensures KeyLess(r[i], r[j]) {
      if j < |ints| {
        assert r[i] == Num(ints[i]) && r[j] == Num(ints[j]);
        assert IntLess(ints[i], ints[j]);
      } else if i >= |ints| {
        assert r[i] == Txt(txts[i - |ints|]) && r[j] == Txt(txts[j - |ints|]);
        assert StrLess(txts[i - |ints|], txts[j - |ints|]);
      } else {
        assert r[i] == Num(ints[i]) && r[j] == Txt(txts[j - |ints|]);
      }
    }
  }

  lemma MergedElems(s: set<CheckKey>, ints: seq<int>, txts: seq<string>)
    requires Elems(ints) == NumsOf(s) && Elems(txts) == TxtsOf(s)
    ensures Elems(AsNums(ints) + AsTxts(txts)) == s
  {
    var r := AsNums(ints) + AsTxts(txts);
    forall c | c in s ensures c in Elems(r) {
      if c.Num? {
        assert c.n in Elems(ints);
        var k :| 0 <= k < |ints| && ints[k] == c.n;
        assert r[k] == c;
      } else {
        assert c.t in Elems(txts);
        var k :| 0 <= k < |txts| && txts[k] == c.t;
        assert r[|ints| + k] == c;
      }
    }
    forall c | c in Elems(r) ensures c in s {
      var k :| 0 <= k < |r| && r[k] == c;
      if k < |ints| {
        assert r[k] == Num(ints[k]);
        assert ints[k] in Elems(ints);
      } else {
        assert r[k] == Txt(txts[k - |ints|]);
        assert txts[k - |ints|] in Elems(txts);
      }
    }
  }

  /** The global check order holds every distinct key exactly once, all
      integers ascending before all texts ascending. */
  lemma SortedChecksSpec(s: set<CheckKey>)
    ensures Ascending(SortedChecks(s), KeyLess)
    ensures Elems(SortedChecks(s)) == s
    ensures |SortedChecks(s)| == |s|
  {
    StrLessIsStrictTotalOrder();
    IntLessIsStrictTotalOrder();
    var ints := SortedSet(NumsOf(s), IntLess);
    var txts := SortedSet(TxtsOf(s), StrLess);
    MergedAscending(ints, txts);
    MergedElems(s, ints, txts);
    KeyLessIsStrictTotalOrder();
    AscendingCard(SortedChecks(s), KeyLess);
  }

  /** The keys of the global order render to pairwise distinct strings. */
  lemma SortedChecksDistinctStrings(schema: Schema, s: set<CheckKey>)
    requires forall c :: c in s ==> IsKeyOf(schema, c)
    ensures forall i, j :: 0 <= i < j < |SortedChecks(s)| ==> KeyString(SortedChecks(s)[i]) != KeyString(SortedChecks(s)[j])
  {
    SortedChecksSpec(s);
    KeyLessIsStrictTotalOrder();
    var r := SortedChecks(s);
    forall i, j | 0 <= i < j < |r| ensures KeyString(r[i]) != KeyString(r[j]) {
      assert KeyLess(r[i], r[j]);
      assert r[i] in Elems(r) && r[j] in Elems(r);
      if KeyString(r[i]) == KeyString(r[j]) {
        KeyStringInjective(schema, r[i], r[j]);
      }
    }
  }

  // ---------------------------------------------------------------------------
  // Dense rows

  /** Which dense dictionary: `check_values` or the chart's `numeric_values`. */
  datatype CellKind = Display | Chart

  /** One dense cell. `check_values` shows the stored value when it is truthy
      and `None` otherwise; `numeric_values` shows the stored numeric value
      when the displayed value is truthy and 0 otherwise. */
  function DenseCell(kind: CellKind, shown: map<CheckKey, Value>, numeric: map<CheckKey, Value>, c: CheckKey): Value {
    var value := if c in shown then shown[c] else Null;
    match kind
    case Display => if Truthy(value) then value else Null
    case Chart => if Truthy(value) then (if c in numeric then numeric[c] else Int(0)) else Int(0)
  }

  /** A dense row: one entry `str(c)` per check `c`, filled in check order. */
  function Dense(kind: CellKind, shown: map<CheckKey, Value>, numeric: map<CheckKey, Value>, checks: seq<CheckKey>): map<string, Value> {
    if checks == [] then map[]
    else
      var n := |checks| - 1;
      Dense(kind, shown, numeric, checks[..n])[KeyString(checks[n]) := DenseCell(kind, shown, numeric, checks[n])]
  }

  ghost predicate DistinctStrings(checks: seq<CheckKey>) {
    forall i, j :: 0 <= i < j < |checks| ==> KeyString(checks[i]) != KeyString(checks[j])
  }

  /** A dense row has exactly the keys `str(c)` of the checks. */
  lemma {:induction false} DenseKeys(kind: CellKind, shown: map<CheckKey, Value>, numeric: map<CheckKey, Value>, checks: seq<CheckKey>)
    ensures Dense(kind, shown, numeric, checks).Keys == set c | c in checks :: KeyString(c)
  {
    if checks != [] {
      var n := |checks| - 1;
      DenseKeys(kind, shown, numeric, checks[..n]);
      assert checks == checks[..n] + [checks[n]];
    }
  }

  /** With distinct strings, the row has one entry per check. */
  lemma {:induction false} DenseSize(kind: CellKind, shown: map<CheckKey, Value>, numeric: map<CheckKey, Value>, checks: seq<CheckKey>)
    requires DistinctStrings(checks)
    ensures |Dense(kind, shown, numeric, checks)| == |checks|
  {
    if checks != [] {
      var n := |checks| - 1;
      var init := checks[..n];
      assert DistinctStrings(init);
      DenseSize(kind, shown, numeric, init);
      DenseKeys(kind, shown, numeric, init);
      assert forall c :: c in init ==> KeyString(c) != KeyString(checks[n]) by {
        forall c | c in init ensures KeyString(c) != KeyString(checks[n]) {
          var i :| 0 <= i < n && init[i] == c;
          assert init[i] == checks[i];
        }
      }
    }
  }

  /** With distinct strings, the entry `str(c)` holds the cell of check `c`. */
  lemma {:induction false} DenseLookup(kind: CellKind, shown: map<CheckKey, Value>, numeric: map<CheckKey, Value>, checks: seq<CheckKey>, k: int)
    requires 0 <= k < |checks|
    requires DistinctStrings(checks)
    ensures KeyString(checks[k]) in Dense(kind, shown, numeric, checks)
    ensures Dense(kind, shown, numeric, checks)[KeyString(checks[k])] == DenseCell(kind, shown, numeric, checks[k])
  {
    var n := |checks| - 1;
    if k < n {
      var init := checks[..n];
      assert DistinctStrings(init);
      assert init[k] == checks[k];
      DenseLookup(kind, shown, numeric, init, k);
    }
  }

  /** With distinct strings, the entry of a listed check holds its cell. */
  lemma DenseAt(kind: CellKind, shown: map<CheckKey, Value>, numeric: map<CheckKey, Value>, checks: seq<CheckKey>, c: CheckKey)
    requires c in checks
    requires DistinctStrings(checks)
    ensures KeyString(c) in Dense(kind, shown, numeric, checks)
    ensures Dense(kind, shown, numeric, checks)[KeyString(c)] == DenseCell(kind, shown, numeric, c)
  {
    var k :| 0 <= k < |checks| && checks[k] == c;
    DenseLookup(kind, shown, numeric, checks, k);
  }

  // ---------------------------------------------------------------------------
  // The whole pivot

  datatype PivotRow = PivotRow(parameter: string, checkValues: map<string, Value>, unit: Option<Value>)

  datatype ChartRow = ChartRow(parameter: string, checkValues: map<string, Value>, numericValues: map<string, Value>, unit: Option<Value>)

  /** The dictionary the two functions return. `units` is present only for
      water, as is each row's `unit`. */
  datatype Pivot = Pivot(
    pivot: map<string, map<CheckKey, Value>>,
    pivotList: seq<PivotRow>,
    pivotListFiltered: seq<ChartRow>,
    checkNumbers: seq<CheckKey>,
    units: Option<map<string, Value>>,
    parameters: seq<string>)

  /** A row's `unit` entry: the parameter's unit, or the empty text when it
      has none, for water; absent for soil. */
  function UnitEntry(schema: Schema, units: map<string, Value>, p: string): Option<Value> {
    if schema.HasUnit() then Some(if p in units then units[p] else Text("")) else None
  }

  /** The global check order of readings with valid keys renders to
      distinct strings. */
  lemma ChecksDistinct(schema: Schema, rs: seq<Reading>)
    requires KeysValid(schema, rs)
    ensures DistinctStrings(SortedChecks(CheckSet(rs)))
    ensures Elems(SortedChecks(CheckSet(rs))) == CheckSet(rs)
  {
    var s := CheckSet(rs);
    SortedChecksSpec(s);
    SortedChecksDistinctStrings(schema, s);
  }

  /** A check key of the readings is listed in the global check order. */
  lemma CheckedOrder(schema: Schema, rs: seq<Reading>, c: CheckKey) returns (checks: seq<CheckKey>)
    requires KeysValid(schema, rs) && c in CheckSet(rs)
    ensures checks == SortedChecks(CheckSet(rs))
    ensures c in checks && DistinctStrings(checks)
  {
    ChecksDistinct(schema, rs);
    checks := SortedChecks(CheckSet(rs));
    assert c in Elems(checks);
  }

  /** The cell of parameter `p` and check `c` in both dense rows is decided by
      the last row carrying `p` and `c`: its value when that is truthy (with
      its numeric value on the chart), else `None` (and 0). */
  lemma CellFromLastRow(schema: Schema, rs: seq<Reading>, i: int)
    requires KeysValid(schema, rs)
    requires 0 <= i < |rs|
    requires forall j :: i < j < |rs| ==> !RowAt(rs, j, rs[i].parameter, rs[i].key)
    ensures
      var p, c, r := rs[i].parameter, rs[i].key, rs[i];
      var shown, numeric := Accumulate(rs, Shown), Accumulate(rs, Numeric);
      var checks := SortedChecks(CheckSet(rs));
      && p in shown && p in numeric
      && KeyString(c) in Dense(Display, shown[p], numeric[p], checks)
      && Dense(Display, shown[p], numeric[p], checks)[KeyString(c)] == (if Truthy(r.value) then r.value else Null)
      && KeyString(c) in Dense(Chart, shown[p], numeric[p], checks)
      && Dense(Chart, shown[p], numeric[p], checks)[KeyString(c)] == (if Truthy(r.value) then r.numeric else Int(0))
  {
    var p, c := rs[i].parameter, rs[i].key;
    LastRowWins(rs, Shown, i);
    LastRowWins(rs, Numeric, i);
    CheckSetSpec(rs);
    var checks := CheckedOrder(schema, rs, c);
    var shown, numeric := Accumulate(rs, Shown), Accumulate(rs, Numeric);
    DenseAt(Display, shown[p], numeric[p], checks, c);
    DenseAt(Chart, shown[p], numeric[p], checks, c);
  }

  /** A check that no row of parameter `p` carries is `None` in the table and
      0 on the chart. */
  lemma CellWithoutRow(schema: Schema, rs: seq<Reading>, p: string, c: CheckKey)
    requires KeysValid(schema, rs)
    requires p in Accumulate(rs, Shown) && c in CheckSet(rs)
    requires forall j :: !RowAt(rs, j, p, c)
    ensures
      var shown, numeric := Accumulate(rs, Shown), Accumulate(rs, Numeric);
      var checks := SortedChecks(CheckSet(rs));
      && p in numeric
      && KeyString(c) in Dense(Display, shown[p], numeric[p], checks)
      && Dense(Display, shown[p], numeric[p], checks)[KeyString(c)] == Null
      && KeyString(c) in Dense(Chart, shown[p], numeric[p], checks)
      && Dense(Chart, shown[p], numeric[p], checks)[KeyString(c)] == Int(0)
  {
    UnitInfoKeys(rs, Shown);
    UnitInfoKeys(rs, Numeric);
    AccumulateFromRows(rs, Shown);
    var checks := CheckedOrder(schema, rs, c);
    var shown, numeric := Accumulate(rs, Shown), Accumulate(rs, Numeric);
    assert c !in shown[p];
    DenseAt(Display, shown[p], numeric[p], checks, c);
    DenseAt(Chart, shown[p], numeric[p], checks, c);
  }

  /** Every dense row, in both lists, has exactly one entry `str(c)` per
      check `c` of `check_numbers`, and no other entry. */
  lemma DenseRowShape(schema: Schema, rs: seq<Reading>, kind: CellKind, shown: map<CheckKey, Value>, numeric: map<CheckKey, Value>)
    requires KeysValid(schema, rs)
    ensures
      var s := CheckSet(rs);
      && Dense(kind, shown, numeric, SortedChecks(s)).Keys == (set c | c in s :: KeyString(c))
      && |Dense(kind, shown, numeric, SortedChecks(s))| == |s|
  {
    var s := CheckSet(rs);
    ChecksDistinct(schema, rs);
    SortedChecksSpec(s);
    var checks := SortedChecks(s);
    DenseKeys(kind, shown, numeric, checks);
    DenseSize(kind, shown, numeric, checks);
    assert forall c :: c in checks <==> c in s by {
      assert forall c :: c in checks <==> c in Elems(checks);
    }
  }

  /** The row loop: clean each row, then record its cell in `pivot_data` and
      `numeric_data`, its key in `check_numbers` and, for water, the unit of
      a new parameter. */
  method CollectRows(schema: Schema, rows: seq<RowDict>)
    returns (pivot: map<string, map<CheckKey, Value>>, numeric: map<string, map<CheckKey, Value>>,
             checks: set<CheckKey>, units: map<string, Value>)
    requires forall i {:trigger IsMeasurementRow(schema, rows[i])} :: 0 <= i < |rows| ==> IsMeasurementRow(schema, rows[i])
    ensures pivot == Accumulate(Readings(schema, rows), Shown)
    ensures numeric == Accumulate(Readings(schema, rows), Numeric)
    ensures checks == CheckSet(Readings(schema, rows))
    ensures schema.HasUnit() ==> units == UnitInfo(Readings(schema, rows))
    ensures !schema.HasUnit() ==> units == map[]
  {
    ghost var rs := Readings(schema, rows);
    pivot, numeric, checks, units := map[], map[], {}, map[];
    assert rs[..0] == [];
    for i := 0 to |rows|
      invariant CollectedState(schema.HasUnit(), rs[..i], pivot, numeric, checks, units)
    {
      pivot, numeric, checks, units := CollectRow(schema, rows, rs, i, pivot, numeric, checks, units);
    }
    TakeAll(rs);
  }

  /** One iteration of the row loop: row `i` is read and recorded. */
  method CollectRow(schema: Schema, rows: seq<RowDict>, ghost rs: seq<Reading>, i: int,
                    pivot: map<string, map<CheckKey, Value>>, numeric: map<string, map<CheckKey, Value>>,
                    checks: set<CheckKey>, units: map<string, Value>)
    returns (pivot': map<string, map<CheckKey, Value>>, numeric': map<string, map<CheckKey, Value>>,
             checks': set<CheckKey>, units': map<string, Value>)
    requires forall i {:trigger IsMeasurementRow(schema, rows[i])} :: 0 <= i < |rows| ==> IsMeasurementRow(schema, rows[i])
    requires rs == Readings(schema, rows) && 0 <= i < |rows|
    requires CollectedState(schema.HasUnit(), rs[..i], pivot, numeric, checks, units)
    ensures CollectedState(schema.HasUnit(), rs[..i + 1], pivot', numeric', checks', units')
  {
    var r := ReadRow(schema, rows, i);
    TakeSnoc(rs, i);
    pivot', numeric', checks', units' := RecordReading(schema.HasUnit(), rs[..i], r, pivot, numeric, checks, units);
  }

  /** The four dictionaries of the row loop after the readings `seen`. */
  ghost predicate CollectedState(hasUnit: bool, seen: seq<Reading>, pivot: map<string, map<CheckKey, Value>>,
                                 numeric: map<string, map<CheckKey, Value>>, checks: set<CheckKey>, units: map<string, Value>)
  {
    && pivot == Accumulate(seen, Shown)
    && numeric == Accumulate(seen, Numeric)
    && checks == CheckSet(seen)
    && (hasUnit ==> units == UnitInfo(seen))
    && (!hasUnit ==> units == map[])
    && pivot.Keys == numeric.Keys
    && (hasUnit ==> units.Keys == pivot.Keys)
  }

  /** The second half of a loop iteration: record one reading's cells, its
      check key and, for a parameter not seen before, its unit. */
  method RecordReading(hasUnit: bool, ghost seen: seq<Reading>, r: Reading,
                       pivot: map<string, map<CheckKey, Value>>, numeric: map<string, map<CheckKey, Value>>,
                       checks: set<CheckKey>, units: map<string, Value>)
    returns (pivot': map<string, map<CheckKey, Value>>, numeric': map<string, map<CheckKey, Value>>,
             checks': set<CheckKey>, units': map<string, Value>)
    requires CollectedState(hasUnit, seen, pivot, numeric, checks, units)
    ensures CollectedState(hasUnit, seen + [r], pivot', numeric', checks', units')
  {
    ghost var all := seen + [r];
    assert all[..|seen|] == seen && all[|seen|] == r;
    var isNew := r.parameter !in pivot;
    var shownRow := if isNew then map[] else pivot[r.parameter];
    var numericRow := if isNew then map[] else numeric[r.parameter];
    units' := if isNew && hasUnit then units[r.parameter := r.unit] else units;
    checks' := checks + {r.key};
    pivot' := pivot[r.parameter := shownRow[r.key := r.value]];
    numeric' := numeric[r.parameter := numericRow[r.key := r.numeric]];
  }

  /** The first half of a loop iteration: clean the row, read its columns,
      and parse its check number. */
  method ReadRow(schema: Schema, rows: seq<RowDict>, i: int) returns (r: Reading)
    requires forall i {:trigger IsMeasurementRow(schema, rows[i])} :: 0 <= i < |rows| ==> IsMeasurementRow(schema, rows[i])
    requires 0 <= i < |rows|
    ensures r == Readings(schema, rows)[i]
  {
    var row := rows[i];
    assert IsMeasurementRow(schema, row);
    var d := StripStrings(row);
    ReadingOfCleaned(schema, row);
    ReadingAt(schema, rows, i);
    var param := d["parameter"].s;
    var checkNum := d["check_number"].s;
    var value := d["value"];
    var numericValue := if "numeric_value" in d && d["numeric_value"] != Null then d["numeric_value"] else Int(0);
    var unit := if schema.HasUnit() then d["unit"] else Null;
    var cleaned := schema.Extract(checkNum);
    var parsed := ParseInt(cleaned);
    var key := if parsed.Some? then Num(parsed.value) else Txt(checkNum);
    r := Reading(param, checkNum, key, value, numericValue, unit);
  }

  /** The fields of a reading, read off the cleaned row. */
  lemma ReadingOfCleaned(schema: Schema, row: RowDict)
    requires IsMeasurementRow(schema, row)
    ensures
      var d, r := StripAll(row), ReadingOf(schema, row);
      && "parameter" in d && "check_number" in d && "value" in d
      && r.parameter == d["parameter"].s && r.checkNumber == d["check_number"].s
      && r.key == schema.CheckKeyOf(r.checkNumber)
      && r.value == d["value"] && r.numeric == NumericOf(d)
      && (schema.HasUnit() ==> "unit" in d && r.unit == d["unit"])
  {
  }

  /** The inner loop of `pivot_list`: one `check_values` entry per check. */
  method FillCheckValues(shown: map<CheckKey, Value>, numeric: map<CheckKey, Value>, checks: seq<CheckKey>)
    returns (checkValues: map<string, Value>)
    ensures checkValues == Dense(Display, shown, numeric, checks)
  {
    checkValues := map[];
    for k := 0 to |checks|
      invariant checkValues == Dense(Display, shown, numeric, checks[..k])
    {
      assert checks[..k + 1][..k] == checks[..k];
      var c := checks[k];
      var value := if c in shown then shown[c] else Null;
      if Truthy(value) {
        checkValues := checkValues[KeyString(c) := value];
      } else {
        checkValues := checkValues[KeyString(c) := Null];
      }
    }
    assert checks[..|checks|] == checks;
  }

  /** The inner loop of `pivot_list_filtered`: `check_values` and
      `numeric_values` entries per check. */
  method FillChartValues(shown: map<CheckKey, Value>, numeric: map<CheckKey, Value>, checks: seq<CheckKey>)
    returns (checkValues: map<string, Value>, numericValues: map<string, Value>)
    ensures checkValues == Dense(Display, shown, numeric, checks)
    ensures numericValues == Dense(Chart, shown, numeric, checks)
  {
    checkValues, numericValues := map[], map[];
    for k := 0 to |checks|
      invariant checkValues == Dense(Display, shown, numeric, checks[..k])
      invariant numericValues == Dense(Chart, shown, numeric, checks[..k])
    {
      assert checks[..k + 1][..k] == checks[..k];
      var c := checks[k];
      var value := if c in shown then shown[c] else Null;
      var numericValue := if c in numeric then numeric[c] else Int(0);
      if Truthy(value) {
        checkValues := checkValues[KeyString(c) := value];
        numericValues := numericValues[KeyString(c) := numericValue];
      } else {
        checkValues := checkValues[KeyString(c) := Null];
        numericValues := numericValues[KeyString(c) := Int(0)];
      }
    }
    assert checks[..|checks|] == checks;
  }

  /** `pivot_list`: per parameter, in order, its dense `check_values` and,
      for water, its unit. */
  method PivotRows(schema: Schema, parameters: seq<string>, pivot: map<string, map<CheckKey, Value>>,
                   numeric: map<string, map<CheckKey, Value>>, units: map<string, Value>, checks: seq<CheckKey>)
    returns (pivotList: seq<PivotRow>)
    requires forall k :: 0 <= k < |parameters| ==> parameters[k] in pivot && parameters[k] in numeric
    ensures |pivotList| == |parameters|
    ensures forall k :: 0 <= k < |parameters| ==>
      pivotList[k] == PivotRow(parameters[k], Dense(Display, pivot[parameters[k]], numeric[parameters[k]], checks),
                               UnitEntry(schema, units, parameters[k]))
  {
    pivotList := [];
    for j := 0 to |parameters|
      invariant |pivotList| == j
      invariant forall k :: 0 <= k < j ==>
        pivotList[k] == PivotRow(parameters[k], Dense(Display, pivot[parameters[k]], numeric[parameters[k]], checks),
                                 UnitEntry(schema, units, parameters[k]))
    {
      var p := parameters[j];
      var checkValues := FillCheckValues(pivot[p], numeric[p], checks);
      var unit := if schema.HasUnit() then Some(if p in units then units[p] else Text("")) else None;
      pivotList := pivotList + [PivotRow(p, checkValues, unit)];
    }
  }

  /** `pivot_list_filtered`: per parameter, in order, its dense `check_values`,
      its dense `numeric_values` and, for water, its unit. */
  method ChartRows(schema: Schema, parameters: seq<string>, pivot: map<string, map<CheckKey, Value>>,
                   numeric: map<string, map<CheckKey, Value>>, units: map<string, Value>, checks: seq<CheckKey>)
    returns (pivotListFiltered: seq<ChartRow>)
    requires forall k :: 0 <= k < |parameters| ==> parameters[k] in pivot
    ensures |pivotListFiltered| == |parameters|
    ensures forall k :: 0 <= k < |parameters| ==>
      var p := parameters[k];
      var numericRow := if p in numeric then numeric[p] else map[];
      pivotListFiltered[k] == ChartRow(p, Dense(Display, pivot[p], numericRow, checks),
                                       Dense(Chart, pivot[p], numericRow, checks), UnitEntry(schema, units, p))
  {
    pivotListFiltered := [];
    for j := 0 to |parameters|
      invariant |pivotListFiltered| == j
      invariant forall k :: 0 <= k < j ==>
        var p := parameters[k];
        var numericRow := if p in numeric then numeric[p] else map[];
        pivotListFiltered[k] == ChartRow(p, Dense(Display, pivot[p], numericRow, checks),
                                         Dense(Chart, pivot[p], numericRow, checks), UnitEntry(schema, units, p))
    {
      var p := parameters[j];
      var checkValues, numericValues := FillChartValues(pivot[p], if p in numeric then numeric[p] else map[], checks);
      var unit := if schema.HasUnit() then Some(if p in units then units[p] else Text("")) else None;
      pivotListFiltered := pivotListFiltered + [ChartRow(p, checkValues, numericValues, unit)];
    }
  }

  /** `get_water_data` / `get_soil_data` once the rows are fetched: the sparse
      map, the global check order, the sorted parameters, and per parameter
      one table row and one chart row, each dense over the checks. */
  method BuildPivot(schema: Schema, rows: seq<RowDict>) returns (res: Pivot)
    requires forall i {:trigger IsMeasurementRow(schema, rows[i])} :: 0 <= i < |rows| ==> IsMeasurementRow(schema, rows[i])
    ensures res.pivot == Accumulate(Readings(schema, rows), Shown)
    ensures res.checkNumbers == SortedChecks(CheckSet(Readings(schema, rows)))
    ensures Ascending(res.parameters, StrLess) && Elems(res.parameters) == res.pivot.Keys
    ensures res.units == if schema.HasUnit() then Some(UnitInfo(Readings(schema, rows))) else None
    ensures |res.pivotList| == |res.parameters| && |res.pivotListFiltered| == |res.parameters|
    ensures forall k :: 0 <= k < |res.parameters| ==>
      var p := res.parameters[k];
      var shown, numeric := Accumulate(Readings(schema, rows), Shown), Accumulate(Readings(schema, rows), Numeric);
      && p in shown && p in numeric
      && res.pivotList[k] == PivotRow(p, Dense(Display, shown[p], numeric[p], res.checkNumbers),
                                      UnitEntry(schema, UnitInfo(Readings(schema, rows)), p))
      && res.pivotListFiltered[k] == ChartRow(p, Dense(Display, shown[p], numeric[p], res.checkNumbers),
                                              Dense(Chart, shown[p], numeric[p], res.checkNumbers),
                                              UnitEntry(schema, UnitInfo(Readings(schema, rows)), p))
  {
    var pivot, numeric, checks, units := CollectRows(schema, rows);
    ghost var rs := Readings(schema, rows);

    StrLessIsStrictTotalOrder();
    IntLessIsStrictTotalOrder();
    var ints := SortSet(NumsOf(checks), IntLess);
    var texts := SortSet(TxtsOf(checks), StrLess);
    var sortedChecks := AsNums(ints) + AsTxts(texts);
    var parameters := SortSet(pivot.Keys, StrLess);
    assert forall k :: 0 <= k < |parameters| ==> parameters[k] in pivot && parameters[k] in numeric by {
      UnitInfoKeys(rs, Shown);
      UnitInfoKeys(rs, Numeric);
      forall k | 0 <= k < |parameters| ensures parameters[k] in pivot {
        assert parameters[k] in Elems(parameters);
      }
    }
    assert forall p :: UnitEntry(schema, units, p) == UnitEntry(schema, UnitInfo(rs), p);

    var pivotList := PivotRows(schema, parameters, pivot, numeric, units, sortedChecks);
    var pivotListFiltered := ChartRows(schema, parameters, pivot, numeric, units, sortedChecks);

    res := Pivot(pivot, pivotList, pivotListFiltered, sortedChecks,
                 if schema.HasUnit() then Some(units) else None, parameters);
  }
}
