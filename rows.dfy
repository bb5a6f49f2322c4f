/** Rows as the dashboard receives them from the store: a dictionary from
    column alias to value, whose text values are whitespace-stripped in place
    before anything else reads them (app.py: `get_stations`,
    `get_station_by_code`, and the row loops of `get_water_data` and
    `get_soil_data`). */
module Rows {
  import opened Strings

  /** A column value as handed over by the store: NULL (`None`), an integer
      (the `id` column) or text. */
  datatype Value = Null | Int(i: int) | Text(s: string)

  /** Python truthiness of a value, the test behind `if value:`: `None`, `0`
      and `""` are false; a non-empty string such as "0" is true. */
  predicate Truthy(v: Value) {
    match v
    case Null => false
    case Int(i) => i != 0
    case Text(s) => s != ""
  }

  /** `dict(row)`: column alias to value. */
  type RowDict = map<string, Value>

  /** A value as it is after the clean-up: text has no surrounding whitespace. */
  ghost predicate IsClean(v: Value) {
    v.Text? ==> IsTrimmed(v.s)
  }

  /** The clean-up of one value: `value.strip()` if it is a `str`, else unchanged. */
  function StripValue(v: Value): (r: Value)
    ensures IsClean(r)
    ensures r.Text? <==> v.Text?
    ensures !v.Text? ==> r == v
    ensures v.Text? ==> Surrounds(v.s, r.s)
  {
    match v
    case Text(s) => StripSurrounds(s); Text(Strip(s))
    case _ => v
  }

  /** The dictionary after the clean-up loop: the same columns, every text
      value stripped, every other value untouched. */
  function StripAll(d: RowDict): (r: RowDict)
    ensures r.Keys == d.Keys
    ensures forall k :: k in r ==> IsClean(r[k])
    ensures forall k :: k in r ==> (r[k].Text? <==> d[k].Text?) && (!d[k].Text? ==> r[k] == d[k])
    ensures forall k :: k in r && d[k].Text? ==> Surrounds(d[k].s, r[k].s)
  {
    map k | k in d :: StripValue(d[k])
  }

  /** Cleaning twice is the same as cleaning once. */
  lemma StripAllIdempotent(d: RowDict)
    ensures StripAll(StripAll(d)) == StripAll(d)
  {
    var once := StripAll(d);
    forall k | k in once ensures StripAll(once)[k] == once[k] {
      if d[k].Text? {
        StripIdempotent(d[k].s);
      }
    }
    assert StripAll(once).Keys == once.Keys;
  }

  /** The strip loop over a fresh copy of a fetched row: every text value
      is replaced by its stripped form, the other values are kept. */
  method StripStrings(d: RowDict) returns (r: RowDict)
    ensures r == StripAll(d)
  {
    r := d;
    var pending := d.Keys;
    while pending != {}
      invariant pending <= d.Keys == r.Keys
      invariant forall k :: k in pending ==> r[k] == d[k]
      invariant forall k :: k in r && k !in pending ==> r[k] == StripValue(d[k])
      decreases |pending|
    {
      var key :| key in pending;
      r := StripEntry(r, key);
      pending := pending - {key};
    }
    StripAllAgrees(d, r);
  }

  /** A dictionary with the same columns whose every value is the cleaned
      value of `d` is the cleaned `d`. */
  lemma StripAllAgrees(d: RowDict, r: RowDict)
    requires r.Keys == d.Keys
    requires forall k :: k in r ==> r[k] == StripValue(d[k])
    ensures r == StripAll(d)
  {
    assert forall k :: k in r ==> r[k] == StripAll(d)[k];
  }

  /** One turn of the clean-up loop: the value under `key` is stripped if it
      is text, and no other entry changes. */
  method StripEntry(r: RowDict, key: string) returns (r': RowDict)
    requires key in r
    ensures r'.Keys == r.Keys
    ensures r'[key] == StripValue(r[key])
    ensures forall k :: k in r && k != key ==> r'[k] == r[k]
  {
    r' := r;
    var value := r[key];
    if value.Text? {
      r' := r[key := Text(Strip(value.s))];
    }
  }
}
