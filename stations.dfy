/** The station list page (app.py `get_stations`, `get_station_by_code`,
    `index`): the cleaned station rows, the four filter lists and the
    province / amphoe / tambon hierarchy behind the cascading dropdowns. */
module StationDirectory {
  import opened Wrappers
  import opened Sorting
  import opened Strings
  import opened Rows

  /** Column `k` is present and holds text or NULL. */
  predicate HasTextColumn(s: RowDict, k: string) {
    k in s && !s[k].Int?
  }

  /** A row of the station query: every text column present, holding text or
      NULL (`id`, the integer key, is not read here). */
  predicate IsStationRow(s: RowDict) {
    && HasTextColumn(s, "river")
    && HasTextColumn(s, "station")
    && HasTextColumn(s, "location")
    && HasTextColumn(s, "tambon")
    && HasTextColumn(s, "amphoe")
    && HasTextColumn(s, "province")
  }

  predicate IsTextColumn(column: string) {
    column in {"river", "station", "location", "tambon", "amphoe", "province"}
  }

  /** The text of a text value, `""` standing for NULL (both are falsy). */
  function TextOf(v: Value): string {
    if v.Text? then v.s else ""
  }

  /** A station's value in a column, the empty text when the column is absent. */
  function Get(s: RowDict, column: string): Value {
    if column in s then s[column] else Text("")
  }

  // ---------------------------------------------------------------------------
  // get_stations / get_station_by_code

  /** `get_stations`: every fetched row, in the store's order, with its text
      values stripped. */
  method LoadStations(fetched: seq<RowDict>) returns (stations: seq<RowDict>)
    ensures |stations| == |fetched|
    ensures forall i :: 0 <= i < |fetched| ==> stations[i] == StripAll(fetched[i])
  {
    stations := [];
    for i := 0 to |fetched|
      invariant |stations| == i
      invariant forall j :: 0 <= j < i ==> stations[j] == StripAll(fetched[j])
    {
      var station := StripStrings(fetched[i]);
      stations := stations + [station];
    }
  }

  /** `get_station_by_code` after the lookup: the matching row cleaned, or
      `None` when the store found no row. */
  method StationByCode(fetched: Option<RowDict>) returns (station: Option<RowDict>)
    ensures station.Some? <==> fetched.Some?
    ensures fetched.Some? ==> station.value == StripAll(fetched.value)
  {
    if fetched.Some? {
      var cleaned := StripStrings(fetched.value);
      station := Some(cleaned);
    } else {
      station := None;
    }
  }

  /** Cleaning keeps a station row a station row. */
  lemma StripKeepsStationRow(s: RowDict)
    requires IsStationRow(s)
    ensures IsStationRow(StripAll(s))
  {
  }

  // ---------------------------------------------------------------------------
  // Filter lists

  /** Some station holds text `w` in `column`. */
  ghost predicate HasValue(stations: seq<RowDict>, column: string, w: string) {
    exists i :: 0 <= i < |stations| && Get(stations[i], column) == Text(w)
  }

  /** The values of a column over one more station: the earlier ones and the
      new station's. */
  lemma HasValueSnoc(stations: seq<RowDict>, column: string)
    requires stations != []
    ensures forall w :: HasValue(stations, column, w) <==>
      HasValue(stations[..|stations| - 1], column, w) || Get(stations[|stations| - 1], column) == Text(w)
  {
    var n := |stations| - 1;
    var init := stations[..n];
    forall w ensures HasValue(stations, column, w) <==> HasValue(init, column, w) || Get(stations[n], column) == Text(w) {
      if HasValue(init, column, w) {
        var i :| 0 <= i < |init| && Get(init[i], column) == Text(w);
        assert stations[i] == init[i];
      }
      if HasValue(stations, column, w) && Get(stations[n], column) != Text(w) {
        var i :| 0 <= i < |stations| && Get(stations[i], column) == Text(w);
        assert init[i] == stations[i];
      }
    }
  }

  /** The non-empty values of a column, one per station that has one, in
      station order. */
  function FilterValues(stations: seq<RowDict>, column: string): (r: seq<string>)
    requires forall i :: 0 <= i < |stations| ==> IsStationRow(stations[i])
    requires IsTextColumn(column)
    ensures forall v :: v in r <==> v != "" && HasValue(stations, column, v)
  {
    if stations == [] then []
    else
      var n := |stations| - 1;
      var rest := FilterValues(stations[..n], column);
      assert IsStationRow(stations[n]);
      var v := stations[n][column];
      HasValueSnoc(stations, column);
      if Truthy(v) then rest + [v.s] else rest
  }

  /** The distinct non-empty values of a column, sorted: strictly
      ascending, and holding exactly the non-empty values of the column. */
  function UniqueValues(stations: seq<RowDict>, column: string): (r: seq<string>)
    requires forall i :: 0 <= i < |stations| ==> IsStationRow(stations[i])
    requires IsTextColumn(column)
    ensures Ascending(r, StrLess)
    ensures forall v :: v in r <==> v != "" && HasValue(stations, column, v)
  {
    StrLessIsStrictTotalOrder();
    var r := SortedUnique(FilterValues(stations, column), StrLess);
    assert forall v :: v in r <==> v in Elems(r);
    r
  }

  // ---------------------------------------------------------------------------
  // Location hierarchy

  /** Station `i` lies in province `p`, amphoe `a` and tambon `t`, all three
      non-empty (the stations the hierarchy is built from). */
  ghost predicate LocatedAt(stations: seq<RowDict>, i: int, p: string, a: string, t: string) {
    && 0 <= i < |stations|
    && p != "" && a != "" && t != ""
    && TextOf(Get(stations[i], "province")) == p
    && TextOf(Get(stations[i], "amphoe")) == a
    && TextOf(Get(stations[i], "tambon")) == t
  }

  ghost predicate Located(stations: seq<RowDict>, p: string, a: string, t: string) {
    exists i :: LocatedAt(stations, i, p, a, t)
  }

  /** The dictionary of dictionaries of sets built by the first loop of the
      hierarchy code, station by station. */
  function HierarchySets(stations: seq<RowDict>): map<string, map<string, set<string>>> {
    if stations == [] then map[]
    else
      var h := HierarchySets(stations[..|stations| - 1]);
      var s := stations[|stations| - 1];
      var p, a, t := TextOf(Get(s, "province")), TextOf(Get(s, "amphoe")), TextOf(Get(s, "tambon"));
      if p != "" && a != "" && t != "" then AddTambon(h, p, a, t) else h
  }

  /** Records tambon `t` under province `p` and amphoe `a`, creating the
      province and amphoe entries when they are missing. */
  function AddTambon(h: map<string, map<string, set<string>>>, p: string, a: string, t: string): map<string, map<string, set<string>>> {
    var amphoes := if p in h then h[p] else map[];
    var tambons := if a in amphoes then amphoes[a] else {};
    h[p := amphoes[a := tambons + {t}]]
  }

  /** Tambon `t` is recorded under province `p` and amphoe `a`. */
  ghost predicate InHierarchy(h: map<string, map<string, set<string>>>, p: string, a: string, t: string) {
    p in h && a in h[p] && t in h[p][a]
  }

  /** No province or amphoe is recorded with nothing under it. */
  ghost predicate NoEmptyLevel(h: map<string, map<string, set<string>>>) {
    && (forall p :: p in h ==> h[p] != map[])
    && (forall p, a :: p in h && a in h[p] ==> h[p][a] != {})
  }

  /** Tambon `t` is recorded under `p` and `a` exactly when some station lies
      there, and no level of the hierarchy is empty. */
  lemma {:induction false} HierarchySetsSpec(stations: seq<RowDict>)
    ensures forall p, a, t :: InHierarchy(HierarchySets(stations), p, a, t) <==> Located(stations, p, a, t)
    ensures NoEmptyLevel(HierarchySets(stations))
  {
    if stations != [] {
      var n := |stations| - 1;
      HierarchySetsSpec(stations[..n]);
      LocatedSnoc(stations);
      HierarchyStep(stations);
    }
  }

  /** The locations of one more station: the earlier ones and the new
      station's own, if its three fields are non-empty. */
  lemma LocatedSnoc(stations: seq<RowDict>)
    requires stations != []
    ensures forall p, a, t :: Located(stations, p, a, t) <==>
      Located(stations[..|stations| - 1], p, a, t) || LocatedAt(stations, |stations| - 1, p, a, t)
  {
    var n := |stations| - 1;
    var init := stations[..n];
    forall p, a, t ensures Located(stations, p, a, t) <==> Located(init, p, a, t) || LocatedAt(stations, n, p, a, t) {
      if Located(init, p, a, t) {
        var i :| LocatedAt(init, i, p, a, t);
        assert LocatedAt(stations, i, p, a, t);
      }
      if Located(stations, p, a, t) && !LocatedAt(stations, n, p, a, t) {
        var i :| LocatedAt(stations, i, p, a, t);
        assert LocatedAt(init, i, p, a, t);
      }
    }
  }

  /** One station adds exactly its own location, if it has one. */
  lemma HierarchyStep(stations: seq<RowDict>)
    requires stations != []
    requires NoEmptyLevel(HierarchySets(stations[..|stations| - 1]))
    ensures forall p, a, t :: InHierarchy(HierarchySets(stations), p, a, t) <==>
      InHierarchy(HierarchySets(stations[..|stations| - 1]), p, a, t) || LocatedAt(stations, |stations| - 1, p, a, t)
    ensures NoEmptyLevel(HierarchySets(stations))
  {
    var n := |stations| - 1;
    var h0 := HierarchySets(stations[..n]);
    var s := stations[n];
    var p0, a0, t0 := TextOf(Get(s, "province")), TextOf(Get(s, "amphoe")), TextOf(Get(s, "tambon"));
    if p0 != "" && a0 != "" && t0 != "" {
      AddTambonSpec(h0, p0, a0, t0);
      forall p, a, t ensures LocatedAt(stations, n, p, a, t) <==> (p == p0 && a == a0 && t == t0) {
      }
    } else {
      forall p, a, t ensures !LocatedAt(stations, n, p, a, t) {
      }
    }
  }

  /** Adding a tambon records exactly that one more location and leaves no
      level empty. */
  lemma AddTambonSpec(h: map<string, map<string, set<string>>>, p0: string, a0: string, t0: string)
    requires NoEmptyLevel(h)
    ensures forall p, a, t :: InHierarchy(AddTambon(h, p0, a0, t0), p, a, t) <==>
      InHierarchy(h, p, a, t) || (p == p0 && a == a0 && t == t0)
    ensures NoEmptyLevel(AddTambon(h, p0, a0, t0))
  {
    var h' := AddTambon(h, p0, a0, t0);
    forall p, a, t ensures InHierarchy(h', p, a, t) <==> InHierarchy(h, p, a, t) || (p == p0 && a == a0 && t == t0) {
    }
    forall p | p in h' ensures h'[p] != map[] {
      if p == p0 {
        assert a0 in h'[p];
      }
    }
    forall p, a | p in h' && a in h'[p] ensures h'[p][a] != {} {
      if p == p0 && a == a0 {
        assert t0 in h'[p][a];
      }
    }
  }

  /** The first loop of the hierarchy code: for every station whose three
      fields are non-empty, add its tambon under its province and amphoe. */
  method CollectTambons(stations: seq<RowDict>) returns (sets: map<string, map<string, set<string>>>)
    requires forall j :: 0 <= j < |stations| ==> IsStationRow(stations[j])
    ensures sets == HierarchySets(stations)
  {
    sets := map[];
    for i := 0 to |stations|
      invariant sets == HierarchySets(stations[..i])
    {
      assert stations[..i + 1][..i] == stations[..i];
      var station := stations[i];
      assert IsStationRow(station);
      var prov, amph, tamb := Get(station, "province"), Get(station, "amphoe"), Get(station, "tambon");
      assert stations[..i + 1][i] == station;
      if Truthy(prov) && Truthy(amph) && Truthy(tamb) {
        // a new province gets an empty dict, a new amphoe an empty set
        var amphoes := if prov.s in sets then sets[prov.s] else map[];
        var tambons := if amph.s in amphoes then amphoes[amph.s] else {};
        sets := sets[prov.s := amphoes[amph.s := tambons + {tamb.s}]];
      } else {
        assert TextOf(prov) == "" || TextOf(amph) == "" || TextOf(tamb) == "";
      }
    }
    assert stations[..|stations|] == stations;
  }

  /** The inner loop of the second pass: every amphoe's set of tambons
      replaced by its sorted list. */
  method SortTambons(amphoes: map<string, set<string>>) returns (sorted: map<string, seq<string>>)
    ensures sorted.Keys == amphoes.Keys
    ensures forall a :: a in sorted ==> Ascending(sorted[a], StrLess) && Elems(sorted[a]) == amphoes[a]
  {
    StrLessIsStrictTotalOrder();
    sorted := map[];
    var pending := amphoes.Keys;
    while pending != {}
      invariant pending <= amphoes.Keys
      invariant sorted.Keys == amphoes.Keys - pending
      invariant forall a :: a in sorted ==> Ascending(sorted[a], StrLess) && Elems(sorted[a]) == amphoes[a]
      decreases |pending|
    {
      var amph :| amph in pending;
      var tambons := SortSet(amphoes[amph], StrLess);
      sorted := sorted[amph := tambons];
      pending := pending - {amph};
    }
  }

  /** `inner` lists, per amphoe of `amphoes`, its tambons in ascending order. */
  ghost predicate SortedInner(inner: map<string, seq<string>>, amphoes: map<string, set<string>>) {
    && inner.Keys == amphoes.Keys
    && forall a :: a in inner ==> Ascending(inner[a], StrLess) && Elems(inner[a]) == amphoes[a]
  }

  /** Every province of `h` is a province of `sets`, its sets sorted. */
  ghost predicate SortedLike(h: map<string, map<string, seq<string>>>, sets: map<string, map<string, set<string>>>) {
    forall p :: p in h ==> p in sets && SortedInner(h[p], sets[p])
  }

  lemma SortedLikeStep(h: map<string, map<string, seq<string>>>, sets: map<string, map<string, set<string>>>,
                       prov: string, inner: map<string, seq<string>>)
    requires SortedLike(h, sets) && prov in sets
    requires inner.Keys == sets[prov].Keys
    requires forall a :: a in inner ==> Ascending(inner[a], StrLess) && Elems(inner[a]) == sets[prov][a]
    ensures SortedLike(h[prov := inner], sets)
  {
    assert SortedInner(inner, sets[prov]);
  }

  /** Sorting every level keeps what the sets record, and no list is empty
      when no set was. */
  lemma SortedHierarchy(h: map<string, map<string, seq<string>>>, sets: map<string, map<string, set<string>>>)
    requires h.Keys == sets.Keys && SortedLike(h, sets) && NoEmptyLevel(sets)
    ensures forall p, a, t :: (p in h && a in h[p] && t in h[p][a]) <==> InHierarchy(sets, p, a, t)
    ensures forall p, a :: p in h && a in h[p] ==> Ascending(h[p][a], StrLess)
    ensures forall p :: p in h ==> h[p] != map[]
    ensures forall p, a :: p in h && a in h[p] ==> h[p][a] != []
  {
    forall p, a, t ensures (p in h && a in h[p] && t in h[p][a]) <==> InHierarchy(sets, p, a, t) {
      if p in h && a in h[p] {
        assert t in h[p][a] <==> t in Elems(h[p][a]);
      }
    }
    forall p | p in h ensures h[p] != map[] {
      assert h[p].Keys == sets[p].Keys;
    }
    forall p, a | p in h && a in h[p] ensures h[p][a] != [] {
      var t :| t in sets[p][a];
      assert t in Elems(h[p][a]);
    }
  }

  /** The hierarchy of the `index` view: `province -> amphoe -> tambons`,
      holding exactly the locations of the stations whose three fields are
      all non-empty, each tambon list sorted, no level empty. */
  method BuildHierarchy(stations: seq<RowDict>) returns (h: map<string, map<string, seq<string>>>)
    requires forall j :: 0 <= j < |stations| ==> IsStationRow(stations[j])
    ensures forall p, a, t :: (p in h && a in h[p] && t in h[p][a]) <==> Located(stations, p, a, t)
    ensures forall p, a :: p in h && a in h[p] ==> Ascending(h[p][a], StrLess)
    ensures forall p :: p in h ==> h[p] != map[]
    ensures forall p, a :: p in h && a in h[p] ==> h[p][a] != []
  {
    var sets := CollectTambons(stations);
    h := SortHierarchy(sets);
    HierarchySetsSpec(stations);
    SortedHierarchy(h, sets);
  }

  /** The second pass: every province's amphoes get their tambon sets
      replaced by sorted lists. */
  method SortHierarchy(sets: map<string, map<string, set<string>>>) returns (h: map<string, map<string, seq<string>>>)
    ensures h.Keys == sets.Keys
    ensures SortedLike(h, sets)
  {
    h := map[];
    var provinces := sets.Keys;
    while provinces != {}
      invariant provinces <= sets.Keys
      invariant h.Keys == sets.Keys - provinces
      invariant SortedLike(h, sets)
      decreases |provinces|
    {
      var prov :| prov in provinces;
      var inner := SortTambons(sets[prov]);
      SortedLikeStep(h, sets, prov, inner);
      h := h[prov := inner];
      provinces := provinces - {prov};
    }
  }

  // ---------------------------------------------------------------------------
  // The index view

  datatype IndexView = IndexView(
    stations: seq<RowDict>,
    rivers: seq<string>,
    provinces: seq<string>,
    tambons: seq<string>,
    amphoes: seq<string>,
    hierarchy: map<string, map<string, seq<string>>>)

  /** `index`: load and clean the stations, then derive the four filter lists
      and the hierarchy from the cleaned rows. */
  method Index(fetched: seq<RowDict>) returns (view: IndexView)
    requires forall i :: 0 <= i < |fetched| ==> IsStationRow(fetched[i])
    ensures |view.stations| == |fetched|
    ensures forall i :: 0 <= i < |fetched| ==> view.stations[i] == StripAll(fetched[i])
    ensures forall i :: 0 <= i < |view.stations| ==> IsStationRow(view.stations[i])
    ensures view.rivers == UniqueValues(view.stations, "river")
    ensures view.provinces == UniqueValues(view.stations, "province")
    ensures view.tambons == UniqueValues(view.stations, "tambon")
    ensures view.amphoes == UniqueValues(view.stations, "amphoe")
    ensures forall p, a, t :: (p in view.hierarchy && a in view.hierarchy[p] && t in view.hierarchy[p][a])
                              <==> Located(view.stations, p, a, t)
    ensures forall p, a :: p in view.hierarchy && a in view.hierarchy[p] ==> Ascending(view.hierarchy[p][a], StrLess)
    ensures forall p :: p in view.hierarchy ==> view.hierarchy[p] != map[]
    ensures forall p, a :: p in view.hierarchy && a in view.hierarchy[p] ==> view.hierarchy[p][a] != []
  {
    var stations := LoadStations(fetched);
    forall i | 0 <= i < |stations| ensures IsStationRow(stations[i]) {
      StripKeepsStationRow(fetched[i]);
    }
    var hierarchy := BuildHierarchy(stations);
    view := IndexView(
      stations,
      UniqueValues(stations, "river"),
      UniqueValues(stations, "province"),
      UniqueValues(stations, "tambon"),
      UniqueValues(stations, "amphoe"),
      hierarchy);
  }
}
