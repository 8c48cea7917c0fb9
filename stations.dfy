/**
 * Station selection (scripts/pick-stations.py): read the fixed-width NOAA
 * GHCN-Daily station list and inventory, keep US/CA stations (those with a
 * state) whose inventory lines started before `start_year` and are still
 * reported this year, and keep the stations that report at least one core
 * element.
 */
module Stations {
  import opened Wrappers
  import opened Order
  import opened Text
  import opened Config

  /** A `_station_details` value: (lat, lon, element_set, start_year, end_year, name). */
  datatype Details = Details(lat: string, lon: string, elements: set<string>, start: int, end: int, name: string)

  /** One `selected_stations` entry of the output document. */
  datatype Selected = Selected(
    lat: string, lon: string, station: string, elements: seq<string>, start: int, latest: int, name: string)

  /** The selected-stations document. */
  datatype Document = Document(selectedStations: map<string, Selected>, selectedElements: map<string, ElementSpec>)

  /** The `filter_stations` entry for a kept station. */
  function Select(station: string, d: Details): Selected
  {
    Selected(d.lat, d.lon, station, SortedStrings(d.elements * CoreTrackingElements.Keys), d.start, d.end, d.name)
  }

  /**
   * `filter_stations`: drop exactly the stations sharing no code with the
   * core table; for the others keep the sorted shared codes and copy the rest.
   */
  function FilterStations(details: map<string, Details>): (r: map<string, Selected>)
    ensures forall st :: st in r <==> st in details && details[st].elements * CoreTrackingElements.Keys != {}
    ensures forall st :: st in r ==>
      var d, s := details[st], r[st];
      && s.station == st
      && s.lat == d.lat && s.lon == d.lon && s.start == d.start && s.latest == d.end && s.name == d.name
    ensures forall st :: st in r ==>
      && Ascending(r[st].elements)
      && Lists(r[st].elements, details[st].elements * CoreTrackingElements.Keys)
      && (forall e :: e in r[st].elements ==> e in CoreTrackingElements)
  {
    map st | st in details && details[st].elements * CoreTrackingElements.Keys != {} :: Select(st, details[st])
  }

  // ---- ghcnd-stations.txt ----

  /** The fields lines 53-55 of pick-stations.py cut out of a station-list line. */
  datatype StationLine = StationLine(station: string, state: string, name: string)

  function ParseStationLine(line: string): StationLine
  {
    StationLine(Strip(Slice(line, 0, 11)), Strip(Slice(line, 38, 40)), Strip(Slice(line, 41, 71)))
  }

  function StationLines(lines: seq<string>): (r: seq<StationLine>)
    ensures |r| == |lines|
  {
    seq(|lines|, i requires 0 <= i < |lines| => ParseStationLine(lines[i]))
  }

  /** The `_station_name` map after reading the station-list lines `ls` in order. */
  function NameMap(ls: seq<StationLine>): map<string, string>
  {
    if ls == [] then map[]
    else
      var names, l := NameMap(ls[..|ls| - 1]), ls[|ls| - 1];
      if |l.state| > 0 then names[l.station := l.name] else names
  }

  /** The loop of lines 51-57 of pick-stations.py. */
  method BuildNameMap(lines: seq<string>) returns (names: map<string, string>)
    ensures names == NameMap(StationLines(lines))
  {
    names := map[];
    var i := 0;
    while i < |lines|
      invariant 0 <= i <= |lines|
      invariant names == NameMap(StationLines(lines)[..i])
    {
      var l := ParseStationLine(lines[i]);
      if |l.state| > 0 {
        names := names[l.station := l.name];
      }
      assert StationLines(lines)[..i + 1][..i] == StationLines(lines)[..i];
      i := i + 1;
    }
    assert StationLines(lines)[..i] == StationLines(lines);
  }

  /** Line `i` names station `st` together with a state. */
  ghost predicate NamesAt(ls: seq<StationLine>, i: int, st: string)
  {
    0 <= i < |ls| && |ls[i].state| > 0 && ls[i].station == st
  }

  lemma NamesAtPrefix(ls: seq<StationLine>, n: nat, st: string)
    requires n <= |ls|
    ensures forall i :: NamesAt(ls[..n], i, st) <==> i < n && NamesAt(ls, i, st)
  {
    forall i
      ensures NamesAt(ls[..n], i, st) <==> i < n && NamesAt(ls, i, st)
    {
      if 0 <= i < n {
        assert ls[..n][i] == ls[i];
      }
    }
  }

  /** A station is in the name map iff some line with a state names it. */
  lemma {:induction false} NameMapKeys(ls: seq<StationLine>, st: string)
    ensures st in NameMap(ls) <==> exists i :: NamesAt(ls, i, st)
    decreases |ls|
  {
    if ls != [] {
      var n := |ls| - 1;
      NameMapKeys(ls[..n], st);
      NamesAtPrefix(ls, n, st);
      if NamesAt(ls, n, st) {
        assert st in NameMap(ls);
      }
    }
  }

  /** A station's name is the one on the last line with a state naming it. */
  lemma {:induction false} NameMapValue(ls: seq<StationLine>, st: string)
    requires st in NameMap(ls)
    ensures exists i ::
      && NamesAt(ls, i, st) && NameMap(ls)[st] == ls[i].name
      && forall j :: i < j ==> !NamesAt(ls, j, st)
    decreases |ls|
  {
    var n := |ls| - 1;
    NamesAtPrefix(ls, n, st);
    if NamesAt(ls, n, st) {
      assert NameMap(ls)[st] == ls[n].name;
    } else {
      NameMapValue(ls[..n], st);
      var i :| NamesAt(ls[..n], i, st) && NameMap(ls[..n])[st] == ls[..n][i].name
        && forall j :: i < j ==> !NamesAt(ls[..n], j, st);
      assert ls[..n][i] == ls[i];
    }
  }

  // ---- ghcnd-inventory.txt ----

  /** The fields lines 64-69 of pick-stations.py cut out of an inventory line. */
  datatype InventoryLine = InventoryLine(station: string, lat: string, lon: string, element: string, start: int, end: int)

  /** Lines 64-69 of pick-stations.py; None where `int()` raises, which ends the run. */
  function ParseInventoryLine(line: string): (r: Option<InventoryLine>)
    ensures r.Some? <==> ParseInt(Strip(Slice(line, 36, 40))).Some? && ParseInt(Strip(Slice(line, 41, 45))).Some?
    ensures r.Some? ==> r.value.station == Strip(Slice(line, 0, 11)) && r.value.element == Slice(line, 31, 35)
  {
    var start, end := ParseInt(Strip(Slice(line, 36, 40))), ParseInt(Strip(Slice(line, 41, 45)));
    if start.None? || end.None? then None
    else Some(InventoryLine(
      Strip(Slice(line, 0, 11)), Strip(Slice(line, 12, 20)), Strip(Slice(line, 21, 30)),
      Slice(line, 31, 35), start.value, end.value))
  }

  function InventoryLines(lines: seq<string>): (r: seq<Option<InventoryLine>>)
    ensures |r| == |lines|
  {
    seq(|lines|, i requires 0 <= i < |lines| => ParseInventoryLine(lines[i]))
  }

  /** The test of line 72 of pick-stations.py. */
  predicate Qualifies(l: InventoryLine, names: map<string, string>, startYear: int, currentYear: int)
  {
    l.station in names && l.start < startYear && l.end == currentYear
  }

  /** `_station_details` after the qualifying line `l` (lines 73-77 of pick-stations.py). */
  function AddInventory(details: map<string, Details>, l: InventoryLine, name: string): map<string, Details>
  {
    var codes := if l.station in details then details[l.station].elements else {};
    details[l.station := Details(l.lat, l.lon, codes + {l.element}, l.start, l.end, name)]
  }

  /**
   * `_station_details` after reading the parsed inventory lines `ls` in
   * order; None if one of them did not parse.
   */
  function InventoryMap(ls: seq<Option<InventoryLine>>, names: map<string, string>, startYear: int, currentYear: int)
    : Option<map<string, Details>>
  {
    if ls == [] then Some(map[])
    else
      match InventoryMap(ls[..|ls| - 1], names, startYear, currentYear)
      case None => None
      case Some(details) =>
        match ls[|ls| - 1]
        case None => None
        case Some(l) =>
          if Qualifies(l, names, startYear, currentYear) then Some(AddInventory(details, l, names[l.station]))
          else Some(details)
  }

  /** The loop of lines 63-77 of pick-stations.py. */
  method BuildInventory(lines: seq<string>, names: map<string, string>, startYear: int, currentYear: int)
    returns (r: Option<map<string, Details>>)
    ensures r == InventoryMap(InventoryLines(lines), names, startYear, currentYear)
  {
    ghost var ls := InventoryLines(lines);
    var details: map<string, Details> := map[];
    var i := 0;
    while i < |lines|
      invariant 0 <= i <= |lines|
      invariant InventoryMap(ls[..i], names, startYear, currentYear) == Some(details)
    {
      var parsed := ParseInventoryLine(lines[i]);
      InventoryMapSnoc(ls, i, names, startYear, currentYear);
      if parsed.None? {
        r := None;
        NoneStaysNone(ls, i + 1, names, startYear, currentYear);
        return;
      }
      var l := parsed.value;
      if Qualifies(l, names, startYear, currentYear) {
        var name := names[l.station];
        var codes := if l.station in details then details[l.station].elements else {};
        details := details[l.station := Details(l.lat, l.lon, codes + {l.element}, l.start, l.end, name)];
      }
      i := i + 1;
    }
    assert ls[..i] == ls;
    r := Some(details);
  }

  lemma InventoryMapSnoc(ls: seq<Option<InventoryLine>>, i: nat, names: map<string, string>, startYear: int, currentYear: int)
    requires i < |ls|
    ensures InventoryMap(ls[..i + 1], names, startYear, currentYear) ==
      match InventoryMap(ls[..i], names, startYear, currentYear)
      case None => None
      case Some(details) =>
        match ls[i]
        case None => None
        case Some(l) =>
          if Qualifies(l, names, startYear, currentYear) then Some(AddInventory(details, l, names[l.station]))
          else Some(details)
  {
    assert ls[..i + 1][..i] == ls[..i];
  }

  /** A line that does not parse ends the run whatever follows it. */
  lemma {:induction false} NoneStaysNone(ls: seq<Option<InventoryLine>>, k: nat, names: map<string, string>, startYear: int, currentYear: int)
    requires k <= |ls|
    requires InventoryMap(ls[..k], names, startYear, currentYear).None?
    ensures InventoryMap(ls, names, startYear, currentYear).None?
    decreases |ls| - k
  {
    if k < |ls| {
      assert ls[..k + 1][..k] == ls[..k];
      NoneStaysNone(ls, k + 1, names, startYear, currentYear);
    } else {
      assert ls[..k] == ls;
    }
  }

  /** Line `i` parsed to a qualifying inventory line for station `st`. */
  ghost predicate QualifyingFor(ls: seq<Option<InventoryLine>>, i: int, names: map<string, string>, startYear: int, currentYear: int, st: string)
  {
    0 <= i < |ls| && ls[i].Some? && Qualifies(ls[i].value, names, startYear, currentYear) && ls[i].value.station == st
  }

  lemma QualifyingPrefix(ls: seq<Option<InventoryLine>>, n: nat, names: map<string, string>, startYear: int, currentYear: int, st: string)
    requires n <= |ls|
    ensures forall i ::
      QualifyingFor(ls[..n], i, names, startYear, currentYear, st) <==> i < n && QualifyingFor(ls, i, names, startYear, currentYear, st)
    ensures forall i :: 0 <= i < n ==> ls[..n][i] == ls[i]
  {
  }

  /** A station has details iff one of its lines qualifies. */
  lemma {:induction false} InventoryKeys(ls: seq<Option<InventoryLine>>, names: map<string, string>, startYear: int, currentYear: int, st: string)
    requires InventoryMap(ls, names, startYear, currentYear).Some?
    ensures st in InventoryMap(ls, names, startYear, currentYear).value
      <==> exists i :: QualifyingFor(ls, i, names, startYear, currentYear, st)
    decreases |ls|
  {
    if ls != [] {
      var n := |ls| - 1;
      InventoryKeys(ls[..n], names, startYear, currentYear, st);
      QualifyingPrefix(ls, n, names, startYear, currentYear, st);
      if QualifyingFor(ls, n, names, startYear, currentYear, st) {
        assert st in InventoryMap(ls, names, startYear, currentYear).value;
      }
    }
  }

  /** A station's element set is the union of the codes of its qualifying lines. */
  lemma {:induction false} InventoryElements(ls: seq<Option<InventoryLine>>, names: map<string, string>, startYear: int, currentYear: int, st: string, e: string)
    requires InventoryMap(ls, names, startYear, currentYear).Some?
    requires st in InventoryMap(ls, names, startYear, currentYear).value
    ensures e in InventoryMap(ls, names, startYear, currentYear).value[st].elements
      <==> exists i :: QualifyingFor(ls, i, names, startYear, currentYear, st) && ls[i].value.element == e
    decreases |ls|
  {
    var n := |ls| - 1;
    var before := InventoryMap(ls[..n], names, startYear, currentYear).value;
    QualifyingPrefix(ls, n, names, startYear, currentYear, st);
    InventoryKeys(ls[..n], names, startYear, currentYear, st);
    if st in before {
      InventoryElements(ls[..n], names, startYear, currentYear, st, e);
    }
  }

  /** A station's other fields come from the last of its qualifying lines. */
  lemma {:induction false} InventoryLatest(ls: seq<Option<InventoryLine>>, names: map<string, string>, startYear: int, currentYear: int, st: string)
    requires InventoryMap(ls, names, startYear, currentYear).Some?
    requires st in InventoryMap(ls, names, startYear, currentYear).value
    ensures exists i ::
      && QualifyingFor(ls, i, names, startYear, currentYear, st)
      && (forall j :: i < j ==> !QualifyingFor(ls, j, names, startYear, currentYear, st))
      && var d, l := InventoryMap(ls, names, startYear, currentYear).value[st], ls[i].value;
         d.lat == l.lat && d.lon == l.lon && d.start == l.start && d.end == l.end && d.name == names[st]
    decreases |ls|
  {
    var n := |ls| - 1;
    QualifyingPrefix(ls, n, names, startYear, currentYear, st);
    if !QualifyingFor(ls, n, names, startYear, currentYear, st) {
      InventoryLatest(ls[..n], names, startYear, currentYear, st);
    }
  }

  /**
   * Every selected station has a state-bearing name entry, started reporting
   * before `startYear` and still reports in `currentYear`.
   */
  lemma SelectedQualify(ls: seq<Option<InventoryLine>>, names: map<string, string>, startYear: int, currentYear: int, st: string)
    requires InventoryMap(ls, names, startYear, currentYear).Some?
    requires st in FilterStations(InventoryMap(ls, names, startYear, currentYear).value)
    ensures var s := FilterStations(InventoryMap(ls, names, startYear, currentYear).value)[st];
      st in names && s.name == names[st] && s.start < startYear && s.latest == currentYear
  {
    InventoryLatest(ls, names, startYear, currentYear, st);
  }

  /**
   * `pick_stations` without its file handling: the selected-stations
   * document, or None where an inventory year field is not an integer.
   */
  method PickStations(stationLines: seq<string>, inventoryLines: seq<string>, startYear: int, currentYear: int)
    returns (r: Option<Document>)
    ensures r.None? <==> InventoryMap(InventoryLines(inventoryLines), NameMap(StationLines(stationLines)), startYear, currentYear).None?
    ensures r.Some? ==>
      && r.value.selectedElements == CoreTrackingElements
      && r.value.selectedStations
         == FilterStations(InventoryMap(InventoryLines(inventoryLines), NameMap(StationLines(stationLines)), startYear, currentYear).value)
  {
    var names := BuildNameMap(stationLines);
    var details := BuildInventory(inventoryLines, names, startYear, currentYear);
    if details.None? {
      return None;
    }
    r := Some(Document(FilterStations(details.value), CoreTrackingElements));
  }
}
