/**
 * Stop lookup helpers: first-match linear searches over a sequence of stop
 * records. Each search is a method with the source's index loop and early
 * return, proved equal to `Find`, the first-match specification.
 */
module StopHelper {
  import opened Js

  /** A stop record as the API sends it. The API sends "" for a missing
      parent station; `distance` is present only in location queries. */
  datatype Stop = Stop(
    stop_id: string,
    stop_name: string,
    parent_station: string,
    parent_station_name: string,
    stop_lat: string,
    stop_lon: string,
    distance: Option<string>)

  /** The test each search applies to a record. */
  datatype Query =
    | ById(id: string)                      // stop_id === id
    | ByFoldedName(name: string)            // stop_name without spaces, lower-cased === name lower-cased
    | ByExactName(name: string)             // stop_name === name
    | ByParent(gtfs: string)                // parent_station === gtfs
    | ByParentName(name: string)            // parent_station_name and name both lower-cased
    | ByCoords(lat: string, lon: string)    // stop_lat === lat && stop_lon === lon

  predicate Matches(q: Query, s: Stop) {
    match q
    case ById(id) => s.stop_id == id
    case ByFoldedName(name) => ToLower(RemoveSpaces(s.stop_name)) == ToLower(name)
    case ByExactName(name) => s.stop_name == name
    case ByParent(gtfs) => s.parent_station == gtfs
    case ByParentName(name) => ToLower(s.parent_station_name) == ToLower(name)
    case ByCoords(lat, lon) => s.stop_lat == lat && s.stop_lon == lon
  }

  // ---------------------------------------------------------------------
  // First-match specification
  // ---------------------------------------------------------------------

  /** The index of the first record matching `q`, or |stops| when none does. */
  function FirstIndex(stops: seq<Stop>, q: Query): (k: nat)
    ensures k <= |stops|
    ensures forall j :: 0 <= j < k ==> !Matches(q, stops[j])
    ensures k < |stops| ==> Matches(q, stops[k])
  {
    if stops == [] then 0
    else if Matches(q, stops[0]) then 0
    else 1 + FirstIndex(stops[1..], q)
  }

  /** The first record matching `q`, or null. */
  function Find(stops: seq<Stop>, q: Query): Option<Stop> {
    var k := FirstIndex(stops, q);
    if k < |stops| then Some(stops[k]) else None
  }

  /** The `distance` of a search result; null when there is no result. */
  function DistanceOf(found: Option<Stop>): Option<string> {
    match found
    case None => None
    case Some(s) => s.distance
  }

  /** `x || null` on a distance: an absent or empty distance is null. */
  function TruthyOrNull(d: Option<string>): (r: Option<string>)
    ensures r.Some? <==> d.Some? && d.value != ""
    ensures r.Some? ==> r == d
  {
    if d.Some? && d.value != "" then d else None
  }

  /** A non-null result is an element of `stops` that matches, and no earlier
      element matches; a null result means no element matches. */
  lemma FindIsFirstMatch(stops: seq<Stop>, q: Query)
    ensures Find(stops, q).Some? ==>
      exists i :: 0 <= i < |stops| && stops[i] == Find(stops, q).value
        && Matches(q, stops[i]) && forall j :: 0 <= j < i ==> !Matches(q, stops[j])
    ensures Find(stops, q).None? <==> forall j :: 0 <= j < |stops| ==> !Matches(q, stops[j])
  {
    var k := FirstIndex(stops, q);
    if k < |stops| {
      assert stops[k] == Find(stops, q).value;
    }
  }

  /** Whatever comes after the first match does not change the result. */
  lemma {:induction false} FindPrefix(stops: seq<Stop>, more: seq<Stop>, q: Query)
    requires Find(stops, q).Some?
    ensures Find(stops + more, q) == Find(stops, q)
  {
    if !Matches(q, stops[0]) {
      assert (stops + more)[1..] == stops[1..] + more;
      FindPrefix(stops[1..], more, q);
    }
  }

  // ---------------------------------------------------------------------
  // The helpers
  // ---------------------------------------------------------------------

  method FindStopById(stops: seq<Stop>, id: string) returns (r: Option<Stop>)
    ensures r == Find(stops, ById(id))
  {
    for i := 0 to |stops|
      invariant forall j :: 0 <= j < i ==> !Matches(ById(id), stops[j])
    {
      if stops[i].stop_id == id {
        return Some(stops[i]);
      }
    }
    return None;
  }

  /** findStopByName with the comparison against its parameter `id`: the
      stored name loses its spaces and is lower-cased, the argument is only
      lower-cased. */
  method FindStopByName(stops: seq<Stop>, id: string) returns (r: Option<Stop>)
    ensures r == Find(stops, ByFoldedName(id))
  {
    for i := 0 to |stops|
      invariant forall j :: 0 <= j < i ==> !Matches(ByFoldedName(id), stops[j])
    {
      if ToLower(RemoveSpaces(stops[i].stop_name)) == ToLower(id) {
        return Some(stops[i]);
      }
    }
    return None;
  }

  /** findStopByName as written: the body compares against `name`, which is
      not declared in the function. `ambientName` is the global `name` binding
      the body then resolves to, if the host provides one. */
  method FindStopByNameAsWritten(stops: seq<Stop>, id: string, ambientName: Option<string>)
    returns (r: Result<Option<Stop>>)
    ensures ambientName.None? ==>
      r == (if stops == [] then Ok(None) else Err(ReferenceError("name")))
    ensures ambientName.Some? ==> r == Ok(Find(stops, ByFoldedName(ambientName.value)))
  {
    for i := 0 to |stops|
      invariant ambientName.None? ==> i == 0
      invariant ambientName.Some? ==>
        forall j :: 0 <= j < i ==> !Matches(ByFoldedName(ambientName.value), stops[j])
    {
      var stored := ToLower(RemoveSpaces(stops[i].stop_name));
      if ambientName.None? {
        return Err(ReferenceError("name"));
      }
      if stored == ToLower(ambientName.value) {
        return Ok(Some(stops[i]));
      }
    }
    return Ok(None);
  }

  method FindStopByParent(stops: seq<Stop>, gtfs: string) returns (r: Option<Stop>)
    ensures r == Find(stops, ByParent(gtfs))
  {
    for i := 0 to |stops|
      invariant forall j :: 0 <= j < i ==> !Matches(ByParent(gtfs), stops[j])
    {
      if stops[i].parent_station == gtfs {
        return Some(stops[i]);
      }
    }
    return None;
  }

  method FindStopByParentName(stops: seq<Stop>, name: string) returns (r: Option<Stop>)
    ensures r == Find(stops, ByParentName(name))
  {
    for i := 0 to |stops|
      invariant forall j :: 0 <= j < i ==> !Matches(ByParentName(name), stops[j])
    {
      if ToLower(stops[i].parent_station_name) == ToLower(name) {
        return Some(stops[i]);
      }
    }
    return None;
  }

  method FindStopByCoords(stops: seq<Stop>, lat: string, lon: string) returns (r: Option<Stop>)
    ensures r == Find(stops, ByCoords(lat, lon))
  {
    for i := 0 to |stops|
      invariant forall j :: 0 <= j < i ==> !Matches(ByCoords(lat, lon), stops[j])
    {
      if stops[i].stop_lat == lat && stops[i].stop_lon == lon {
        return Some(stops[i]);
      }
    }
    return None;
  }

  method GetDistanceById(stops: seq<Stop>, id: string) returns (r: Option<string>)
    ensures r == DistanceOf(Find(stops, ById(id)))
  {
    for i := 0 to |stops|
      invariant forall j :: 0 <= j < i ==> !Matches(ById(id), stops[j])
    {
      if stops[i].stop_id == id {
        return stops[i].distance;
      }
    }
    return None;
  }

  /** Unlike findStopByName, this compares the stored name exactly. */
  method GetDistanceByName(stops: seq<Stop>, name: string) returns (r: Option<string>)
    ensures r == DistanceOf(Find(stops, ByExactName(name)))
  {
    for i := 0 to |stops|
      invariant forall j :: 0 <= j < i ==> !Matches(ByExactName(name), stops[j])
    {
      if stops[i].stop_name == name {
        return stops[i].distance;
      }
    }
    return None;
  }

  /** getDistanceByCoords as written: it reads `.distance` off the search
      result without a null check, so a miss throws. */
  method GetDistanceByCoordsAsWritten(stops: seq<Stop>, lat: string, lon: string)
    returns (r: Result<Option<string>>)
    ensures Find(stops, ByCoords(lat, lon)).None? ==> r == Err(TypeError)
    ensures Find(stops, ByCoords(lat, lon)).Some? ==>
      r == Ok(TruthyOrNull(Find(stops, ByCoords(lat, lon)).value.distance))
  {
    var found := FindStopByCoords(stops, lat, lon);
    if found.None? {
      return Err(TypeError);
    }
    return Ok(TruthyOrNull(found.value.distance));
  }

  /** getDistanceByCoords with the missing null check: a miss gives null,
      as it does for the other getDistance helpers. */
  method GetDistanceByCoords(stops: seq<Stop>, lat: string, lon: string) returns (r: Option<string>)
    ensures r == TruthyOrNull(DistanceOf(Find(stops, ByCoords(lat, lon))))
  {
    var found := FindStopByCoords(stops, lat, lon);
    if found.None? {
      return None;
    }
    return TruthyOrNull(found.value.distance);
  }

  // ---------------------------------------------------------------------
  // Properties of the searches
  // ---------------------------------------------------------------------

  /** The name search folds case on both sides. */
  lemma FoldedNameCaseInsensitive(stops: seq<Stop>, n1: string, n2: string)
    requires ToLower(n1) == ToLower(n2)
    ensures Find(stops, ByFoldedName(n1)) == Find(stops, ByFoldedName(n2))
  {
    SameOnStopsSameFind(stops, ByFoldedName(n1), ByFoldedName(n2));
  }

  /** The parent-name search folds case on both sides. */
  lemma ParentNameCaseInsensitive(stops: seq<Stop>, n1: string, n2: string)
    requires ToLower(n1) == ToLower(n2)
    ensures Find(stops, ByParentName(n1)) == Find(stops, ByParentName(n2))
  {
    SameOnStopsSameFind(stops, ByParentName(n1), ByParentName(n2));
  }

  /** A query containing a space never matches by folded name: the stored name
      has lost its spaces, the query keeps them. */
  lemma FoldedNameQueryWithSpaceMisses(stops: seq<Stop>, name: string)
    requires ' ' in name
    ensures Find(stops, ByFoldedName(name)) == None
  {
    forall j | 0 <= j < |stops| ensures !Matches(ByFoldedName(name), stops[j]) {
      var i :| 0 <= i < |name| && name[i] == ' ';
      assert ToLower(name)[i] == ' ';
      assert ' ' in ToLower(name);
      NoSpaceAfterLower(RemoveSpaces(stops[j].stop_name));
    }
    FindIsFirstMatch(stops, ByFoldedName(name));
  }

  lemma NoSpaceAfterLower(s: string)
    requires ' ' !in s
    ensures ' ' !in ToLower(s)
  {
  }

  /** The exact-name and the folded-name search agree on a name already
      written without spaces in lower case. */
  lemma ExactAndFoldedAgree(stops: seq<Stop>, name: string)
    requires ' ' !in name && ToLower(name) == name
    requires forall j :: 0 <= j < |stops| ==>
      ' ' !in stops[j].stop_name && ToLower(stops[j].stop_name) == stops[j].stop_name
    ensures Find(stops, ByExactName(name)) == Find(stops, ByFoldedName(name))
  {
    forall j | 0 <= j < |stops|
      ensures Matches(ByExactName(name), stops[j]) == Matches(ByFoldedName(name), stops[j])
    {
      RemoveSpacesNoSpace(stops[j].stop_name);
    }
    SameOnStopsSameFind(stops, ByExactName(name), ByFoldedName(name));
  }

  /** Two tests that agree on every record find the same record. */
  lemma SameOnStopsSameFind(stops: seq<Stop>, q1: Query, q2: Query)
    requires forall j :: 0 <= j < |stops| ==> Matches(q1, stops[j]) == Matches(q2, stops[j])
    ensures Find(stops, q1) == Find(stops, q2)
  {
  }

  // ---------------------------------------------------------------------
  // The two defects, on a concrete record
  // ---------------------------------------------------------------------

  /** With no global `name` (as under Node.js), findStopByName as written
      throws on a list holding a record whose name folds to the argument,
      where the corrected search returns that record. */
  method FindStopByNameDefect() returns (asWritten: Result<Option<Stop>>, corrected: Option<Stop>)
    ensures asWritten == Err(ReferenceError("name"))
    ensures corrected.Some? && corrected.value.stop_name == "Alewife"
  {
    var alewife := Stop("70061", "Alewife", "place-alfcl", "Alewife", "42.39", "-71.14", None);
    AlewifeFolds();
    assert Matches(ByFoldedName("alewife"), alewife);
    assert FirstIndex([alewife], ByFoldedName("alewife")) == 0;
    asWritten := FindStopByNameAsWritten([alewife], "alewife", None);
    corrected := FindStopByName([alewife], "alewife");
  }

  lemma AlewifeFolds()
    ensures ToLower(RemoveSpaces("Alewife")) == ToLower("alewife")
  {
    RemoveSpacesNoSpace("Alewife");
    var t, u := ToLower("Alewife"), ToLower("alewife");
    assert |t| == |u| == 7;
    assert forall i :: 0 <= i < 7 ==> t[i] == u[i];
  }

  /** getDistanceByCoords as written throws when no record has the
      coordinates, where the corrected helper returns null. */
  method GetDistanceByCoordsDefect() returns (asWritten: Result<Option<string>>, corrected: Option<string>)
    ensures asWritten == Err(TypeError)
    ensures corrected == None
  {
    var alewife := Stop("70061", "Alewife", "place-alfcl", "Alewife", "42.39", "-71.14", Some("0.5"));
    asWritten := GetDistanceByCoordsAsWritten([alewife], "0", "0");
    corrected := GetDistanceByCoords([alewife], "0", "0");
  }
}
