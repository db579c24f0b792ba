/**
 * The Routes query object: it holds the parsed response of the `routes`
 * endpoint in `raw` and answers mode and route questions by scanning
 * `raw.mode`.
 */
module Routes {
  import opened Js
  import Request

  datatype Route = Route(route_id: string, route_name: string, route_hide: Option<string>)

  /** A transportation mode and its routes, in the order the API sends them. */
  datatype Mode = Mode(route_type: string, mode_name: string, route: seq<Route>)

  /** The parsed response of the `routes` endpoint. */
  datatype RouteList = RouteList(mode: seq<Mode>)

  // ---------------------------------------------------------------------
  // Specification functions
  // ---------------------------------------------------------------------

  /** The modes named exactly `name`, in their original order. */
  function ModesNamed(modes: seq<Mode>, name: string): seq<Mode> {
    if modes == [] then []
    else (if modes[0].mode_name == name then [modes[0]] else []) + ModesNamed(modes[1..], name)
  }

  /** The routes of `modes`, one mode after the other. */
  function RoutesOf(modes: seq<Mode>): seq<Route> {
    if modes == [] then [] else modes[0].route + RoutesOf(modes[1..])
  }

  /** The sum of the lengths of the modes' route lists. */
  function RouteCount(modes: seq<Mode>): nat {
    if modes == [] then 0 else |modes[0].route| + RouteCount(modes[1..])
  }

  /** The URL the constructor writes out by hand; it is the gateway's URL for
      the `routes` endpoint with no parameters. */
  function RoutesUrl(key: string): (r: string)
    ensures r == Request.RequestUrl(key, "routes", [])
  {
    assert Request.ParamList([]) == "" by {
      Request.ParamListShape([]);
    }
    ToLowerOfLowerCase("routes");
    Request.BaseUrl + "routes" + Request.KeyPrefix + key + Request.FormatSuffix
  }

  // ---------------------------------------------------------------------
  // The query object
  // ---------------------------------------------------------------------

  class Routes {
    /** The parsed response; None when the request did not answer 200. */
    var raw: Option<RouteList>

    /** `response` is what the HTTP request to RoutesUrl(key) gave. */
    constructor (response: Option<RouteList>)
      ensures raw == response
    {
      raw := response;
    }

    /** The name of every mode, in order. */
    method GetModeList() returns (r: Result<seq<string>>)
      ensures raw.None? <==> r == Err(TypeError)
      ensures raw.Some? ==> r.Ok? && |r.value| == |raw.value.mode|
      ensures raw.Some? ==>
        forall i :: 0 <= i < |raw.value.mode| ==> r.value[i] == raw.value.mode[i].mode_name
    {
      if raw.None? {
        return Err(TypeError);
      }
      var modes := raw.value.mode;
      var arr: seq<string> := [];
      for i := 0 to |modes|
        invariant |arr| == i
        invariant forall j :: 0 <= j < i ==> arr[j] == modes[j].mode_name
      {
        arr := arr + [modes[i].mode_name];
      }
      return Ok(arr);
    }

    /** The modes named exactly `name`; an empty sequence, never null, when none is. */
    method GetModes(name: string) returns (r: Result<seq<Mode>>)
      ensures raw.None? <==> r == Err(TypeError)
      ensures raw.Some? ==> r == Ok(ModesNamed(raw.value.mode, name))
    {
      if raw.None? {
        return Err(TypeError);
      }
      var modes := raw.value.mode;
      var arr: seq<Mode> := [];
      for i := 0 to |modes|
        invariant arr == ModesNamed(modes[..i], name)
      {
        ModesNamedAppend(modes[..i], [modes[i]], name);
        assert modes[..i + 1] == modes[..i] + [modes[i]];
        if modes[i].mode_name == name {
          arr := arr + [modes[i]];
        }
      }
      assert modes[..|modes|] == modes;
      return Ok(arr);
    }

    /** The routes of the modes named `name`, flattened in order. */
    method GetRoutes(name: string) returns (r: Result<seq<Route>>)
      ensures raw.None? <==> r == Err(TypeError)
      ensures raw.Some? ==> r == Ok(RoutesOf(ModesNamed(raw.value.mode, name)))
    {
      var got := GetModes(name);
      if got.Err? {
        return Err(got.error);
      }
      var modes := got.value;
      var arr: seq<Route> := [];
      for i := 0 to |modes|
        invariant arr == RoutesOf(modes[..i])
      {
        for j := 0 to |modes[i].route|
          invariant arr == RoutesOf(modes[..i]) + modes[i].route[..j]
        {
          assert modes[i].route[..j + 1] == modes[i].route[..j] + [modes[i].route[j]];
          arr := arr + [modes[i].route[j]];
        }
        assert modes[i].route[..|modes[i].route|] == modes[i].route;
        RoutesOfSnoc(modes, i);
      }
      assert modes[..|modes|] == modes;
      return Ok(arr);
    }
  }

  // ---------------------------------------------------------------------
  // Properties
  // ---------------------------------------------------------------------

  lemma {:induction false} ModesNamedAppend(p: seq<Mode>, q: seq<Mode>, name: string)
    ensures ModesNamed(p + q, name) == ModesNamed(p, name) + ModesNamed(q, name)
  {
    if p == [] {
      assert p + q == q;
    } else {
      var head := if p[0].mode_name == name then [p[0]] else [];
      assert (p + q)[0] == p[0];
      assert (p + q)[1..] == p[1..] + q;
      ModesNamedAppend(p[1..], q, name);
      assert ModesNamed(p + q, name) == head + (ModesNamed(p[1..], name) + ModesNamed(q, name));
      assert ModesNamed(p, name) == head + ModesNamed(p[1..], name);
    }
  }

  lemma {:induction false} RoutesOfAppend(p: seq<Mode>, q: seq<Mode>)
    ensures RoutesOf(p + q) == RoutesOf(p) + RoutesOf(q)
  {
    if p == [] {
      assert p + q == q;
    } else {
      assert (p + q)[1..] == p[1..] + q;
      RoutesOfAppend(p[1..], q);
    }
  }

  lemma RoutesOfSnoc(modes: seq<Mode>, i: nat)
    requires i < |modes|
    ensures RoutesOf(modes[..i + 1]) == RoutesOf(modes[..i]) + modes[i].route
  {
    RoutesOfAppend(modes[..i], [modes[i]]);
    assert modes[..i + 1] == modes[..i] + [modes[i]];
    assert RoutesOf([modes[i]]) == modes[i].route + RoutesOf([]);
  }

  /** getModes keeps exactly the modes named `name`: every mode it returns is
      so named, and each mode occurs in it as often as it does in `modes` if it
      is so named, and not at all otherwise. Name matching is exact. */
  lemma {:induction false} ModesNamedExactly(modes: seq<Mode>, name: string)
    ensures forall m :: m in ModesNamed(modes, name) ==> m.mode_name == name
    ensures forall m :: (multiset(ModesNamed(modes, name))[m] ==
                         if m.mode_name == name then multiset(modes)[m] else 0)
  {
    if modes != [] {
      ModesNamedExactly(modes[1..], name);
      assert modes == [modes[0]] + modes[1..];
    }
  }

  /** A name that no mode carries gives the empty sequence, not null. */
  lemma {:induction false} ModesNamedUnknown(modes: seq<Mode>, name: string)
    requires forall i :: 0 <= i < |modes| ==> modes[i].mode_name != name
    ensures ModesNamed(modes, name) == []
    ensures RoutesOf(ModesNamed(modes, name)) == []
  {
    if modes != [] {
      ModesNamedUnknown(modes[1..], name);
    }
  }

  /** getRoutes returns as many routes as its modes hold in all. */
  lemma {:induction false} RoutesOfLength(modes: seq<Mode>)
    ensures |RoutesOf(modes)| == RouteCount(modes)
  {
    if modes != [] {
      RoutesOfLength(modes[1..]);
    }
  }

  /** Every route getRoutes returns belongs to a mode named `name`, and every
      route of such a mode is returned. */
  lemma {:induction false} RoutesOfMembers(modes: seq<Mode>, name: string, rt: Route)
    ensures rt in RoutesOf(ModesNamed(modes, name)) <==>
      exists i :: 0 <= i < |modes| && modes[i].mode_name == name && rt in modes[i].route
  {
    if modes != [] {
      RoutesOfMembers(modes[1..], name, rt);
      ModesNamedAppend([modes[0]], modes[1..], name);
      assert [modes[0]] + modes[1..] == modes;
      RoutesOfAppend(ModesNamed([modes[0]], name), ModesNamed(modes[1..], name));
      assert ModesNamed([modes[0]], name) == (if modes[0].mode_name == name then [modes[0]] else []) + ModesNamed([], name);
      assert RoutesOf([modes[0]]) == modes[0].route + RoutesOf([]);
      if exists i :: 0 <= i < |modes| && modes[i].mode_name == name && rt in modes[i].route {
        var i :| 0 <= i < |modes| && modes[i].mode_name == name && rt in modes[i].route;
        if i > 0 { assert modes[1..][i - 1] == modes[i]; }
      }
      if exists i :: 0 <= i < |modes[1..]| && modes[1..][i].mode_name == name && rt in modes[1..][i].route {
        var i :| 0 <= i < |modes[1..]| && modes[1..][i].mode_name == name && rt in modes[1..][i].route;
        assert modes[i + 1] == modes[1..][i];
      }
    }
  }
}
