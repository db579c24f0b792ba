/**
 * The RoutesByStop query object: the constructor checks the runtime type of
 * the stop id, requests the `routesbystop` endpoint and keeps the parsed
 * response in `raw`; the getters project fields of `raw`. Also the
 * `capitalize` string helper defined beside it.
 */
module RoutesByStop {
  import opened Js
  import Request
  import Routes

  /** The parsed response of the `routesbystop` endpoint. */
  datatype StopRoutes = StopRoutes(stop_id: string, stop_name: string, modes: seq<Routes.Mode>)

  const InvalidStop: string := "Invalid GTFS-compatible stop_id value"

  // ---------------------------------------------------------------------
  // The argument dispatch and the request URL
  // ---------------------------------------------------------------------

  /** What the constructor sends as `stop`: a string as it is, a number as its
      decimal string; any other type throws before anything is sent. */
  function StopParam(stop: JsValue): (r: Result<string>)
    ensures stop.JsString? ==> r == Ok(stop.str)
    ensures stop.JsNumber? ==> r == Ok(IntToDecimal(stop.num)) && ParseDecimal(r.value) == Some(stop.num)
    ensures !stop.JsString? && !stop.JsNumber? ==> r == Err(Thrown(InvalidStop))
  {
    match stop
    case JsString(s) => Ok(s)
    case JsNumber(n) =>
      IntToDecimalRoundTrip(n);
      Ok(IntToDecimal(n))
    case _ => Err(Thrown(InvalidStop))
  }

  /** The URL the private `request(stop)` writes out by hand; it is the
      gateway's URL for `routesbystop` with the single parameter `stop`. */
  function RoutesByStopUrl(key: string, stop: string): (r: string)
    ensures r == Request.RequestUrl(key, "routesbystop", [Request.Param("stop", Some(stop))])
  {
    ToLowerOfLowerCase("routesbystop");
    Request.RequestUrlOneParam(key, "routesbystop", "stop", stop);
    StopFragment(Request.BaseUrl + "routesbystop" + Request.KeyPrefix + key, stop, Request.FormatSuffix);
    Request.BaseUrl + "routesbystop" + Request.KeyPrefix + key + "&stop=" + stop + Request.FormatSuffix
  }

  lemma StopFragment(pre: string, stop: string, post: string)
    ensures pre + Request.Fragment("stop", stop) + post == pre + "&stop=" + stop + post
  {
    assert Request.Fragment("stop", stop) == "&stop=" + stop;
  }

  /** The stop sits exactly between the key and `&format=json`. */
  lemma RoutesByStopUrlCarriesStop(key: string, stop: string)
    ensures var url := RoutesByStopUrl(key, stop);
      var pre := Request.BaseUrl + "routesbystop" + Request.KeyPrefix + key + "&stop=";
      && url[..|pre|] == pre
      && url[|pre|..|url| - |Request.FormatSuffix|] == stop
      && url[|url| - |Request.FormatSuffix|..] == Request.FormatSuffix
  {
    var pre := Request.BaseUrl + "routesbystop" + Request.KeyPrefix + key + "&stop=";
    assert RoutesByStopUrl(key, stop) == pre + stop + Request.FormatSuffix;
    SliceThree(pre, stop, Request.FormatSuffix);
  }

  lemma SliceThree(a: string, b: string, c: string)
    ensures var u := a + b + c;
      && u[..|a|] == a
      && u[|a|..|u| - |c|] == b
      && u[|u| - |c|..] == c
  {
  }

  // ---------------------------------------------------------------------
  // The query object
  // ---------------------------------------------------------------------

  class RoutesByStop {
    /** The parsed response; None when the request did not answer 200. */
    var raw: Option<StopRoutes>

    constructor (response: Option<StopRoutes>)
      ensures raw == response
    {
      raw := response;
    }

    function GetStopId(): (r: Result<string>)
      reads this
      ensures r.Ok? <==> raw.Some?
      ensures r.Ok? ==> r.value == raw.value.stop_id
      ensures r.Err? ==> r.error == TypeError
    {
      if raw.Some? then Ok(raw.value.stop_id) else Err(TypeError)
    }

    function GetStopName(): (r: Result<string>)
      reads this
      ensures r.Ok? <==> raw.Some?
      ensures r.Ok? ==> r.value == raw.value.stop_name
      ensures r.Err? ==> r.error == TypeError
    {
      if raw.Some? then Ok(raw.value.stop_name) else Err(TypeError)
    }

    function GetModes(): (r: Result<seq<Routes.Mode>>)
      reads this
      ensures r.Ok? <==> raw.Some?
      ensures r.Ok? ==> r.value == raw.value.modes
      ensures r.Err? ==> r.error == TypeError
    {
      if raw.Some? then Ok(raw.value.modes) else Err(TypeError)
    }
  }

  /** `new RoutesByStop(stop)`. `respond` stands for the API: what the blocking
      request to a URL answers (None for a status other than 200). `sent` lists
      the URLs requested: one on success, none when the type check throws. */
  method NewRoutesByStop(key: string, stop: JsValue, respond: string -> Option<StopRoutes>)
    returns (r: Result<RoutesByStop>, sent: seq<string>)
    ensures StopParam(stop).Err? ==> r == Err(Thrown(InvalidStop)) && sent == []
    ensures StopParam(stop).Ok? ==>
      var url := RoutesByStopUrl(key, StopParam(stop).value);
      && sent == [url]
      && r.Ok? && fresh(r.value)
      && r.value.raw == respond(url)
  {
    match stop {
      case JsString(s) =>
        var url := RoutesByStopUrl(key, s);
        var obj := new RoutesByStop(respond(url));
        r, sent := Ok(obj), [url];
      case JsNumber(n) =>
        var url := RoutesByStopUrl(key, IntToDecimal(n));
        var obj := new RoutesByStop(respond(url));
        r, sent := Ok(obj), [url];
      case _ =>
        r, sent := Err(Thrown(InvalidStop)), [];
    }
  }

  // ---------------------------------------------------------------------
  // String.prototype.capitalize: s.replace(/(^|\s)([a-z])/g, (m, p1, p2) => p1 + p2.toUpperCase())
  // ---------------------------------------------------------------------

  /** Length of the match of /(^|\s)([a-z])/ tried at position `p`, 0 for none.
      The `^` alternative is tried first; it only matches at position 0. */
  function MatchAt(s: string, p: nat): (m: nat)
    requires p < |s|
    ensures m <= 2 && p + m <= |s|
  {
    if p == 0 && IsAsciiLower(s[0]) then 1
    else if IsJsWhitespace(s[p]) && p + 1 < |s| && IsAsciiLower(s[p + 1]) then 2
    else 0
  }

  /** The global replace, resumed at position `p`: each match is replaced by
      its first group and its upper-cased second group, unmatched characters
      are copied, and the scan resumes after the match. */
  function ReplaceFrom(s: string, p: nat): (r: string)
    requires p <= |s|
    ensures |r| == |s| - p
    decreases |s| - p
  {
    if p == |s| then ""
    else
      var m := MatchAt(s, p);
      if m == 1 then [UpperChar(s[p])] + ReplaceFrom(s, p + 1)
      else if m == 2 then [s[p], UpperChar(s[p + 1])] + ReplaceFrom(s, p + 2)
      else [s[p]] + ReplaceFrom(s, p + 1)
  }

  /** capitalize keeps the length and upper-cases exactly the ASCII lower-case
      letters that start the string or follow whitespace; every other
      character is unchanged. */
  function Capitalize(s: string): (r: string)
    ensures |r| == |s|
    ensures forall i :: 0 <= i < |s| ==> r[i] == CapitalizedAt(s, i)
  {
    ReplaceFromPointwise(s, 0);
    ReplaceFrom(s, 0)
  }

  /** Character `i` begins a word: it is first, or follows whitespace. */
  predicate StartsWord(s: string, i: nat)
    requires i < |s|
  {
    i == 0 || IsJsWhitespace(s[i - 1])
  }

  /** What capitalize is meant to leave at position `i`. */
  function CapitalizedAt(s: string, i: nat): char
    requires i < |s|
  {
    if IsAsciiLower(s[i]) && StartsWord(s, i) then UpperChar(s[i]) else s[i]
  }

  lemma {:induction false} ReplaceFromPointwise(s: string, p: nat)
    requires p <= |s|
    requires 0 < p < |s| ==> !(IsJsWhitespace(s[p - 1]) && IsAsciiLower(s[p]))
    ensures forall k :: 0 <= k < |s| - p ==> ReplaceFrom(s, p)[k] == CapitalizedAt(s, p + k)
    decreases |s| - p
  {
    if p < |s| {
      var m := MatchAt(s, p);
      var r := ReplaceFrom(s, p);
      if m == 1 {
        ReplaceFromPointwise(s, p + 1);
        assert r == [UpperChar(s[p])] + ReplaceFrom(s, p + 1);
      } else if m == 2 {
        ReplaceFromPointwise(s, p + 2);
        assert r == [s[p], UpperChar(s[p + 1])] + ReplaceFrom(s, p + 2);
        assert CapitalizedAt(s, p) == s[p];
        assert CapitalizedAt(s, p + 1) == UpperChar(s[p + 1]);
      } else {
        ReplaceFromPointwise(s, p + 1);
        assert r == [s[p]] + ReplaceFrom(s, p + 1);
        assert CapitalizedAt(s, p) == s[p];
      }
    }
  }

  /** Capitalizing twice is capitalizing once. */
  lemma CapitalizeIdempotent(s: string)
    ensures Capitalize(Capitalize(s)) == Capitalize(s)
  {
    var c := Capitalize(s);
    assert forall i :: 0 <= i < |c| ==> Capitalize(c)[i] == c[i];
  }
}
