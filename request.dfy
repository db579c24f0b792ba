/**
 * The request gateway: serialises an ordered parameter map into `&k=v`
 * fragments (buildList) and wraps them into the API URL. The HTTP send and
 * the JSON parse around it are not modelled; the API key is a parameter.
 */
module Request {
  import opened Js

  /** One own property of the `params` object, in iteration order. None is
      `undefined`, the only value buildList skips; a JavaScript `null` is
      not skipped and is sent as the text "null", that is Some("null"). */
  datatype Param = Param(key: string, value: Option<string>)

  const BaseUrl: string := "http://realtime.mbta.com/developer/api/v2/"
  const KeyPrefix: string := "?api_key="
  const FormatSuffix: string := "&format=json"

  // ---------------------------------------------------------------------
  // Specification of buildList
  // ---------------------------------------------------------------------

  /** The parameters whose value is defined, as (key, value) pairs, in order. */
  function Defined(params: seq<Param>): seq<(string, string)> {
    if params == [] then []
    else match params[0].value {
      case None => Defined(params[1..])
      case Some(v) => [(params[0].key, v)] + Defined(params[1..])
    }
  }

  /** The fragment pushed for one defined parameter. */
  function Fragment(key: string, value: string): string {
    "&" + key + "=" + value
  }

  function Fragments(pairs: seq<(string, string)>): (r: seq<string>)
    ensures |r| == |pairs|
    ensures forall i :: 0 <= i < |pairs| ==> r[i] == Fragment(pairs[i].0, pairs[i].1)
  {
    seq(|pairs|, i requires 0 <= i < |pairs| => Fragment(pairs[i].0, pairs[i].1))
  }

  /** `arr.join('')`. */
  function Join(parts: seq<string>): string {
    if parts == [] then "" else parts[0] + Join(parts[1..])
  }

  /** The fragments of the defined parameters, concatenated: what buildList returns. */
  function ParamList(params: seq<Param>): string {
    Join(Fragments(Defined(params)))
  }

  /** Total length of the fragments of `pairs`. */
  function FragmentLengths(pairs: seq<(string, string)>): nat {
    if pairs == [] then 0 else 2 + |pairs[0].0| + |pairs[0].1| + FragmentLengths(pairs[1..])
  }

  // ---------------------------------------------------------------------
  // buildList, as the source runs it
  // ---------------------------------------------------------------------

  /** Pushes one fragment per own key with a defined value, then joins them. */
  method BuildList(params: seq<Param>) returns (s: string)
    ensures s == ParamList(params)
  {
    var arr: seq<string> := [];
    for i := 0 to |params|
      invariant arr == Fragments(Defined(params[..i]))
    {
      DefinedAppend(params[..i], [params[i]]);
      assert params[..i + 1] == params[..i] + [params[i]];
      if params[i].value.Some? {
        arr := arr + [Fragment(params[i].key, params[i].value.value)];
      }
    }
    assert params[..|params|] == params;
    s := Join(arr);
  }

  // ---------------------------------------------------------------------
  // The URL of `request(query, params)`
  // ---------------------------------------------------------------------

  /** Everything before the parameter fragments. */
  function UrlPrefix(key: string, query: string): string {
    BaseUrl + ToLower(query) + KeyPrefix + key
  }

  /** The URL `request(query, params)` opens: it starts with the API base,
      ends with the JSON format selector, and holds the endpoint, the key and
      the serialised parameters in between. */
  function RequestUrl(key: string, query: string, params: seq<Param>): (r: string)
    ensures |r| == |BaseUrl| + |query| + |KeyPrefix| + |key| + |ParamList(params)| + |FormatSuffix|
    ensures r[..|BaseUrl|] == BaseUrl
    ensures r[|r| - |FormatSuffix|..] == FormatSuffix
  {
    UrlPrefix(key, query) + ParamList(params) + FormatSuffix
  }

  // ---------------------------------------------------------------------
  // A parser for the parameter list, the inverse of buildList
  // ---------------------------------------------------------------------

  /** Index of the first `c` at or after `from`, or |s| when there is none. */
  function IndexOf(s: string, c: char, from: nat): (k: nat)
    requires from <= |s|
    ensures from <= k <= |s|
    ensures forall j :: from <= j < k ==> s[j] != c
    ensures k < |s| ==> s[k] == c
    decreases |s| - from
  {
    if from == |s| then |s| else if s[from] == c then from else IndexOf(s, c, from + 1)
  }

  /** Splits `&k1=v1&k2=v2…` back into its pairs; None when it is not of that shape. */
  function ParseList(s: string): Option<seq<(string, string)>>
    decreases |s|
  {
    if s == [] then Some([])
    else if s[0] != '&' then None
    else
      var end := IndexOf(s, '&', 1);
      var field := s[1..end];
      var eq := IndexOf(field, '=', 0);
      if eq == |field| then None
      else match ParseList(s[end..]) {
        case None => None
        case Some(rest) => Some([(field[..eq], field[eq + 1..])] + rest)
      }
  }

  /** Keys without `&` or `=`, values without `&`: the pairs a URL can carry unambiguously. */
  predicate Separable(pairs: seq<(string, string)>) {
    forall i :: 0 <= i < |pairs| ==>
      '&' !in pairs[i].0 && '=' !in pairs[i].0 && '&' !in pairs[i].1
  }

  // ---------------------------------------------------------------------
  // Properties
  // ---------------------------------------------------------------------

  /** Iteration order is kept: the defined pairs of a concatenation are the
      concatenation of the defined pairs. */
  lemma {:induction false} DefinedAppend(p: seq<Param>, q: seq<Param>)
    ensures Defined(p + q) == Defined(p) + Defined(q)
  {
    if p == [] {
      assert p + q == q;
    } else {
      assert (p + q)[1..] == p[1..] + q;
      DefinedAppend(p[1..], q);
    }
  }

  /** A pair is emitted exactly when some parameter carries that key and
      that defined value; a key whose every entry is undefined never appears. */
  lemma {:induction false} DefinedMembers(params: seq<Param>, k: string, v: string)
    ensures (k, v) in Defined(params) <==> Param(k, Some(v)) in params
  {
    if params != [] {
      DefinedMembers(params[1..], k, v);
      assert params == [params[0]] + params[1..];
    }
  }

  lemma {:induction false} UndefinedKeyOmitted(params: seq<Param>, k: string)
    requires forall i :: 0 <= i < |params| && params[i].key == k ==> params[i].value == None
    ensures forall i :: 0 <= i < |Defined(params)| ==> Defined(params)[i].0 != k
  {
    if params != [] {
      UndefinedKeyOmitted(params[1..], k);
    }
  }

  lemma {:induction false} JoinAppend(a: seq<string>, b: seq<string>)
    ensures Join(a + b) == Join(a) + Join(b)
  {
    if a == [] {
      assert a + b == b;
    } else {
      assert (a + b)[1..] == a[1..] + b;
      JoinAppend(a[1..], b);
    }
  }

  lemma FragmentsAppend(a: seq<(string, string)>, b: seq<(string, string)>)
    ensures Fragments(a + b) == Fragments(a) + Fragments(b)
  {
  }

  /** buildList distributes over concatenation of parameter maps, so the
      fragments come out in the order of the parameters. */
  lemma ParamListAppend(p: seq<Param>, q: seq<Param>)
    ensures ParamList(p + q) == ParamList(p) + ParamList(q)
  {
    DefinedAppend(p, q);
    FragmentsAppend(Defined(p), Defined(q));
    JoinAppend(Fragments(Defined(p)), Fragments(Defined(q)));
  }

  /** The output for one parameter: its fragment when defined, nothing otherwise. */
  lemma ParamListSingle(key: string, value: Option<string>)
    ensures ParamList([Param(key, value)]) == OptFragment(key, value)
  {
    var ps := [Param(key, value)];
    assert ps[1..] == [];
    if value.Some? {
      assert Defined(ps) == [(key, value.value)];
      var fs := Fragments(Defined(ps));
      assert fs == [Fragment(key, value.value)] && fs[1..] == [];
      assert Join(fs) == fs[0] + Join(fs[1..]) == fs[0] + "";
    } else {
      assert Defined(ps) == [];
    }
  }

  /** The URL of an endpoint named in lower case, with one defined parameter. */
  lemma RequestUrlOneParam(key: string, query: string, k: string, v: string)
    requires ToLower(query) == query
    ensures RequestUrl(key, query, [Param(k, Some(v))]) ==
      BaseUrl + query + KeyPrefix + key + Fragment(k, v) + FormatSuffix
  {
    ParamListSingle(k, Some(v));
  }

  lemma {:induction false} JoinShape(pairs: seq<(string, string)>)
    ensures |Join(Fragments(pairs))| == FragmentLengths(pairs)
    ensures pairs == [] <==> Join(Fragments(pairs)) == ""
    ensures pairs != [] ==> Join(Fragments(pairs))[0] == '&'
  {
    if pairs != [] {
      assert Fragments(pairs) == [Fragment(pairs[0].0, pairs[0].1)] + Fragments(pairs[1..]);
      JoinShape(pairs[1..]);
    }
  }

  /** buildList gives the empty string exactly when no value is defined;
      otherwise its output starts with `&`, and its length is the sum of the
      fragment lengths. */
  lemma ParamListShape(params: seq<Param>)
    ensures ParamList(params) == "" <==> forall i :: 0 <= i < |params| ==> params[i].value == None
    ensures ParamList(params) != "" ==> ParamList(params)[0] == '&'
    ensures |ParamList(params)| == FragmentLengths(Defined(params))
  {
    JoinShape(Defined(params));
    if Defined(params) != [] {
      var (k, v) := Defined(params)[0];
      DefinedMembers(params, k, v);
    } else if exists i :: 0 <= i < |params| && params[i].value != None {
      var i :| 0 <= i < |params| && params[i].value != None;
      DefinedMembers(params, params[i].key, params[i].value.value);
      assert false;
    }
  }

  lemma IndexOfAt(s: string, c: char, from: nat, m: nat)
    requires from <= m <= |s|
    requires forall j :: from <= j < m ==> s[j] != c
    requires m == |s| || s[m] == c
    ensures IndexOf(s, c, from) == m
  {
  }

  /** Parsing what buildList emits gives back the defined pairs. */
  lemma {:induction false} ParseJoinRoundTrip(pairs: seq<(string, string)>)
    requires Separable(pairs)
    ensures ParseList(Join(Fragments(pairs))) == Some(pairs)
  {
    if pairs != [] {
      var (k, v) := pairs[0];
      var rest := Join(Fragments(pairs[1..]));
      var s := Join(Fragments(pairs));
      assert Fragments(pairs) == [Fragment(k, v)] + Fragments(pairs[1..]);
      assert s == "&" + k + "=" + v + rest;
      JoinShape(pairs[1..]);
      var end := 2 + |k| + |v|;
      assert forall j :: 1 <= j < end ==> s[j] != '&' by {
        forall j | 1 <= j < end ensures s[j] != '&' {
          if j <= |k| { assert s[j] == k[j - 1]; }
          else if j > |k| + 1 { assert s[j] == v[j - |k| - 2]; }
        }
      }
      IndexOfAt(s, '&', 1, end);
      var field := s[1..end];
      assert field == k + "=" + v;
      assert forall j :: 0 <= j < |k| ==> field[j] != '=' by {
        forall j | 0 <= j < |k| ensures field[j] != '=' { assert field[j] == k[j]; }
      }
      IndexOfAt(field, '=', 0, |k|);
      assert field[..|k|] == k && field[|k| + 1..] == v;
      assert s[end..] == rest;
      assert Separable(pairs[1..]) by {
        forall i | 0 <= i < |pairs[1..]|
          ensures '&' !in pairs[1..][i].0 && '=' !in pairs[1..][i].0 && '&' !in pairs[1..][i].1
        {
          assert pairs[1..][i] == pairs[i + 1];
        }
      }
      ParseJoinRoundTrip(pairs[1..]);
      assert pairs == [(k, v)] + pairs[1..];
    }
  }

  /** The parameter list of a URL can be read back: buildList loses nothing
      when keys and values carry no separators. */
  lemma ParamListRoundTrip(params: seq<Param>)
    requires Separable(Defined(params))
    ensures ParseList(ParamList(params)) == Some(Defined(params))
  {
    ParseJoinRoundTrip(Defined(params));
  }

  /** The URL is the prefix with the lower-cased endpoint and the key, then the
      parameter list, then `&format=json`; the parameter list sits exactly between. */
  lemma RequestUrlParts(key: string, query: string, params: seq<Param>)
    ensures var url := RequestUrl(key, query, params);
      && url[..|BaseUrl|] == BaseUrl
      && url[|BaseUrl|..|BaseUrl| + |query|] == ToLower(query)
      && url[|BaseUrl| + |query|..|BaseUrl| + |query| + |KeyPrefix| + |key|] == KeyPrefix + key
      && url[|UrlPrefix(key, query)|..|url| - |FormatSuffix|] == ParamList(params)
      && url[|url| - |FormatSuffix|..] == FormatSuffix
  {
    var pre := UrlPrefix(key, query);
    assert pre == BaseUrl + ToLower(query) + (KeyPrefix + key);
    SliceFive(BaseUrl, ToLower(query), KeyPrefix + key, ParamList(params), FormatSuffix);
  }

  /** The five parts of a concatenation slice back out of it. */
  lemma SliceFive(a: string, b: string, c: string, d: string, e: string)
    ensures var u := a + b + c + d + e;
      && u[..|a|] == a
      && u[|a|..|a| + |b|] == b
      && u[|a| + |b|..|a| + |b| + |c|] == c
      && u[|a + b + c|..|u| - |e|] == d
      && u[|u| - |e|..] == e
  {
    var u := a + b + c + d + e;
    assert u == a + (b + (c + (d + e)));
    assert u[|a|..] == b + (c + (d + e));
    assert u[|a| + |b|..] == c + (d + e);
    assert u[|a + b + c|..] == d + e;
  }

  /** Every parameter of the URL reads back from it. */
  lemma RequestUrlDecodes(key: string, query: string, params: seq<Param>)
    requires Separable(Defined(params))
    ensures var url := RequestUrl(key, query, params);
      ParseList(url[|UrlPrefix(key, query)|..|url| - |FormatSuffix|]) == Some(Defined(params))
  {
    RequestUrlParts(key, query, params);
    ParamListRoundTrip(params);
  }

  /** Endpoints that differ only in letter case give the same URL, and
      endpoints that lower-case differently give different URLs. */
  lemma RequestUrlCaseInsensitive(key: string, q1: string, q2: string, params: seq<Param>)
    ensures RequestUrl(key, q1, params) == RequestUrl(key, q2, params) <==> ToLower(q1) == ToLower(q2)
  {
    var tail := KeyPrefix + key + ParamList(params) + FormatSuffix;
    assert RequestUrl(key, q1, params) == BaseUrl + ToLower(q1) + tail;
    assert RequestUrl(key, q2, params) == BaseUrl + ToLower(q2) + tail;
    if RequestUrl(key, q1, params) == RequestUrl(key, q2, params) {
      CancelAround(BaseUrl, ToLower(q1), ToLower(q2), tail);
    }
  }

  /** Strings that agree around a middle part agree on the middle part. */
  lemma CancelAround(a: string, x: string, y: string, t: string)
    requires a + x + t == a + y + t
    ensures x == y
  {
    assert |x| == |y|;
    assert x == (a + x + t)[|a|..|a| + |x|];
    assert y == (a + y + t)[|a|..|a| + |y|];
  }

  // ---------------------------------------------------------------------
  // Callers with fixed parameter maps
  // ---------------------------------------------------------------------

  /** The parameter map ScheduleByStop passes, in its key order: an object
      literal, so six distinct keys. */
  function ScheduleParams(stop: Option<string>, route: Option<string>, direction: Option<string>,
                          datetime: Option<string>, maxTime: Option<string>, maxTrips: Option<string>): (r: seq<Param>)
    ensures |r| == 6
    ensures forall i, j :: 0 <= i < j < |r| ==> r[i].key != r[j].key
  {
    [Param("stop", stop), Param("route", route), Param("direction", direction),
     Param("datetime", datetime), Param("max_time", maxTime), Param("max_trips", maxTrips)]
  }

  function OptFragment(key: string, value: Option<string>): string {
    if value.Some? then Fragment(key, value.value) else ""
  }

  /** The defined schedule parameters come out in the fixed order stop, route,
      direction, datetime, max_time, max_trips; the undefined ones are skipped. */
  lemma ScheduleParamOrder(stop: Option<string>, route: Option<string>, direction: Option<string>,
                           datetime: Option<string>, maxTime: Option<string>, maxTrips: Option<string>)
    ensures ParamList(ScheduleParams(stop, route, direction, datetime, maxTime, maxTrips)) ==
      OptFragment("stop", stop) + OptFragment("route", route) + OptFragment("direction", direction)
      + OptFragment("datetime", datetime) + OptFragment("max_time", maxTime) + OptFragment("max_trips", maxTrips)
  {
    var ps := ScheduleParams(stop, route, direction, datetime, maxTime, maxTrips);
    assert ps == [ps[0]] + [ps[1]] + [ps[2]] + [ps[3]] + [ps[4]] + [ps[5]];
    ParamListAppend([ps[0]] + [ps[1]] + [ps[2]] + [ps[3]] + [ps[4]], [ps[5]]);
    ParamListAppend([ps[0]] + [ps[1]] + [ps[2]] + [ps[3]], [ps[4]]);
    ParamListAppend([ps[0]] + [ps[1]] + [ps[2]], [ps[3]]);
    ParamListAppend([ps[0]] + [ps[1]], [ps[2]]);
    ParamListAppend([ps[0]], [ps[1]]);
    ParamListSingle("stop", stop);
    ParamListSingle("route", route);
    ParamListSingle("direction", direction);
    ParamListSingle("datetime", datetime);
    ParamListSingle("max_time", maxTime);
    ParamListSingle("max_trips", maxTrips);
  }
}
