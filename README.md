# MBTA v2 realtime API client — a Dafny model of its deterministic core

The library is a thin JavaScript client for the MBTA v2 realtime HTTP API.
Around its blocking HTTP calls sit four pieces of deterministic logic, and
this project models them and proves what they promise:

- **Request gateway** (`request.dfy`, module `Request`): `buildList` turns an
  ordered parameter map into `&key=value` fragments, skipping undefined
  values, and `request` wraps them into
  `http://realtime.mbta.com/developer/api/v2/<endpoint lower-cased>?api_key=<key><fragments>&format=json`.
  `BuildList` keeps the source's loop that pushes onto an array and joins it,
  and is proved equal to the specification `ParamList`. A parser
  `ParseList` is its inverse: the parameter list reads back out of the URL.
- **Stop lookup helpers** (`stop_helper.dfy`, module `StopHelper`): the
  first-match linear searches by id, name, parent station, parent name and
  coordinate pair, and the `distance` projections. Each is a method with the
  source's index loop and early return, proved equal to `Find`, the
  first-match specification. Two source defects are modelled as written and
  corrected (see "## Findings").
- **Routes** (`routes.dfy`, module `Routes`): the class holding the parsed
  `routes` response in `raw`, with `GetModeList`, `GetModes` and `GetRoutes`
  as loops over `raw.mode` proved against filter and flatten specifications.
- **RoutesByStop** (`routes_by_stop.dfy`, module `RoutesByStop`): the
  constructor's dispatch on the runtime type of `stop`, the request URL, the
  getters, and `capitalize`, modelled as the scan that the global regular
  expression replace performs. It is then proved to upper-case exactly the
  ASCII letters that start a word, and to be idempotent.

`js.dfy` (module `Js`) holds what the JavaScript runtime provides:
null/undefined as `Option`, thrown errors as `Result`, `typeof` as
`JsValue`, ASCII case mapping, the `\s` character class, `split(' ').join('')`
and the decimal form of an integer with its inverse.

Inputs the source reads from outside become parameters. The API key is the
parameter `key`. The parsed HTTP response is the parameter `response` of a
constructor (None when the status is not 200). For `NewRoutesByStop`, the
parameter `respond` maps a URL to the response the API gives it.

The model follows the source's own comparisons:
- identifiers are compared exactly (`===`) by `findStopById`,
  `findStopByParent` and `getDistanceById`, with no case folding;
- the name search strips only the space character `' '`, and only from the
  stored name. The query is lower-cased but keeps its spaces.

## Model

| member | source | states |
|---|---|---|
| Js.ToLower | src/stops/helper.js:19 | `toLowerCase` keeps the length and maps each character by ASCII lower-casing |
| Js.RemoveSpaces | src/stops/helper.js:19 | `split(' ').join('')` leaves no space, never lengthens, and keeps only characters of its input |
| Js.RemoveSpacesChar | src/stops/helper.js:19 | on one character, a space is dropped and any other character kept |
| Js.RemoveSpacesAppend | src/stops/helper.js:19 | removing spaces works piece by piece, so every non-space character is kept in order |
| Js.RemoveSpacesLength | src/stops/helper.js:19 | the result is shorter than the input by exactly the number of spaces in it |
| Js.IntToDecimal | src/routes/RoutesByStop.js:33 | `stop += ''` on an integer of magnitude at most 2^53 gives its canonical decimal: a `-` exactly when the number is negative, then a non-empty run of digits with no leading zero (only 0 gives "0") |
| Js.IntToDecimalRoundTrip | src/routes/RoutesByStop.js:32-33 | the string `stop += ''` gives an integer reads back as that integer |
| Js.IntToDecimalInjective | src/routes/RoutesByStop.js:32-33 | two numbers give the same stop string exactly when they are equal |
| Request.BuildList | src/util/request.js:38-46 | the push-and-join loop returns `ParamList(params)`: the fragments of the defined parameters, concatenated in order |
| Request.DefinedAppend | src/util/request.js:40-44 | iteration order is kept: the defined pairs of `p + q` are those of `p` followed by those of `q` |
| Request.DefinedMembers | src/util/request.js:41-42 | a (key, value) pair is emitted exactly when the map holds that key with that defined value |
| Request.UndefinedKeyOmitted | src/util/request.js:41 | a key whose value is undefined never appears among the emitted pairs |
| Request.ParamListSingle | src/util/request.js:41-42 | one parameter gives `&key=value` when defined and nothing otherwise |
| Request.ParamListAppend | src/util/request.js:40-45 | buildList of a concatenated map is the concatenation of the two outputs, so fragments follow parameter order |
| Request.JoinShape | src/util/request.js:45 | the joined fragments are empty exactly when there are none, start with `&` otherwise, and their length is the sum of the fragment lengths |
| Request.ParamListShape | src/util/request.js:39-45 | buildList is empty exactly when every value is undefined, else starts with `&`; its length is the sum over the defined pairs of 2 plus the key and value lengths |
| Request.ParseJoinRoundTrip | src/util/request.js:42-45 | parsing the joined fragments gives back the pairs, when keys hold no `&`/`=` and values no `&` |
| Request.ParamListRoundTrip | src/util/request.js:38-46 | parsing buildList's output gives back exactly the defined (key, value) pairs in order |
| Request.RequestUrl | src/util/request.js:25 | the URL starts with the API base, ends with `&format=json`, and is as long as its endpoint, key, prefixes and parameter list together |
| Request.RequestUrlParts | src/util/request.js:25 | the URL is the base, the lower-cased endpoint, `?api_key=` and the key, then buildList's output, then a final `&format=json` |
| Request.RequestUrlDecodes | src/util/request.js:25 | the parameters read back out of the URL's middle part |
| Request.RequestUrlCaseInsensitive | src/util/request.js:25 | two endpoints give the same URL if and only if they are equal after lower-casing |
| Request.ScheduleParams | src/schedule/ScheduleByStop.js:29-36 | the schedule query's parameter object has six keys, no two alike |
| Request.ScheduleParamOrder | src/schedule/ScheduleByStop.js:29-36 | the schedule query emits its defined parameters in the order stop, route, direction, datetime, max_time, max_trips |
| StopHelper.FirstIndex | src/stops/helper.js:10-15 | the first index whose record matches, or the length when none matches; no earlier record matches |
| StopHelper.FindIsFirstMatch | src/stops/helper.js:10-43 | a non-null search result is an element of `stops` that matches with no earlier match; null exactly when nothing matches |
| StopHelper.FindPrefix | src/stops/helper.js:10-43 | records after the first match do not change the result |
| StopHelper.FindStopById | src/stops/helper.js:10-15 | the loop returns the first record whose `stop_id` equals `id`, or null |
| StopHelper.FindStopByName | src/stops/helper.js:17-22 | corrected: the first record whose space-stripped, lower-cased name equals the lower-cased argument, or null |
| StopHelper.FindStopByNameAsWritten | src/stops/helper.js:17-22 | as written: with no global `name`, null for an empty list and a ReferenceError otherwise; with one, the search by that global, whatever `id` is |
| StopHelper.FindStopByParent | src/stops/helper.js:24-29 | the first record whose `parent_station` equals the argument, or null |
| StopHelper.FindStopByParentName | src/stops/helper.js:31-36 | the first record whose lower-cased `parent_station_name` equals the lower-cased argument, or null |
| StopHelper.FindStopByCoords | src/stops/helper.js:38-43 | the first record whose `stop_lat` and `stop_lon` both equal the arguments, or null |
| StopHelper.GetDistanceById | src/stops/helper.js:45-50 | the `distance` of `findStopById`'s result, null when that is null |
| StopHelper.GetDistanceByName | src/stops/helper.js:52-57 | the `distance` of the first record whose name equals `name` exactly, null when none does |
| StopHelper.TruthyOrNull | src/stops/helper.js:60 | the or-null fallback on a distance is null exactly when the distance is absent or empty, and the distance otherwise |
| StopHelper.GetDistanceByCoordsAsWritten | src/stops/helper.js:59-61 | as written: a TypeError when no record has the coordinates, else the found distance with a falsy one turned into null |
| StopHelper.GetDistanceByCoords | src/stops/helper.js:59-61 | corrected: null when no record has the coordinates, else the found distance with a falsy one turned into null |
| StopHelper.FoldedNameCaseInsensitive | src/stops/helper.js:19 | queries equal after lower-casing find the same record by name |
| StopHelper.ParentNameCaseInsensitive | src/stops/helper.js:33 | queries equal after lower-casing find the same record by parent name |
| StopHelper.FoldedNameQueryWithSpaceMisses | src/stops/helper.js:19 | a query containing a space never finds anything by name, because only the stored name loses its spaces |
| StopHelper.ExactAndFoldedAgree | src/stops/helper.js:17-57 | on names already lower-case and space-free, the exact name match of getDistanceByName and the folded one of findStopByName agree |
| StopHelper.FindStopByNameDefect | src/stops/helper.js:17-19 | a list holding "Alewife" searched for "alewife": the as-written search throws ReferenceError, the corrected one returns the record |
| StopHelper.GetDistanceByCoordsDefect | src/stops/helper.js:59-61 | coordinates no record has: the as-written helper throws TypeError, the corrected one returns null |
| Routes.Routes.constructor | src/routes/Routes.js:27-29 | `raw` holds the response of the request |
| Routes.Routes.GetModeList | src/routes/Routes.js:35-40 | as many names as modes, the i-th being `raw.mode[i].mode_name`; a TypeError when `raw` is undefined |
| Routes.Routes.GetModes | src/routes/Routes.js:48-54 | exactly `ModesNamed(raw.mode, name)`, a sequence and never null; a TypeError when `raw` is undefined |
| Routes.Routes.GetRoutes | src/routes/Routes.js:62-69 | the nested loops return the routes of `getModes(name)` flattened in order; a TypeError when `raw` is undefined |
| Routes.ModesNamedAppend | src/routes/Routes.js:50-52 | filtering keeps order: the modes selected from `p + q` are those from `p` followed by those from `q` |
| Routes.ModesNamedExactly | src/routes/Routes.js:48-53 | every selected mode has exactly the name; each mode occurs as often as in `raw.mode` when so named and not at all otherwise (case-sensitive) |
| Routes.ModesNamedUnknown | src/routes/Routes.js:48-69 | a name no mode carries gives an empty mode list and an empty route list |
| Routes.RoutesOfAppend | src/routes/Routes.js:65-67 | flattening distributes over concatenation of mode lists |
| Routes.RoutesOfLength | src/routes/Routes.js:62-68 | the flattened routes number the sum of the modes' route-array lengths |
| Routes.RoutesOfMembers | src/routes/Routes.js:62-68 | a route is returned exactly when it belongs to some mode with that name |
| Routes.RoutesUrl | src/routes/Routes.js:77 | the constructor's hand-written URL equals the gateway's URL for `routes` with no parameters |
| RoutesByStop.StopParam | src/routes/RoutesByStop.js:28-37 | a string is sent unchanged, a number as exactly `IntToDecimal` of it (the canonical decimal, which reads back as the number), anything else throws the invalid-stop message |
| RoutesByStop.NewRoutesByStop | src/routes/RoutesByStop.js:27-39 | a string or number stop issues exactly one request, to the routesbystop URL, and `raw` holds its response; any other type throws and issues none |
| RoutesByStop.RoutesByStop.constructor | src/routes/RoutesByStop.js:30-33 | `raw` holds the response of the request |
| RoutesByStop.RoutesByStopUrl | src/routes/RoutesByStop.js:64 | the hand-written URL equals the gateway's URL for `routesbystop` with the single parameter `stop` |
| RoutesByStop.RoutesByStopUrlCarriesStop | src/routes/RoutesByStop.js:64 | the stop sits exactly between `&stop=` after the key and the final `&format=json` |
| RoutesByStop.RoutesByStop.GetStopId | src/routes/RoutesByStop.js:45 | `raw.stop_id`, and a TypeError when `raw` is undefined |
| RoutesByStop.RoutesByStop.GetStopName | src/routes/RoutesByStop.js:51 | `raw.stop_name`, and a TypeError when `raw` is undefined |
| RoutesByStop.RoutesByStop.GetModes | src/routes/RoutesByStop.js:57 | `raw.modes`, and a TypeError when `raw` is undefined |
| RoutesByStop.MatchAt | src/routes/RoutesByStop.js:75 | a match of the regex (start or whitespace, then a letter `a-z`) at a position covers at most that character and the next, inside the string |
| RoutesByStop.ReplaceFrom | src/routes/RoutesByStop.js:75-77 | the global replace emits exactly one character for each input character from the resumption point on |
| RoutesByStop.ReplaceFromPointwise | src/routes/RoutesByStop.js:74-78 | the regex replace, resumed at any point that is not in the middle of a match, gives the capitalized character at each later position |
| RoutesByStop.Capitalize | src/routes/RoutesByStop.js:74-78 | capitalize keeps the length and changes character i only if it is in `a-z` and starts the string or follows whitespace, and then upper-cases it |
| RoutesByStop.CapitalizeIdempotent | src/routes/RoutesByStop.js:74-78 | capitalizing twice is capitalizing once |

## Left out

- HTTP transport and JSON parsing (`req.open`/`send`, status checks, `JSON.parse`; src/util/request.js:25-29, src/routes/Routes.js:75-81, src/routes/RoutesByStop.js:63-68): I/O on a shared request object. The parsed response is a parameter, None for a non-200 status.
- API key loading (`require('../key.json')`): external configuration. The key is the parameter `key`.
- src/stops/StopsByLocation.js and src/schedule/ScheduleByStop.js: each forwards a fixed parameter map to `request` and stores the result, and StopsByLocation also has the projection `getStopList` (src/stops/StopsByLocation.js:43, `this.raw.stop`). Both classes and `getStopList` are left out; only the schedule key order is modelled, as `Request.ScheduleParams`.
- src/stops/StopsByRoute.js holds only imports; src/index.js only re-exports; gulpfile.js builds documentation. None of them is part of this model.
- `refresh` exists only in src/schedule/ScheduleByStop.js:48-57 and src/stops/StopsByLocation.js:36-38, both left out above; `Routes` and `RoutesByStop` have none. `checkHide`, `getRouteById` and `modeByRouteId` do not exist in the source.
- Floating point: coordinates and distances are the strings the API sends, compared exactly.
- Parameter values are strings or `undefined`. A number given as a value is turned into its decimal text by the template literal, and a `null` is sent as the text "null"; the model takes such values as the strings they become.
- StopHelper.FindStopById: `id` and `stop_id` are both strings, so a numeric `id` such as 70061 is not modelled. Under `===` it would never match a string `stop_id`, even though `RoutesByStop` accepts numeric stop ids.
- Js.IntToDecimal: `JsNumber` stands for integers with magnitude at most 2^53. Above that a JavaScript number is a double, and `n + ''` prints its shortest round-trip digits padded with zeros (2^60 gives "1152921504606847000"), which IntToDecimal does not reproduce; `JsNumber` also admits integers such as 2^53 + 1 that no JavaScript number holds.
- JavaScript numbers: `JsNumber` carries integers only. Fractions, NaN, the infinities and exponent notation in `n + ''` are not modelled.
- Object key order: `params` is an ordered sequence of pairs. JavaScript's rule that integer-like keys enumerate first is not modelled. Neither is the fact that an object cannot hold a key twice.
- `for…in` also visits inherited enumerable properties of an array. The model visits indices in order only.
- Unicode case mapping: `toLowerCase`/`toUpperCase` map ASCII letters only. The model's `\s` is the ECMAScript WhiteSpace and LineTerminator set, listed explicitly.
- StopHelper.GetDistanceById, StopHelper.GetDistanceByName: `getDistanceById` and `getDistanceByName` give `undefined` for a found record without a `distance` (src/stops/helper.js:47,54) and `null` on a miss (src/stops/helper.js:49,56). The model gives None for both, so it does not tell these two apart.
- Stop records have every string field present; the API sends "" for a missing parent station. A record lacking `stop_name` or `parent_station_name`, on which the source would throw a TypeError, is not modelled.
- `String.prototype.capitalize` patches the built-in string type. The model defines `Capitalize` as a plain function.

## Findings

| source | as written | input that shows it | evidently intended | confidence | as-written member | corrected member |
|---|---|---|---|---|---|---|
| src/stops/helper.js:17-19 | `findStopByName(stops, id)` compares against `name`, which is not declared, so the argument is ignored and Node.js throws a ReferenceError | `stops` = [Alewife, 70061], `id` = "alewife", no global `name`: throws instead of returning Alewife | compare against `id.toLowerCase()` | high; not executed | StopHelper.FindStopByNameAsWritten | StopHelper.FindStopByName |
| src/stops/helper.js:60 | `getDistanceByCoords` reads `.distance` off `findStopByCoords`'s result without a null check | a list with no record at ("0", "0"): throws a TypeError | null, as `getDistanceById` and `getDistanceByName` give on a miss | high; not executed | StopHelper.GetDistanceByCoordsAsWritten | StopHelper.GetDistanceByCoords |

`StopHelper.FindStopByNameDefect` and `StopHelper.GetDistanceByCoordsDefect` call each as-written member and its corrected member on the input of its row; their ensures state both results.
