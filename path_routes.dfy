/** Rerouting by configuration (src/pathRoutes.js): each route whose pattern matches the current
    pathname may append a path suffix, remove query parameters and add missing ones; the ids of
    routes that changed something are appended as `_rIds` so their messages can be shown. */
module PathRoutes {
  import opened Wrappers
  import Text
  import opened Query

  /** The part of a location the router reads and rewrites. */
  datatype Location = Location(pathname: string, search: string)

  /** One route of the configuration. Absent strings are "" and absent lists are empty; the
      parameters to add keep the insertion order of their object. */
  datatype Route = Route(
    id: string,
    message: string,
    matchPattern: string,
    addSuffix: string,
    removeParams: seq<string>,
    addParams: seq<(string, ParamValue)>)

  /** The location being rewritten and the route ids recorded so far. */
  datatype RouteState = RouteState(pathname: string, search: string, ids: seq<string>)

  /** `if (changed && id && message && routeIds.indexOf(id) < 0) routeIds.push(id)`. */
  function Record(ids: seq<string>, route: Route, changed: bool): (r: seq<string>)
    ensures r == ids || (r == ids + [route.id] && changed && route.id != "" && route.message != "" && route.id !in ids)
  {
    if changed && route.id != "" && route.message != "" && route.id !in ids then ids + [route.id] else ids
  }

  /** The removal loop over `names`: the search after removing each name that is present at its
      turn, and whether any was. */
  function RemoveListed(search: string, names: seq<string>): (r: (string, bool))
    ensures |r.0| <= |search|
    ensures !r.1 ==> r.0 == search
    ensures r.1 <==> exists k :: 0 <= k < |names| && ContainsParam(search, names[k])
  {
    if names == [] then (search, false)
    else
      var (s, removed) := RemoveListed(search, names[..|names| - 1]);
      var name := names[|names| - 1];
      if ContainsParam(s, name) then (RemoveParam(s, name), true) else (s, removed)
  }

  /** The addition loop over `params`: the search after adding each parameter absent at its
      turn, and whether any was. Parameters are only ever appended. */
  function AddListed(search: string, params: seq<(string, ParamValue)>): (r: (string, bool))
    ensures search <= r.0
    ensures !r.1 ==> r.0 == search
    ensures r.1 <==> exists k :: 0 <= k < |params| && !ContainsParam(search, params[k].0)
  {
    if params == [] then (search, false)
    else
      var (s, added) := AddListed(search, params[..|params| - 1]);
      var (name, value) := params[|params| - 1];
      if !ContainsParam(s, name) then (AddParam(s, name, value), true) else (s, added)
  }

  /** One route applied to the state: nothing unless its pattern matches the current pathname;
      then the suffix, the removals and the additions, each recording the id when it changed
      something. */
  function ApplyRoute(st: RouteState, route: Route, matches: (string, string) -> bool): RouteState {
    if !matches(st.pathname, route.matchPattern) then st
    else
      var st1 := if route.addSuffix != "" then
        RouteState(AddPathSuffix(st.pathname, route.addSuffix), st.search, Record(st.ids, route, true))
      else st;
      var removal := RemoveListed(st1.search, route.removeParams);
      var st2 := RouteState(st1.pathname, removal.0, Record(st1.ids, route, removal.1));
      var addition := AddListed(st2.search, route.addParams);
      RouteState(st2.pathname, addition.0, Record(st2.ids, route, addition.1))
  }

  /** The routes applied in configuration order, each seeing the state the earlier ones left. */
  function ApplyRoutes(st: RouteState, routes: seq<Route>, matches: (string, string) -> bool): RouteState {
    if routes == [] then st
    else ApplyRoute(ApplyRoutes(st, routes[..|routes| - 1], matches), routes[|routes| - 1], matches)
  }

  /** The final location: the state after all routes, with `_rIds` appended when ids were
      recorded. */
  function Finish(st: RouteState): (r: Location)
    ensures r.pathname == st.pathname
    ensures st.ids == [] ==> r.search == st.search
    ensures st.ids != [] ==> r.search == AddParam(st.search, "_rIds", List(st.ids))
  {
    Location(st.pathname, if |st.ids| > 0 then AddParam(st.search, "_rIds", List(st.ids)) else st.search)
  }

  /** The removal loop of processPathRoutes for one route. */
  method RemoveParams(search0: string, names: seq<string>) returns (search: string, removed: bool)
    ensures (search, removed) == RemoveListed(search0, names)
  {
    search, removed := search0, false;
    for k := 0 to |names|
      invariant (search, removed) == RemoveListed(search0, names[..k])
    {
      assert names[..k + 1][..k] == names[..k];
      var remParam := names[k];
      if ContainsParam(search, remParam) {
        search := RemoveParam(search, remParam);
        removed := true;
      }
    }
    assert names[..|names|] == names;
  }

  /** The addition loop of processPathRoutes for one route. */
  method AddParams(search0: string, params: seq<(string, ParamValue)>) returns (search: string, added: bool)
    ensures (search, added) == AddListed(search0, params)
  {
    search, added := search0, false;
    for j := 0 to |params|
      invariant (search, added) == AddListed(search0, params[..j])
    {
      assert params[..j + 1][..j] == params[..j];
      var (param, value) := params[j];
      if !ContainsParam(search, param) {
        search := AddParam(search, param, value);
        added := true;
      }
    }
    assert params[..|params|] == params;
  }

  /** The body of the route loop of processPathRoutes: one route applied to the pathname, the
      search and the recorded ids. */
  method ProcessRoute(pathname0: string, search0: string, ids0: seq<string>, route: Route,
                      matches: (string, string) -> bool)
    returns (pathname: string, search: string, routeIds: seq<string>)
    ensures RouteState(pathname, search, routeIds) == ApplyRoute(RouteState(pathname0, search0, ids0), route, matches)
  {
    pathname, search, routeIds := pathname0, search0, ids0;
    if matches(pathname, route.matchPattern) {
      if route.addSuffix != "" {
        pathname := AddPathSuffix(pathname, route.addSuffix);
        if route.id != "" && route.message != "" && route.id !in routeIds {
          routeIds := routeIds + [route.id];
        }
      }
      var removed;
      search, removed := RemoveParams(search, route.removeParams);
      if removed && route.id != "" && route.message != "" && route.id !in routeIds {
        routeIds := routeIds + [route.id];
      }
      var added;
      search, added := AddParams(search, route.addParams);
      if added && route.id != "" && route.message != "" && route.id !in routeIds {
        routeIds := routeIds + [route.id];
      }
    }
  }

  /** processPathRoutes. */
  method ProcessPathRoutes(location: Location, routeConfig: Option<seq<Route>>, matches: (string, string) -> bool)
    returns (r: Location)
    ensures routeConfig.None? ==> r == location
    ensures routeConfig.Some? ==>
      r == Finish(ApplyRoutes(RouteState(location.pathname, location.search, []), routeConfig.value, matches))
  {
    if routeConfig.None? {
      return location;
    }
    var routes := routeConfig.value;
    var pathname := location.pathname;
    var search := location.search;
    var routeIds: seq<string> := [];
    ghost var start := RouteState(location.pathname, location.search, []);
    for i := 0 to |routes|
      invariant RouteState(pathname, search, routeIds) == ApplyRoutes(start, routes[..i], matches)
    {
      assert routes[..i + 1][..i] == routes[..i];
      pathname, search, routeIds := ProcessRoute(pathname, search, routeIds, routes[i], matches);
    }
    assert routes[..|routes|] == routes;
    if |routeIds| > 0 {
      search := AddParam(search, "_rIds", List(routeIds));
    }
    return Location(pathname, search);
  }

  // ---------------------------------------------------------------------------------------
  // Route messages
  // ---------------------------------------------------------------------------------------

  /** The routes of an optional configuration: none when it is absent. */
  function RoutesOf(routeConfig: Option<seq<Route>>): seq<Route> {
    if routeConfig.Some? then routeConfig.value else []
  }

  /** `routes[k]` has a truthy id equal to `routeId`. */
  predicate HasId(routes: seq<Route>, routeId: string, k: int) {
    0 <= k < |routes| && routes[k].id != "" && routes[k].id == routeId
  }

  /** `routes[k]` is the first route whose id is `routeId`. */
  predicate FirstWithId(routes: seq<Route>, routeId: string, k: int) {
    HasId(routes, routeId, k) && forall j :: 0 <= j < k ==> !HasId(routes, routeId, j)
  }

  /** The message of the first route whose id is `routeId`, or null. A route without a
      message holds "" here, where the source returns undefined; both are falsy, and the only
      caller tests the message for truthiness. */
  function MessageById(routes: seq<Route>, routeId: string): (r: Option<string>)
    ensures r.None? <==> forall k :: 0 <= k < |routes| ==> !HasId(routes, routeId, k)
    ensures r.Some? ==> exists k :: FirstWithId(routes, routeId, k) && r.value == routes[k].message
  {
    if routes == [] then None
    else if routes[0].id != "" && routes[0].id == routeId then
      assert HasId(routes, routeId, 0);
      Some(routes[0].message)
    else
      var r := MessageById(routes[1..], routeId);
      assert !HasId(routes, routeId, 0);
      assert forall k :: 1 <= k < |routes| ==> (HasId(routes, routeId, k) <==> HasId(routes[1..], routeId, k - 1));
      if r.Some? then
        var k :| FirstWithId(routes[1..], routeId, k) && r.value == routes[1..][k].message;
        assert FirstWithId(routes, routeId, k + 1);
        r
      else r
  }

  /** getMessageById: the loop over the configuration returning at the first route whose id is
      `routeId`. */
  method GetMessageById(routeConfig: Option<seq<Route>>, routeId: string) returns (r: Option<string>)
    ensures r == MessageById(RoutesOf(routeConfig), routeId)
  {
    var routes := RoutesOf(routeConfig);
    for i := 0 to |routes|
      invariant MessageById(routes, routeId) == MessageById(routes[i..], routeId)
    {
      assert routes[i..][1..] == routes[i + 1..];
      if routes[i].id != "" && routes[i].id == routeId {
        return Some(routes[i].message);
      }
    }
    return None;
  }

  /** The messages for `ids`, in order, skipping ids without a (truthy) message. */
  function Messages(routes: seq<Route>, ids: seq<string>): (r: seq<string>)
    ensures |r| <= |ids|
    ensures forall k :: 0 <= k < |r| ==> r[k] != ""
  {
    if ids == [] then []
    else
      var msg := MessageById(routes, ids[|ids| - 1]);
      Messages(routes, ids[..|ids| - 1]) + (if msg.Some? && msg.value != "" then [msg.value] else [])
  }

  /** What getRouteMessages answers for a location: null without `_rIds`, else the messages of
      the comma-separated ids it lists. */
  function RouteMessages(location: Location, routes: seq<Route>): (r: Option<seq<string>>)
    ensures r.None? <==> !ContainsParam(location.search, "_rIds")
  {
    if ContainsParam(location.search, "_rIds") then
      Some(Messages(routes, Text.Split(GetParam(location.search, "_rIds").value, ',')))
    else None
  }

  /** getRouteMessages: looks every listed id up and keeps the truthy messages. */
  method GetRouteMessages(location: Location, routeConfig: Option<seq<Route>>) returns (r: Option<seq<string>>)
    ensures r == RouteMessages(location, RoutesOf(routeConfig))
  {
    if !ContainsParam(location.search, "_rIds") {
      return None;
    }
    var msgIds := Text.Split(GetParam(location.search, "_rIds").value, ',');
    var messages := LookUpMessages(routeConfig, msgIds);
    return Some(messages);
  }

  /** The loop of getRouteMessages over the listed ids. */
  method LookUpMessages(routeConfig: Option<seq<Route>>, msgIds: seq<string>) returns (messages: seq<string>)
    ensures messages == Messages(RoutesOf(routeConfig), msgIds)
  {
    messages := [];
    for j := 0 to |msgIds|
      invariant messages == Messages(RoutesOf(routeConfig), msgIds[..j])
    {
      assert msgIds[..j + 1][..j] == msgIds[..j];
      var msg := GetMessageById(routeConfig, msgIds[j]);
      if msg.Some? && msg.value != "" {
        messages := messages + [msg.value];
      }
    }
    assert msgIds[..|msgIds|] == msgIds;
  }

  // ---------------------------------------------------------------------------------------
  // Properties of the rerouting
  // ---------------------------------------------------------------------------------------

  /** Every recorded id belongs to a route that has both an id and a message. */
  predicate IdsFromRoutes(ids: seq<string>, routes: seq<Route>) {
    forall k :: 0 <= k < |ids| ==> exists r :: r in routes && r.id == ids[k] && r.id != "" && r.message != ""
  }

  /** No id is recorded twice. */
  predicate Distinct(ids: seq<string>) {
    forall a, b :: 0 <= a < b < |ids| ==> ids[a] != ids[b]
  }

  /** Applying routes records each id at most once, and only ids of routes that carry both an
      id and a message (`pool` holds the routes, `routes` the ones still to apply). */
  lemma {:induction false} RecordedIds(st: RouteState, routes: seq<Route>, pool: seq<Route>,
                                       matches: (string, string) -> bool)
    requires forall r :: r in routes ==> r in pool
    requires Distinct(st.ids) && IdsFromRoutes(st.ids, pool)
    ensures Distinct(ApplyRoutes(st, routes, matches).ids)
    ensures IdsFromRoutes(ApplyRoutes(st, routes, matches).ids, pool)
  {
    if routes != [] {
      var init := routes[..|routes| - 1];
      var last := routes[|routes| - 1];
      assert forall r :: r in init ==> r in routes;
      RecordedIds(st, init, pool, matches);
      assert last in pool;
      RouteKeepsIds(ApplyRoutes(st, init, matches), last, pool, matches);
    }
  }

  /** One route keeps the recorded ids distinct and drawn from the pool. */
  lemma RouteKeepsIds(st: RouteState, route: Route, pool: seq<Route>, matches: (string, string) -> bool)
    requires route in pool
    requires Distinct(st.ids) && IdsFromRoutes(st.ids, pool)
    ensures Distinct(ApplyRoute(st, route, matches).ids)
    ensures IdsFromRoutes(ApplyRoute(st, route, matches).ids, pool)
  {
    if matches(st.pathname, route.matchPattern) {
      var st1 := if route.addSuffix != "" then
        RouteState(AddPathSuffix(st.pathname, route.addSuffix), st.search, Record(st.ids, route, true))
      else st;
      RecordKeepsIds(st.ids, route, true, pool);
      var removal := RemoveListed(st1.search, route.removeParams);
      RecordKeepsIds(st1.ids, route, removal.1, pool);
      var ids2 := Record(st1.ids, route, removal.1);
      var addition := AddListed(removal.0, route.addParams);
      RecordKeepsIds(ids2, route, addition.1, pool);
    }
  }

  /** Recording one id keeps the ids distinct and drawn from the pool. */
  lemma RecordKeepsIds(ids: seq<string>, route: Route, changed: bool, pool: seq<Route>)
    requires route in pool
    requires Distinct(ids) && IdsFromRoutes(ids, pool)
    ensures Distinct(Record(ids, route, changed)) && IdsFromRoutes(Record(ids, route, changed), pool)
  {
    var r := Record(ids, route, changed);
    if r != ids {
      assert r[|ids|] == route.id;
      forall k | 0 <= k < |ids| ensures r[k] == ids[k] {}
    }
  }

  /** Starting from no ids, a whole configuration records distinct ids of its own routes. */
  lemma ConfigRecordedIds(location: Location, routes: seq<Route>, matches: (string, string) -> bool)
    ensures var st := ApplyRoutes(RouteState(location.pathname, location.search, []), routes, matches);
      Distinct(st.ids) && IdsFromRoutes(st.ids, routes)
  {
    RecordedIds(RouteState(location.pathname, location.search, []), routes, routes, matches);
  }

  /** A route whose pattern does not match leaves everything as it was. */
  lemma {:induction false} UnmatchedRoutes(st: RouteState, routes: seq<Route>, matches: (string, string) -> bool)
    requires forall r :: r in routes ==> !matches(st.pathname, r.matchPattern)
    ensures ApplyRoutes(st, routes, matches) == st
  {
    if routes != [] {
      var init := routes[..|routes| - 1];
      assert forall r :: r in init ==> r in routes;
      UnmatchedRoutes(st, init, matches);
    }
  }

  /** The pathname changes only through suffixes: without them it is never touched. */
  lemma {:induction false} PathOnlyBySuffix(st: RouteState, routes: seq<Route>, matches: (string, string) -> bool)
    requires forall r :: r in routes ==> r.addSuffix == ""
    ensures ApplyRoutes(st, routes, matches).pathname == st.pathname
  {
    if routes != [] {
      var init := routes[..|routes| - 1];
      assert forall r :: r in init ==> r in routes;
      PathOnlyBySuffix(st, init, matches);
    }
  }

  /** Without parameters to remove, the search only grows at its end: the original query stays
      a prefix of the rewritten one. */
  lemma {:induction false} SearchOnlyAppended(st: RouteState, routes: seq<Route>, matches: (string, string) -> bool)
    requires forall r :: r in routes ==> r.removeParams == []
    ensures st.search <= ApplyRoutes(st, routes, matches).search
  {
    if routes != [] {
      var init := routes[..|routes| - 1];
      assert forall r :: r in init ==> r in routes;
      SearchOnlyAppended(st, init, matches);
    }
  }

  /** Routes without an id or without a message never cause `_rIds` to be added. */
  lemma {:induction false} SilentRoutes(st: RouteState, routes: seq<Route>, matches: (string, string) -> bool)
    requires st.ids == []
    requires forall r :: r in routes ==> r.id == "" || r.message == ""
    ensures ApplyRoutes(st, routes, matches).ids == []
    ensures Finish(ApplyRoutes(st, routes, matches)).search == ApplyRoutes(st, routes, matches).search
  {
    if routes != [] {
      var init := routes[..|routes| - 1];
      assert forall r :: r in init ==> r in routes;
      SilentRoutes(st, init, matches);
    }
  }

  /** Ids that survive the trip through `_rIds`: non-empty, without commas or query
      separators. */
  predicate Listable(ids: seq<string>) {
    forall k :: 0 <= k < |ids| ==> ids[k] != "" && ',' !in ids[k] && SepFree(ids[k])
  }

  /** Joining listable ids with commas gives a non-empty value free of separators. */
  lemma {:induction false} ListedValue(ids: seq<string>)
    requires ids != [] && Listable(ids)
    ensures Text.Join(ids, ",") != [] && SepFree(Text.Join(ids, ","))
  {
    if |ids| > 1 {
      ListedValue(ids[1..]);
      var rest := Text.Join(ids[1..], ",");
      assert Text.Join(ids, ",") == ids[0] + "," + rest;
      assert forall i :: 0 <= i < |ids[0] + "," + rest| ==>
        (ids[0] + "," + rest)[i] == if i < |ids[0]| then ids[0][i] else if i == |ids[0]| then ',' else rest[i - |ids[0]| - 1];
    }
  }

  /** The `_rIds` parameter appended by processPathRoutes reads back, through
      getRouteMessages, as the messages of exactly the recorded ids, in recording order. */
  lemma RecordedMessages(st: RouteState, routes: seq<Route>)
    requires st.ids != [] && Listable(st.ids) && !ContainsParam(st.search, "_rIds")
    ensures RouteMessages(Finish(st), routes) == Some(Messages(routes, st.ids))
  {
    ListedValue(st.ids);
    GetAddedParam(st.search, "_rIds", List(st.ids));
    Text.SplitJoin(st.ids, ',');
  }

  /** When the configured ids are unique, every recorded id yields its route's message. */
  lemma {:induction false} AllRecordedMessages(routes: seq<Route>, ids: seq<string>)
    requires IdsFromRoutes(ids, routes)
    requires forall a, b :: 0 <= a < b < |routes| && routes[a].id != "" ==> routes[a].id != routes[b].id
    ensures |Messages(routes, ids)| == |ids|
  {
    if ids != [] {
      var init := ids[..|ids| - 1];
      var id := ids[|ids| - 1];
      assert IdsFromRoutes(init, routes) by {
        forall k | 0 <= k < |init|
          ensures exists r :: r in routes && r.id == init[k] && r.id != "" && r.message != ""
        {
          assert init[k] == ids[k];
        }
      }
      AllRecordedMessages(routes, init);
      var r :| r in routes && r.id == id && r.id != "" && r.message != "";
      var m :| 0 <= m < |routes| && routes[m] == r;
      var msg := MessageById(routes, id);
      assert HasId(routes, id, m);
      var k :| FirstWithId(routes, id, k) && msg.value == routes[k].message;
      assert k == m;
    }
  }

  /** A parameter to add whose value is null leaves the search as it is, yet counts as added:
      the route's id is recorded although the location did not change. */
  lemma NullParamRecords(st: RouteState, route: Route, matches: (string, string) -> bool, name: string)
    requires matches(st.pathname, route.matchPattern)
    requires route.addSuffix == "" && route.removeParams == [] && route.addParams == [(name, NullValue)]
    requires !ContainsParam(st.search, name)
    requires route.id != "" && route.message != "" && route.id !in st.ids
    ensures ApplyRoute(st, route, matches) == RouteState(st.pathname, st.search, st.ids + [route.id])
  {
    assert route.addParams[..0] == [];
    assert RemoveListed(st.search, route.removeParams) == (st.search, false);
    assert AddListed(st.search, route.addParams) == (st.search, true);
  }

  // ---------------------------------------------------------------------------------------
  // The removal and addition loops
  // ---------------------------------------------------------------------------------------

  /** The pairs of `ps` that survive removal of every name in `names`, in their order. */
  function KeptAll(ps: seq<string>, names: seq<string>): (r: seq<string>)
    ensures forall i :: 0 <= i < |r| ==> r[i] in ps
    ensures forall i, k :: 0 <= i < |r| && 0 <= k < |names| ==> !ParamStart(r[i], names[k])
  {
    if names == [] then ps
    else
      var before := KeptAll(ps, names[..|names| - 1]);
      var r := Kept(before, names[|names| - 1]);
      assert forall i :: 0 <= i < |r| ==> r[i] in before;
      r
  }

  /** Pairs drawn from well-formed pairs are well-formed. */
  lemma PairsOkWithin(ks: seq<string>, ps: seq<string>, name: string)
    requires PairsOk(ps, name) && forall i :: 0 <= i < |ks| ==> ks[i] in ps
    ensures PairsOk(ks, name)
  {
    forall i | 0 <= i < |ks|
      ensures ks[i] != [] && SepFree(ks[i]) && (ParamStart(ks[i], name) || !ContainsParam(ks[i], name))
    {
      var j :| 0 <= j < |ps| && ps[j] == ks[i];
    }
  }

  /** On the search string of well-formed pairs, the removal loop deletes exactly the pairs of
      the listed names, keeps the others in their order, and leaves no listed parameter
      behind. */
  lemma {:induction false} RemoveListedFromPairs(ps: seq<string>, names: seq<string>)
    requires forall k :: 0 <= k < |names| ==> SepFree(names[k]) && PairsOk(ps, names[k])
    ensures RemoveListed(QueryOf(ps), names).0 == QueryOf(KeptAll(ps, names))
    ensures forall k :: 0 <= k < |names| ==> !ContainsParam(RemoveListed(QueryOf(ps), names).0, names[k])
    decreases |names|
  {
    if names != [] {
      var init := names[..|names| - 1];
      var name := names[|names| - 1];
      RemoveListedFromPairs(ps, init);
      var ks := KeptAll(ps, init);
      PairsOkWithin(ks, ps, name);
      if ContainsParam(RemoveListed(QueryOf(ps), init).0, name) {
        RemoveFromPairs(ks, name);
      } else {
        RemoveAbsentFromPairs(ks, name);
      }
      var kept := KeptAll(ps, names);
      forall k | 0 <= k < |names| ensures !ContainsParam(QueryOf(kept), names[k]) {
        NoListedPair(kept, ps, names[k]);
        NoneInPairs(kept, names[k]);
      }
    }
  }

  /** A kept pair that does not begin with the name holds no match of it. */
  lemma NoListedPair(kept: seq<string>, ps: seq<string>, name: string)
    requires PairsOk(ps, name)
    requires forall i :: 0 <= i < |kept| ==> kept[i] in ps && !ParamStart(kept[i], name)
    ensures forall i :: 0 <= i < |kept| ==> kept[i] != [] && SepFree(kept[i]) && !ContainsParam(kept[i], name)
  {
    PairsOkWithin(kept, ps, name);
  }

  /** Parameters whose name and value hold no separator and whose value is non-empty: those
      `getParam` can read back once added. */
  predicate Readable(params: seq<(string, ParamValue)>) {
    forall k :: 0 <= k < |params| ==>
      SepFree(params[k].0) && !params[k].1.NullValue? && ValueText(params[k].1) != [] && SepFree(ValueText(params[k].1))
  }

  /** A parameter the search already holds keeps its value through the addition loop. */
  lemma {:induction false} AddListedKeeps(search: string, params: seq<(string, ParamValue)>, name: string)
    requires SepFree(name) && ContainsParam(search, name)
    ensures GetParam(AddListed(search, params).0, name) == GetParam(search, name)
    decreases |params|
  {
    if params != [] {
      var init := params[..|params| - 1];
      AddListedKeeps(search, init, name);
      var s := AddListed(search, init).0;
      var added := params[|params| - 1].0;
      var value := params[|params| - 1].1;
      AddKeepsParam(s, name, added, value);
    }
  }

  /** After the addition loop every listed name is present, whether it was already or was
      added. */
  lemma {:induction false} AddListedContains(search: string, params: seq<(string, ParamValue)>, k: nat)
    requires Readable(params) && k < |params|
    ensures ContainsParam(AddListed(search, params).0, params[k].0)
    decreases |params|
  {
    var init := params[..|params| - 1];
    var s := AddListed(search, init).0;
    var name := params[|params| - 1].0;
    var value := params[|params| - 1].1;
    var r := AddListed(search, params).0;
    assert r == if ContainsParam(s, name) then s else AddParam(s, name, value);
    if k == |params| - 1 {
      AddStepContains(s, name, value, r);
    } else {
      assert init[k] == params[k];
      AddListedContains(search, init, k);
      AddStepKeeps(s, name, value, params[k].0, r);
    }
  }

  /** One step of the addition loop leaves its own name present. */
  lemma AddStepContains(s: string, name: string, value: ParamValue, r: string)
    requires SepFree(name) && !value.NullValue? && ValueText(value) != [] && SepFree(ValueText(value))
    requires r == if ContainsParam(s, name) then s else AddParam(s, name, value)
    ensures ContainsParam(r, name)
  {
    if !ContainsParam(s, name) {
      GetAddedParam(s, name, value);
    }
  }

  /** One step of the addition loop keeps every name that is present. */
  lemma AddStepKeeps(s: string, name: string, value: ParamValue, present: string, r: string)
    requires ContainsParam(s, present) && !value.NullValue?
    requires r == if ContainsParam(s, name) then s else AddParam(s, name, value)
    ensures ContainsParam(r, present)
  {
    if !ContainsParam(s, name) {
      AddedForm(s, name, value);
      ContainsAppend(s, [AddSep(s)] + (name + "=" + ValueText(value)), present);
    }
  }

  /** A listed parameter absent at its turn is added, and `getParam` reads its value after the
      whole loop. */
  lemma {:induction false} AddListedValue(search: string, params: seq<(string, ParamValue)>, k: nat)
    requires Readable(params) && k < |params|
    requires !ContainsParam(AddListed(search, params[..k]).0, params[k].0)
    ensures GetParam(AddListed(search, params).0, params[k].0) == Some(ValueText(params[k].1))
    decreases |params|
  {
    var init := params[..|params| - 1];
    var s := AddListed(search, init).0;
    var name := params[|params| - 1].0;
    var value := params[|params| - 1].1;
    if k == |params| - 1 {
      assert init == params[..k];
      GetAddedParam(s, name, value);
    } else {
      assert init[..k] == params[..k];
      AddListedValue(search, init, k);
      AddKeepsParam(s, params[k].0, name, value);
    }
  }
}
