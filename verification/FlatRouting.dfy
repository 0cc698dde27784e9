/** A router tree seen as one flat list of routes with full paths, and the proof that nested
    dispatch is a first-match scan of that list. */
module FlatRouting {
  import opened Text
  import opened Message
  import opened Sessions
  import opened Routes

  // ----- full paths

  /** Where a router is mounted: the slash-trimmed mount paths joined; whether the innermost
      one was written without its '/' ("bare"), so that it also answers for itself; the mount
      paths as written; and the methods every mount on the way lets through. */
  datatype Place = Place(prefix: string, bare: bool, bases: seq<string>, verbs: set<HttpMethod>)

  const ROOT := Place([], false, [],
    {Get, Post, Put, Delete, HeadMethod, Connect, Options, Trace, Patch})

  predicate ValidPath(path: Option<string>) {
    path.Some? ==> path.value != [] && path.value[0] == '/'
  }

  predicate ValidPlace(place: Place) {
    && (place.prefix == [] || place.prefix[0] == '/')
    && (place.bare ==> place.prefix != [])
    && UnknownMethod !in place.verbs
  }

  function Trimmed(path: string): string
    requires path != []
  {
    if path[|path| - 1] == '/' then path[..|path| - 1] else path
  }

  /** The place of a router mounted at `path` inside a router at `place`. */
  function Below(place: Place, path: string, verbs: set<HttpMethod>): Place
    requires path != []
  {
    Place(place.prefix + Trimmed(path),
          if path == "/" then place.bare else path[|path| - 1] != '/',
          place.bases + [path],
          place.verbs * verbs)
  }

  /** A request for a bare mount itself reads as a request for the mount's root. */
  function Completed(place: Place, resource: string): string {
    if place.bare && resource == place.prefix then resource + "/" else resource
  }

  predicate Under(place: Place, resource: string) {
    place.prefix + "/" <= Completed(place, resource)
  }

  // ----- the flat list

  predicate ValidEntry(e: FlatRoute) {
    IsLeaf(e.route) && ValidPlace(e.place) && ValidPath(e.route.path)
  }

  datatype FlatRoute = FlatRoute(place: Place, keepAlive: bool, route: Route)

  /** A route without a path takes everything under its mount. */
  function FullPath(e: FlatRoute): string {
    e.place.prefix + (match e.route.path case None => "/" case Some(path) => path)
  }

  predicate FlatMatches(e: FlatRoute, verb: HttpMethod, resource: string) {
    && verb in e.place.verbs && AllowedForMethod(e.route.verbs, verb)
    && SupportedPath(Some(FullPath(e)), e.route.path.None? || e.route.isParent,
                     Completed(e.place, resource))
  }

  /** The routes of a tree, depth first. Routes and mounts with an invalid path never match
      and are left out. */
  function Flatten(routes: seq<Route>, keepAlive: bool, place: Place): (list: seq<FlatRoute>)
    requires ValidPlace(place)
    ensures ValidList(list)
    decreases routes, 1
  {
    if routes == [] then []
    else FlattenRoute(routes[0], keepAlive, place) + Flatten(routes[1..], keepAlive, place)
  }

  function FlattenRoute(route: Route, keepAlive: bool, place: Place): (list: seq<FlatRoute>)
    requires ValidPlace(place)
    ensures ValidList(list)
    decreases route, 0
  {
    if !ValidPath(route.path) || route.serve.NoServe? then []
    else if !route.serve.Mount? then [FlatRoute(place, keepAlive, route)]
    else if route.path.None? then []
    else
      var router := route.serve.router;
      Flatten(router.routes, router.keepAlive, Below(place, route.path.value, route.verbs))
  }

  /** What a route sees below its mounts. */
  function Inside(place: Place, f: Flow): Flow
    requires f.resource.Some? && Under(place, f.resource.value)
  {
    f.(resource := Some(Completed(place, f.resource.value)[|place.prefix|..]),
       basePath := f.basePath + place.bases)
  }

  /** One flat route: if it matches, run its handler, and respond if the handler answers. */
  function ServeFlat(e: FlatRoute, f: Flow): (Flow, bool)
    requires ValidEntry(e)
  {
    if !f.IsOpen() || f.resource.None? || f.closed || !FlatMatches(e, f.facts.verb, f.resource.value)
    then (f, false)
    else
      MatchIsUnder(e, f.facts.verb, f.resource.value);
      var (g, decision) := RunLeaf(e.route, Inside(e.place, f));
      var h := g.(resource := f.resource, basePath := f.basePath);
      if decision == Continue then (h, false)
      else (Respond(e.keepAlive, h).(done := e.place.bases != []), true)
  }

  ghost predicate ValidList(list: seq<FlatRoute>) {
    forall e :: e in list ==> ValidEntry(e)
  }

  /** The first-match scan. */
  function Scan(list: seq<FlatRoute>, f: Flow): (Flow, bool)
    requires ValidList(list)
  {
    if list == [] then (f, false)
    else
      assert list[0] in list;
      var (g, answered) := ServeFlat(list[0], f);
      if answered then (g, true) else Scan(list[1..], g)
  }

  /** Mounts as hs_router_as_route makes them, with a path. */
  predicate WellMounted(routes: seq<Route>)
    decreases routes, 1
  {
    routes == [] || (WellMountedRoute(routes[0]) && WellMounted(routes[1..]))
  }

  predicate WellMountedRoute(route: Route)
    decreases route, 0
  {
    route.serve.Mount? ==>
      route.path.Some? && route.isParent && WellMounted(route.serve.router.routes)
  }

  // ----- matching and stripping are invariant under a common prefix

  lemma Shift(prefix: string, path: string, isParent: bool, resource: string)
    requires path != [] && path[0] == '/' && (prefix == [] || prefix[0] == '/')
    ensures SupportedPath(Some(prefix + path), isParent, prefix + resource)
        <==> SupportedPath(Some(path), isParent, resource)
  {
    var full, whole := prefix + path, prefix + resource;
    assert full[0] == '/';
    assert whole[|prefix|..] == resource && full[|prefix|..] == path;
    if |resource| >= |path| {
      assert whole[..|full|] == prefix + resource[..|path|];
      assert whole[|full| - 1] == resource[|path| - 1];
      assert |resource| > |path| ==> whole[|full|] == resource[|path|];
      assert full <= whole <==> path <= resource;
    }
  }

  lemma MatchIsUnder(e: FlatRoute, verb: HttpMethod, resource: string)
    requires ValidEntry(e) && FlatMatches(e, verb, resource)
    ensures Under(e.place, resource)
  {
    var full := FullPath(e);
    assert full == full[..|e.place.prefix| + 1] + full[|e.place.prefix| + 1..];
    assert full[..|e.place.prefix| + 1] == e.place.prefix + "/";
  }

  /** The full path matches the whole resource exactly when the route's own path matches the
      stripped one. */
  lemma LeafMatch(e: FlatRoute, resource: string)
    requires ValidEntry(e) && Under(e.place, resource)
    ensures SupportedPath(Some(FullPath(e)), e.route.path.None? || e.route.isParent,
                          Completed(e.place, resource))
        <==> SupportedPath(e.route.path, e.route.isParent,
                           Completed(e.place, resource)[|e.place.prefix|..])
  {
    var c, prefix := Completed(e.place, resource), e.place.prefix;
    var s := c[|prefix|..];
    assert c == prefix + s;
    assert s[0] == c[|prefix|] == (prefix + "/")[|prefix|];
    match e.route.path
    case None =>
      Shift(prefix, "/", true, s);
      assert |s| == 1 ==> s == "/";
    case Some(path) =>
      Shift(prefix, path, e.route.isParent, s);
  }

  /** A mount matches exactly when the resource lies under its place, and strips exactly the
      place's prefix. */
  lemma MountMatch(place: Place, path: string, verbs: set<HttpMethod>, resource: string)
    requires ValidPlace(place) && path != [] && path[0] == '/' && Under(place, resource)
    ensures var below := Below(place, path, verbs);
            var s := Completed(place, resource)[|place.prefix|..];
            && ValidPlace(below)
            && (SupportedPath(Some(path), true, s) <==> Under(below, resource))
            && (Under(below, resource) ==>
                  Completed(below, resource) == below.prefix + Stripped(path, s))
  {
    var prefix := place.prefix;
    var c := Completed(place, resource);
    var s := c[|prefix|..];
    assert c == prefix + s;
    assert s[0] == c[|prefix|] == (prefix + "/")[|prefix|];
    if path == "/" {
      assert Trimmed(path) == [] && prefix + [] == prefix;
    } else if path[|path| - 1] == '/' {
      SlashedMount(place, path, resource, s);
    } else {
      BareMount(place, path, resource, s);
    }
  }

  lemma SlashedMount(place: Place, path: string, resource: string, s: string)
    requires |path| > 1 && path[0] == '/' && path[|path| - 1] == '/'
    requires Completed(place, resource) == place.prefix + s && s != [] && s[0] == '/'
    ensures place.prefix + Trimmed(path) + "/" == place.prefix + path
    ensures SupportedPath(Some(path), true, s) <==> place.prefix + path <= resource
    ensures SupportedPath(Some(path), true, s) ==>
              resource == place.prefix + Trimmed(path) + Stripped(path, s)
  {
    var prefix := place.prefix;
    assert Trimmed(path) + "/" == path;
    Starts(prefix, path, s);
    if place.bare && resource == prefix {
      assert s == "/";
    } else {
      assert resource == prefix + s;
      if path <= s {
        assert s == path[..|path| - 1] + s[|path| - 1..];
        assert |s| == |path| ==> s[|path| - 1..] == "/";
      }
    }
  }

  lemma BareMount(place: Place, path: string, resource: string, s: string)
    requires |path| > 1 && path[0] == '/' && path[|path| - 1] != '/'
    requires Completed(place, resource) == place.prefix + s && s != [] && s[0] == '/'
    ensures var full := place.prefix + path;
            var c := if resource == full then resource + "/" else resource;
            && (SupportedPath(Some(path), true, s) <==> full + "/" <= c)
            && (SupportedPath(Some(path), true, s) ==> c == full + Stripped(path, s))
  {
    var prefix := place.prefix;
    var full := prefix + path;
    if place.bare && resource == prefix {
      assert s == "/";
    } else {
      assert resource == prefix + s;
      assert resource[|prefix|..] == s && full[|prefix|..] == path;
      assert full + "/" == prefix + (path + "/");
      Starts(prefix, path + "/", s);
      if path + "/" <= s { assert s == path + s[|path|..]; }
    }
  }

  lemma Starts(prefix: string, path: string, s: string)
    ensures prefix + path <= prefix + s <==> path <= s
  {
    var whole := prefix + s;
    assert whole[|prefix|..] == s;
    if path <= s { assert whole[..|prefix + path|] == prefix + s[..|path|]; }
    if prefix + path <= whole {
      assert forall i :: 0 <= i < |path| ==> s[i] == whole[|prefix| + i] == (prefix + path)[|prefix| + i];
    }
  }

  /** Whatever lies under a mount lies under the router that mounts it. */
  lemma BelowIsUnder(place: Place, path: string, verbs: set<HttpMethod>, resource: string)
    requires ValidPlace(place) && path != [] && path[0] == '/'
    requires Under(Below(place, path, verbs), resource)
    ensures Under(place, resource)
  {
    var below := Below(place, path, verbs);
    var slashed := place.prefix + "/";
    if path != "/" {
      var c := Completed(below, resource);
      assert Trimmed(path)[0] == '/';
      assert below.prefix[..|slashed|] == slashed;
      assert below.prefix + "/" <= c;
      assert slashed <= resource;
    }
  }

  // ----- nested dispatch is the flat scan

  /** An exchange that is waiting for an answer, at a proper resource. */
  predicate Waiting(f: Flow) {
    && f.IsOpen() && !f.closed && !f.done
    && f.resource.Some? && f.resource.value != [] && f.resource.value[0] == '/'
  }

  /** The same request, still waiting. */
  predicate StillWaiting(f: Flow, g: Flow) {
    Waiting(g) && g.resource == f.resource && g.basePath == f.basePath && g.facts == f.facts
  }

  lemma {:induction false} ScanAppend(a: seq<FlatRoute>, b: seq<FlatRoute>, f: Flow)
    requires ValidList(a) && ValidList(b)
    ensures ValidList(a + b)
    ensures Scan(a + b, f) == if Scan(a, f).1 then Scan(a, f) else Scan(b, Scan(a, f).0)
  {
    if a == [] {
      assert a + b == b;
    } else {
      assert a[0] in a;
      assert (a + b)[1..] == a[1..] + b;
      ScanAppend(a[1..], b, ServeFlat(a[0], f).0);
    }
  }

  lemma {:induction false} ScanKeeps(list: seq<FlatRoute>, f: Flow)
    requires ValidList(list) && Waiting(f)
    ensures !Scan(list, f).1 ==> StillWaiting(f, Scan(list, f).0)
  {
    if list != [] {
      assert list[0] in list;
      var (g, answered) := ServeFlat(list[0], f);
      FlatStillWaits(list[0], f);
      if !answered { ScanKeeps(list[1..], g); }
    }
  }

  /** Nothing mounted at a place matches a request that does not lie under it, or whose method
      a mount on the way holds back. */
  lemma {:induction false} ScanOutside(routes: seq<Route>, keepAlive: bool, place: Place, f: Flow)
    requires ValidPlace(place) && f.resource.Some?
    requires !Under(place, f.resource.value) || f.facts.verb !in place.verbs
    ensures Scan(Flatten(routes, keepAlive, place), f) == (f, false)
    decreases routes, 1
  {
    if routes != [] {
      ScanOutsideRoute(routes[0], keepAlive, place, f);
      ScanOutside(routes[1..], keepAlive, place, f);
      ScanAppend(FlattenRoute(routes[0], keepAlive, place), Flatten(routes[1..], keepAlive, place), f);
    }
  }

  lemma {:induction false} ScanOutsideRoute(route: Route, keepAlive: bool, place: Place, f: Flow)
    requires ValidPlace(place) && f.resource.Some?
    requires !Under(place, f.resource.value) || f.facts.verb !in place.verbs
    ensures Scan(FlattenRoute(route, keepAlive, place), f) == (f, false)
    decreases route, 0
  {
    if !ValidPath(route.path) || route.serve.NoServe? {
    } else if !route.serve.Mount? {
      var e := FlatRoute(place, keepAlive, route);
      if FlatMatches(e, f.facts.verb, f.resource.value) {
        MatchIsUnder(e, f.facts.verb, f.resource.value);
      }
      assert [e][1..] == [];
    } else if route.path.Some? {
      var below := Below(place, route.path.value, route.verbs);
      if Under(below, f.resource.value) {
        BelowIsUnder(place, route.path.value, route.verbs, f.resource.value);
      }
      ScanOutside(route.serve.router.routes, route.serve.router.keepAlive, below, f);
    }
  }

  /** How the state inside a mount relates to the state of the flat scan, after a list of
      routes: unanswered, they differ by the view only; answered, by the view and by the flag
      that each mount on the way out sets. */
  ghost predicate Agree(place: Place, f: Flow, nested: (Flow, bool), flat: (Flow, bool))
    requires f.resource.Some? && Under(place, f.resource.value)
  {
    && nested.1 == flat.1
    && (!flat.1 ==> StillWaiting(f, flat.0) && nested.0 == Inside(place, flat.0))
    && (flat.1 ==>
          flat.0 == nested.0.(resource := f.resource, basePath := f.basePath,
                              done := nested.0.done || place.bases != []))
  }

  lemma {:induction false} NestedRoutes(routes: seq<Route>, keepAlive: bool, place: Place, f: Flow)
    requires ValidPlace(place) && WellMounted(routes) && Waiting(f)
    requires Under(place, f.resource.value) && f.facts.verb in place.verbs
    ensures Agree(place, f, ServeRoutes(routes, keepAlive, Inside(place, f)),
                  Scan(Flatten(routes, keepAlive, place), f))
    decreases routes, 1
  {
    if routes != [] {
      NestedRoute(routes[0], keepAlive, place, f);
      var first := FlattenRoute(routes[0], keepAlive, place);
      var (g, answered) := Scan(first, f);
      if !answered { NestedRoutes(routes[1..], keepAlive, place, g); }
      ScanAppend(first, Flatten(routes[1..], keepAlive, place), f);
    }
  }

  lemma {:induction false} NestedRoute(route: Route, keepAlive: bool, place: Place, f: Flow)
    requires ValidPlace(place) && WellMountedRoute(route) && Waiting(f)
    requires Under(place, f.resource.value) && f.facts.verb in place.verbs
    ensures Agree(place, f, ServeRoute(route, keepAlive, Inside(place, f)),
                  Scan(FlattenRoute(route, keepAlive, place), f))
    decreases route, 0
  {
    if !ValidPath(route.path) || route.serve.NoServe? {
    } else if !route.serve.Mount? {
      NestedLeaf(route, keepAlive, place, f);
    } else {
      NestedMount(route, keepAlive, place, f);
    }
  }

  /** The router's own state, the request and the connection are as they were. */
  ghost predicate Keeps(f: Flow, g: Flow) {
    && g.facts == f.facts && g.resource == f.resource && g.basePath == f.basePath
    && g.done == f.done && g.closed == f.closed
    && g.open == f.open && g.attached == f.attached
    && g.written == f.written && g.counter == f.counter && g.storage == f.storage
  }

  lemma ApplicationKeeps(handler: Handler, f: Flow)
    ensures Keeps(f, RunApplication(handler, f).0)
  {}

  lemma SessionKeeps(context: SessionContext, f: Flow)
    ensures Keeps(f, RunSession(context, f))
  {}

  lemma ServeKeeps(route: Route, f: Flow)
    requires IsLeaf(route)
    ensures Keeps(f, RunServe(route, f).0)
  {
    match route.serve
    case Application(handler) => ApplicationKeeps(handler, f);
    case MaxRequests(_) =>
    case SessionRoute(context) => SessionKeeps(context, f);
  }

  /** A leaf leaves the router's own state, the request and the connection alone. */
  lemma LeafKeeps(route: Route, f: Flow)
    requires IsLeaf(route)
    ensures Keeps(f, RunLeaf(route, f).0)
  {
    ServeKeeps(route, Noted(route, f));
  }

  lemma NestedLeaf(route: Route, keepAlive: bool, place: Place, f: Flow)
    requires ValidPlace(place) && IsLeaf(route) && ValidPath(route.path) && Waiting(f)
    requires Under(place, f.resource.value) && f.facts.verb in place.verbs
    ensures Agree(place, f, ServeRoute(route, keepAlive, Inside(place, f)),
                  Scan(FlattenRoute(route, keepAlive, place), f))
  {
    var e := FlatRoute(place, keepAlive, route);
    assert FlattenRoute(route, keepAlive, place) == [e] && [e][1..] == [];
    assert Scan([e], f) == ServeFlat(e, f);
    LeafMatch(e, f.resource.value);
    var inner := Inside(place, f);
    if AllowedForMethod(route.verbs, f.facts.verb) && SupportedPath(route.path, route.isParent, inner.resource.value) {
      LeafAnswers(e, f, RunLeaf(route, inner));
    }
  }

  /** The matching leaf, told in the terms of the tree and of the list. */
  lemma LeafAnswers(e: FlatRoute, f: Flow, ran: (Flow, Decision))
    requires ValidEntry(e) && Waiting(f)
    requires FlatMatches(e, f.facts.verb, f.resource.value) && Under(e.place, f.resource.value)
    requires ran == RunLeaf(e.route, Inside(e.place, f))
    requires AllowedForMethod(e.route.verbs, f.facts.verb)
    requires SupportedPath(e.route.path, e.route.isParent, Inside(e.place, f).resource.value)
    ensures Agree(e.place, f, ServeRoute(e.route, e.keepAlive, Inside(e.place, f)), ServeFlat(e, f))
  {
    var (g, decision) := ran;
    LeafKeeps(e.route, Inside(e.place, f));
    if decision == Continue {
      assert ServeRoute(e.route, e.keepAlive, Inside(e.place, f)) == (g, false);
    } else {
      assert ServeRoute(e.route, e.keepAlive, Inside(e.place, f)) == (Respond(e.keepAlive, g), true);
    }
  }

  /** A matching mount dispatches below and restores the view. */
  lemma MountDispatch(route: Route, keepAlive: bool, f: Flow)
    requires route.serve.Mount? && route.path.Some? && route.isParent && Waiting(f)
    requires AllowedForMethod(route.verbs, f.facts.verb)
    requires SupportedPath(route.path, true, f.resource.value)
    ensures var router := route.serve.router;
            var inner := f.(basePath := f.basePath + [route.path.value],
                            resource := Some(Stripped(route.path.value, f.resource.value)));
            var (g, answered) := ServeRoutes(router.routes, router.keepAlive, inner);
            ServeRoute(route, keepAlive, f) ==
              (g.(done := answered, resource := f.resource, basePath := f.basePath), answered)
  {}

  /** Agreement inside a mount is agreement around it. */
  lemma AgreeOutward(place: Place, path: string, verbs: set<HttpMethod>, f: Flow,
                     nested: (Flow, bool), flat: (Flow, bool))
    requires path != [] && f.resource.Some? && Under(place, f.resource.value)
    requires var below := Below(place, path, verbs);
             Under(below, f.resource.value) && Agree(below, f, nested, flat)
    ensures var outer := Inside(place, f);
            Agree(place, f,
                  (nested.0.(done := nested.1, resource := outer.resource, basePath := outer.basePath), nested.1),
                  flat)
  {}

  lemma {:induction false} NestedMount(route: Route, keepAlive: bool, place: Place, f: Flow)
    requires ValidPlace(place) && route.serve.Mount? && ValidPath(route.path)
    requires WellMountedRoute(route) && Waiting(f)
    requires Under(place, f.resource.value) && f.facts.verb in place.verbs
    ensures Agree(place, f, ServeRoute(route, keepAlive, Inside(place, f)),
                  Scan(FlattenRoute(route, keepAlive, place), f))
    decreases route, 0, 0
  {
    var router := route.serve.router;
    var below := Below(place, route.path.value, route.verbs);
    MountMatch(place, route.path.value, route.verbs, f.resource.value);
    assert FlattenRoute(route, keepAlive, place) == Flatten(router.routes, router.keepAlive, below);
    if Under(below, f.resource.value) && f.facts.verb in below.verbs {
      NestedRoutes(router.routes, router.keepAlive, below, f);
      NestedMountInside(route, keepAlive, place, f, Scan(Flatten(router.routes, router.keepAlive, below), f));
    } else {
      ScanOutside(router.routes, router.keepAlive, below, f);
      NestedMountOutside(route, keepAlive, place, f);
    }
  }

  /** What a route sees below a mount, seen from the router that mounts it. */
  lemma InsideBelow(place: Place, path: string, verbs: set<HttpMethod>, f: Flow)
    requires ValidPlace(place) && path != [] && path[0] == '/' && f.resource.Some?
    requires Under(place, f.resource.value) && Under(Below(place, path, verbs), f.resource.value)
    ensures var outer := Inside(place, f);
            && SupportedPath(Some(path), true, outer.resource.value)
            && Inside(Below(place, path, verbs), f) ==
               outer.(basePath := outer.basePath + [path], resource := Some(Stripped(path, outer.resource.value)))
  {
    var below := Below(place, path, verbs);
    MountMatch(place, path, verbs, f.resource.value);
    var c := Completed(below, f.resource.value);
    var s := Stripped(path, Inside(place, f).resource.value);
    assert c == below.prefix + s && c[|below.prefix|..] == s;
    assert f.basePath + place.bases + [path] == f.basePath + below.bases;
  }

  lemma NestedMountInside(route: Route, keepAlive: bool, place: Place, f: Flow, flat: (Flow, bool))
    requires ValidPlace(place) && route.serve.Mount? && route.path.Some? && ValidPath(route.path)
    requires route.isParent && Waiting(f) && Under(place, f.resource.value)
    requires var below := Below(place, route.path.value, route.verbs);
             var router := route.serve.router;
             && Under(below, f.resource.value) && f.facts.verb in below.verbs
             && Agree(below, f, ServeRoutes(router.routes, router.keepAlive, Inside(below, f)), flat)
    ensures Agree(place, f, ServeRoute(route, keepAlive, Inside(place, f)), flat)
  {
    var path, router := route.path.value, route.serve.router;
    var below := Below(place, path, route.verbs);
    MountMatch(place, path, route.verbs, f.resource.value);
    InsideBelow(place, path, route.verbs, f);
    OuterWaits(place, f);
    MountDispatch(route, keepAlive, Inside(place, f));
    AgreeOutward(place, path, route.verbs, f,
                 ServeRoutes(router.routes, router.keepAlive, Inside(below, f)), flat);
  }

  lemma NestedMountOutside(route: Route, keepAlive: bool, place: Place, f: Flow)
    requires ValidPlace(place) && route.serve.Mount? && route.path.Some? && ValidPath(route.path)
    requires route.isParent && Waiting(f) && Under(place, f.resource.value) && f.facts.verb in place.verbs
    requires var below := Below(place, route.path.value, route.verbs);
             !(Under(below, f.resource.value) && f.facts.verb in below.verbs)
    ensures Agree(place, f, ServeRoute(route, keepAlive, Inside(place, f)), (f, false))
  {
    MountMatch(place, route.path.value, route.verbs, f.resource.value);
    OuterWaits(place, f);
    assert ServeRoute(route, keepAlive, Inside(place, f)) == (Inside(place, f), false);
  }

  lemma OuterWaits(place: Place, f: Flow)
    requires Waiting(f) && Under(place, f.resource.value)
    ensures Waiting(Inside(place, f))
  {
    var c := Completed(place, f.resource.value);
    assert c[|place.prefix|..][0] == c[|place.prefix|] == (place.prefix + "/")[|place.prefix|];
  }

  /** On return, at every depth and whether or not a route answered, the request has its
      resource back and the router its base path. */
  lemma {:induction false} ViewIsRestored(routes: seq<Route>, keepAlive: bool, f: Flow)
    requires WellMounted(routes)
    ensures var g := ServeRoutes(routes, keepAlive, f).0;
            g.resource == f.resource && g.basePath == f.basePath
    decreases routes, 1
  {
    if routes != [] {
      RouteRestoresView(routes[0], keepAlive, f);
      ViewIsRestored(routes[1..], keepAlive, ServeRoute(routes[0], keepAlive, f).0);
    }
  }

  lemma RouteRestoresView(route: Route, keepAlive: bool, f: Flow)
    requires WellMountedRoute(route)
    ensures var g := ServeRoute(route, keepAlive, f).0;
            g.resource == f.resource && g.basePath == f.basePath
  {
    if IsLeaf(route) { LeafKeeps(route, f); }
  }

  /** A mount gives the resource back exactly when it has a path. */
  lemma MountRestoresResource(route: Route, f: Flow)
    requires route.serve.Mount? && f.resource.Some?
    requires SupportedPath(route.path, route.isParent, f.resource.value)
    ensures ServeMount(route, f).0.basePath == f.basePath
    ensures ServeMount(route, f).0.resource == f.resource <==> route.path.Some?
  {}

  /** A request with an unknown method is never answered. */
  lemma {:induction false} UnknownMethodIsUnanswered(routes: seq<Route>, keepAlive: bool, f: Flow)
    requires Waiting(f) && f.facts.verb == UnknownMethod
    ensures ServeRoutes(routes, keepAlive, f) == (f, false)
  {
    if routes != [] { UnknownMethodIsUnanswered(routes[1..], keepAlive, f); }
  }

  /** Nested routing equals flat routing: for every router tree and every exchange that waits
      for an answer, the recursive dispatch makes the same calls with the same views in the
      same order, ends at the same route, and leaves the same state, as one first-match scan
      over the depth-first list of full paths. */
  lemma NestedIsFlat(router: Router, f: Flow)
    requires WellMounted(router.routes) && Waiting(f)
    ensures ServeRoutes(router.routes, router.keepAlive, f) ==
            Scan(Flatten(router.routes, router.keepAlive, ROOT), f)
  {
    if f.facts.verb == UnknownMethod {
      UnknownMethodIsUnanswered(router.routes, router.keepAlive, f);
      ScanOutside(router.routes, router.keepAlive, ROOT, f);
    } else {
      var nested := ServeRoutes(router.routes, router.keepAlive, f);
      var flat := Scan(Flatten(router.routes, router.keepAlive, ROOT), f);
      RootIsEverything(f);
      NestedRoutes(router.routes, router.keepAlive, ROOT, f);
      if flat.1 {
        ViewIsRestored(router.routes, router.keepAlive, f);
        assert flat.0 == nested.0;
      } else {
        RootIsEverything(flat.0);
      }
    }
  }

  lemma RootIsEverything(f: Flow)
    requires Waiting(f)
    ensures Under(ROOT, f.resource.value) && Inside(ROOT, f) == f
    ensures f.facts.verb != UnknownMethod ==> f.facts.verb in ROOT.verbs
  {
    assert Completed(ROOT, f.resource.value)[0..] == f.resource.value;
    assert f.basePath + [] == f.basePath;
    match f.facts.verb case UnknownMethod => case _ =>
  }

  // ----- what the views mean

  /** The slash-trimmed mount paths on a nesting stack, joined. */
  function Stack(bases: seq<string>): string
    requires forall b :: b in bases ==> b != []
  {
    if bases == [] then []
    else
      var last := |bases| - 1;
      assert bases[last] in bases && forall b :: b in bases[..last] ==> b in bases;
      Stack(bases[..last]) + Trimmed(bases[last])
  }

  ghost predicate Stacked(place: Place) {
    (forall b :: b in place.bases ==> b != []) && place.prefix == Stack(place.bases)
  }

  lemma StackedBelow(place: Place, path: string, verbs: set<HttpMethod>)
    requires Stacked(place) && path != []
    ensures Stacked(Below(place, path, verbs))
  {
    var bases := place.bases + [path];
    assert bases[..|bases| - 1] == place.bases;
  }

  lemma {:induction false} FlattenStacks(routes: seq<Route>, keepAlive: bool, place: Place, e: FlatRoute)
    requires ValidPlace(place) && Stacked(place) && e in Flatten(routes, keepAlive, place)
    ensures Stacked(e.place)
    decreases routes, 1
  {
    if e in FlattenRoute(routes[0], keepAlive, place) {
      FlattenRouteStacks(routes[0], keepAlive, place, e);
    } else {
      FlattenStacks(routes[1..], keepAlive, place, e);
    }
  }

  lemma {:induction false} FlattenRouteStacks(route: Route, keepAlive: bool, place: Place, e: FlatRoute)
    requires ValidPlace(place) && Stacked(place) && e in FlattenRoute(route, keepAlive, place)
    ensures Stacked(e.place)
    decreases route, 0
  {
    if route.serve.Mount? {
      StackedBelow(place, route.path.value, route.verbs);
      FlattenStacks(route.serve.router.routes, route.serve.router.keepAlive,
                    Below(place, route.path.value, route.verbs), e);
    }
  }

  /** A view the stripping may hand out for `resource`: it starts with '/', and the nesting
      stack followed by it is the original resource, up to one '/' added at the very end. */
  ghost predicate FaithfulView(call: Call, resource: string) {
    && (forall b :: b in call.view.basePath ==> b != [])
    && call.view.resource.Some? && call.view.resource.value != [] && call.view.resource.value[0] == '/'
    && var whole := Stack(call.view.basePath) + call.view.resource.value;
    && (whole == resource || (whole == resource + "/" && call.view.resource.value == "/"))
  }

  lemma InsideIsFaithful(place: Place, f: Flow, call: Call)
    requires Stacked(place) && Waiting(f) && f.basePath == [] && Under(place, f.resource.value)
    requires call.view.resource == Inside(place, f).resource && call.view.basePath == Inside(place, f).basePath
    ensures FaithfulView(call, f.resource.value)
  {
    OuterWaits(place, f);
    var c := Completed(place, f.resource.value);
    assert c == place.prefix + c[|place.prefix|..];
    assert [] + place.bases == place.bases;
    assert c != f.resource.value ==> c[|place.prefix|..] == "/";
  }

  lemma LeafCalls(route: Route, f: Flow)
    requires IsLeaf(route)
    ensures RunLeaf(route, f).0.calls == f.calls + [CallOf(route, f)]
  {
    match route.serve
    case Application(_) =>
    case MaxRequests(_) =>
    case SessionRoute(_) =>
  }

  lemma FlatCalls(e: FlatRoute, f: Flow)
    requires ValidEntry(e) && f.resource.Some?
    ensures var calls := ServeFlat(e, f).0.calls;
            calls == f.calls ||
            (Under(e.place, f.resource.value)
             && calls == f.calls + [CallOf(e.route, Inside(e.place, f))])
  {
    if FlatMatches(e, f.facts.verb, f.resource.value) {
      MatchIsUnder(e, f.facts.verb, f.resource.value);
      LeafCalls(e.route, Inside(e.place, f));
    }
  }

  lemma FlatCallIsFaithful(e: FlatRoute, f: Flow)
    requires ValidEntry(e) && Stacked(e.place) && Waiting(f) && f.basePath == []
    ensures var calls := ServeFlat(e, f).0.calls;
            calls == f.calls || exists call :: calls == f.calls + [call] && FaithfulView(call, f.resource.value)
  {
    FlatCalls(e, f);
    if Under(e.place, f.resource.value) {
      InsideIsFaithful(e.place, f, CallOf(e.route, Inside(e.place, f)));
    }
  }

  /** The calls made from `f` to `g` all had faithful views. */
  ghost predicate FaithfulCalls(f: Flow, g: Flow, resource: string) {
    && f.calls <= g.calls
    && forall i :: |f.calls| <= i < |g.calls| ==> FaithfulView(g.calls[i], resource)
  }

  lemma FlatCallsAreFaithful(e: FlatRoute, f: Flow)
    requires ValidEntry(e) && Stacked(e.place) && Waiting(f) && f.basePath == []
    ensures FaithfulCalls(f, ServeFlat(e, f).0, f.resource.value)
  {
    FlatCallIsFaithful(e, f);
  }

  lemma {:induction false} ScanCallsAreFaithful(list: seq<FlatRoute>, f: Flow)
    requires ValidList(list) && (forall e :: e in list ==> Stacked(e.place))
    requires Waiting(f) && f.basePath == []
    ensures FaithfulCalls(f, Scan(list, f).0, f.resource.value)
  {
    if list != [] {
      assert list[0] in list;
      FlatCallsAreFaithful(list[0], f);
      FlatStillWaits(list[0], f);
      var (g, answered) := ServeFlat(list[0], f);
      if !answered {
        ScanCallsAreFaithful(list[1..], g);
        FaithfulChain(f, g, Scan(list[1..], g).0, f.resource.value);
      }
    }
  }

  lemma FlatStillWaits(e: FlatRoute, f: Flow)
    requires ValidEntry(e) && Waiting(f)
    ensures !ServeFlat(e, f).1 ==> StillWaiting(f, ServeFlat(e, f).0)
  {}

  lemma FaithfulChain(f: Flow, g: Flow, h: Flow, resource: string)
    requires FaithfulCalls(f, g, resource) && FaithfulCalls(g, h, resource)
    ensures FaithfulCalls(f, h, resource)
  {
    forall i | |f.calls| <= i < |h.calls| ensures FaithfulView(h.calls[i], resource) {
      if i < |g.calls| { assert h.calls[i] == g.calls[i]; }
    }
  }

  /** The stack invariant of prefix stripping, for every handler call of every dispatch. */
  lemma StrippingKeepsTheStack(router: Router, f: Flow)
    requires WellMounted(router.routes) && Waiting(f) && f.basePath == []
    ensures FaithfulCalls(f, ServeRoutes(router.routes, router.keepAlive, f).0, f.resource.value)
  {
    NestedIsFlat(router, f);
    forall e | e in Flatten(router.routes, router.keepAlive, ROOT) ensures Stacked(e.place) {
      FlattenStacks(router.routes, router.keepAlive, ROOT, e);
    }
    ScanCallsAreFaithful(Flatten(router.routes, router.keepAlive, ROOT), f);
  }

  /** Mounts written with their '/'. */
  predicate Slashed(routes: seq<Route>)
    decreases routes, 1
  {
    routes == [] || (SlashedRoute(routes[0]) && Slashed(routes[1..]))
  }

  predicate SlashedRoute(route: Route)
    decreases route, 0
  {
    route.serve.Mount? && ValidPath(route.path) && route.path.Some? ==>
      route.path.value[|route.path.value| - 1] == '/' && Slashed(route.serve.router.routes)
  }

  lemma {:induction false} SlashedIsNotBare(routes: seq<Route>, keepAlive: bool, place: Place)
    requires Slashed(routes) && ValidPlace(place) && !place.bare
    ensures forall e :: e in Flatten(routes, keepAlive, place) ==> !e.place.bare
    decreases routes, 1
  {
    if routes != [] {
      SlashedRouteIsNotBare(routes[0], keepAlive, place);
      SlashedIsNotBare(routes[1..], keepAlive, place);
    }
  }

  lemma {:induction false} SlashedRouteIsNotBare(route: Route, keepAlive: bool, place: Place)
    requires SlashedRoute(route) && ValidPlace(place) && !place.bare
    ensures forall e :: e in FlattenRoute(route, keepAlive, place) ==> !e.place.bare
    decreases route, 0
  {
    if ValidPath(route.path) && route.serve.Mount? && route.path.Some? {
      SlashedIsNotBare(route.serve.router.routes, route.serve.router.keepAlive,
                       Below(place, route.path.value, route.verbs));
    }
  }

  predicate MethodsAllow(e: FlatRoute, verb: HttpMethod) {
    verb in e.place.verbs && AllowedForMethod(e.route.verbs, verb)
  }

  /** The full path against the resource as it stands. */
  predicate PlainMatches(e: FlatRoute, verb: HttpMethod, resource: string) {
    MethodsAllow(e, verb) && SupportedPath(Some(FullPath(e)), e.route.path.None? || e.route.isParent, resource)
  }

  /** A flat route matches exactly when its full path supports the resource as it stands, or
      when a mount written without its '/' is asked for by its bare name and the route below
      serves that mount's root. */
  lemma FlatMatchesExactly(e: FlatRoute, verb: HttpMethod, resource: string)
    requires ValidEntry(e)
    ensures FlatMatches(e, verb, resource) <==>
              || PlainMatches(e, verb, resource)
              || (&& MethodsAllow(e, verb) && e.place.bare && resource == e.place.prefix
                  && (e.route.path == None || e.route.path == Some("/")))
  {
    var prefix, full := e.place.prefix, FullPath(e);
    if e.place.bare && resource == prefix {
      assert |full| > |resource|;
      assert full[|prefix|..] == (match e.route.path case None => "/" case Some(path) => path);
      assert (prefix + "/")[|prefix|..] == "/";
    }
  }

  /** In a tree of mounts that end in '/', nested routing is therefore first match on plain
      full paths. */
  lemma SlashedMatchesPlainly(router: Router, e: FlatRoute, verb: HttpMethod, resource: string)
    requires Slashed(router.routes) && e in Flatten(router.routes, router.keepAlive, ROOT)
    ensures FlatMatches(e, verb, resource) <==> PlainMatches(e, verb, resource)
  {
    SlashedIsNotBare(router.routes, router.keepAlive, ROOT);
    FlatMatchesExactly(e, verb, resource);
  }

  /** One route of a tree whose mounts end in '/': if the full path and the methods match, run
      its handler on what follows the mounts, and respond if the handler answers. */
  function ServePlain(e: FlatRoute, f: Flow): (Flow, bool)
    requires ValidEntry(e)
  {
    if !f.IsOpen() || f.resource.None? || f.closed || !PlainMatches(e, f.facts.verb, f.resource.value)
    then (f, false)
    else
      var inner := f.(resource := Some(f.resource.value[|e.place.prefix|..]),
                      basePath := f.basePath + e.place.bases);
      var (g, decision) := RunLeaf(e.route, inner);
      var h := g.(resource := f.resource, basePath := f.basePath);
      if decision == Continue then (h, false)
      else (Respond(e.keepAlive, h).(done := e.place.bases != []), true)
  }

  function PlainScan(list: seq<FlatRoute>, f: Flow): (Flow, bool)
    requires ValidList(list)
  {
    if list == [] then (f, false)
    else
      assert list[0] in list;
      var (g, answered) := ServePlain(list[0], f);
      if answered then (g, true) else PlainScan(list[1..], g)
  }

  lemma PlainIsFlat(e: FlatRoute, f: Flow)
    requires ValidEntry(e) && !e.place.bare
    ensures ServePlain(e, f) == ServeFlat(e, f)
  {
    if f.resource.Some? {
      FlatMatchesExactly(e, f.facts.verb, f.resource.value);
      if FlatMatches(e, f.facts.verb, f.resource.value) { MatchIsUnder(e, f.facts.verb, f.resource.value); }
    }
  }

  lemma {:induction false} PlainScanIsScan(list: seq<FlatRoute>, f: Flow)
    requires ValidList(list) && forall e :: e in list ==> !e.place.bare
    ensures PlainScan(list, f) == Scan(list, f)
  {
    if list != [] {
      assert list[0] in list;
      PlainIsFlat(list[0], f);
      if !ServeFlat(list[0], f).1 { PlainScanIsScan(list[1..], ServeFlat(list[0], f).0); }
    }
  }

  /** For every tree of mounts that end in '/', the recursive dispatch with its stripping equals
      one first-match scan that compares plain full paths with the resource as it stands. */
  lemma NestedIsPlain(router: Router, f: Flow)
    requires WellMounted(router.routes) && Slashed(router.routes) && Waiting(f)
    ensures ServeRoutes(router.routes, router.keepAlive, f) ==
            PlainScan(Flatten(router.routes, router.keepAlive, ROOT), f)
  {
    NestedIsFlat(router, f);
    SlashedIsNotBare(router.routes, router.keepAlive, ROOT);
    PlainScanIsScan(Flatten(router.routes, router.keepAlive, ROOT), f);
  }

  /** What a route's path stands for: itself, and for a parent path everything below it. */
  lemma SupportedPathMeans(path: string, isParent: bool, resource: string)
    requires path != [] && path[0] == '/'
    ensures SupportedPath(Some(path), isParent, resource) <==>
              resource == path || (isParent && Trimmed(path) + "/" <= resource)
  {
    var below := Trimmed(path) + "/";
    if path[|path| - 1] == '/' {
      assert below == path;
    } else if path <= resource && |resource| > |path| {
      assert resource[|path| - 1] == path[|path| - 1];
      assert resource[..|below|] == path + [resource[|path|]];
    }
    assert below <= resource ==> resource[..|path|] == below[..|path|];
  }
}
