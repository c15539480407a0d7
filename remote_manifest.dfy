/**
 * The shell's navigation registry: the route manifests contributed by each remote,
 * their flattening into one route list, the nav items derived from it, and the
 * resolution of a lazy route against the routes a remote module exports.
 */
module RemoteManifest {
  import opened Wrappers
  import opened StableSort

  /** A nav entry; `order` is optional in the source's type. The source's `label`
      field is named `text` here, because `label` is a reserved word in Dafny. */
  datatype Nav = Nav(text: string, order: Option<int>)

  /** A shell route. `remote` names the module whose routes the lazy component is
      resolved against (the argument of `import(...)`). */
  datatype RouteConfig = RouteConfig(id: string, path: string, remote: string, nav: Option<Nav>)

  datatype Manifest = Manifest(name: string, routes: seq<RouteConfig>)

  // ---------------------------------------------------------------------------
  // Lazy route resolution
  // ---------------------------------------------------------------------------

  /** A component a remote exports; its content is outside this model. */
  datatype Component = Component(name: string)

  /** A route as a remote module exports it; `component` may be missing. */
  datatype RemoteRoute = RemoteRoute(id: string, component: Option<Component>)

  /** What a lazy route renders once its remote has loaded. */
  datatype Rendered = Render(component: Component) | NotFound

  /** `i` is the position of the first remote route whose id is `routeId`. */
  ghost predicate FirstWithId(routes: seq<RemoteRoute>, routeId: string, i: int) {
    0 <= i < |routes| && routes[i].id == routeId &&
    forall j :: 0 <= j < i ==> routes[j].id != routeId
  }

  /** `Array.prototype.find` on the id, as a position. */
  function FindRoute(routes: seq<RemoteRoute>, routeId: string): (r: Option<nat>)
    ensures r.Some? ==> FirstWithId(routes, routeId, r.value)
    ensures r.None? ==> forall j :: 0 <= j < |routes| ==> routes[j].id != routeId
  {
    if routes == [] then None
    else if routes[0].id == routeId then Some(0)
    else
      match FindRoute(routes[1..], routeId)
      case None => None
      case Some(i) => Some(i + 1)
  }

  /** The component of the first route with the id, or the Not Found placeholder when
      no route has the id or that route has no component. */
  function Resolve(routes: seq<RemoteRoute>, routeId: string): Rendered {
    match FindRoute(routes, routeId)
    case None => NotFound
    case Some(i) =>
      match routes[i].component
      case Some(c) => Render(c)
      case None => NotFound
  }

  /** The first route with the id decides, whatever later routes with the same id hold. */
  lemma ResolveFirst(routes: seq<RemoteRoute>, routeId: string, i: nat)
    requires FirstWithId(routes, routeId, i)
    ensures Resolve(routes, routeId)
         == (match routes[i].component case Some(c) => Render(c) case None => NotFound)
  {
  }

  /** A component is rendered exactly when some route carries it, with the id, and no
      earlier route has the id. */
  lemma ResolveIff(routes: seq<RemoteRoute>, routeId: string, c: Component)
    ensures Resolve(routes, routeId) == Render(c)
        <==> exists i :: FirstWithId(routes, routeId, i) && routes[i].component == Some(c)
    ensures (forall j :: 0 <= j < |routes| ==> routes[j].id != routeId)
            ==> Resolve(routes, routeId) == NotFound
  {
    if Resolve(routes, routeId) == Render(c) {
      var k := FindRoute(routes, routeId).value;
      assert FirstWithId(routes, routeId, k) && routes[k].component == Some(c);
    }
    if exists i :: FirstWithId(routes, routeId, i) && routes[i].component == Some(c) {
      var i :| FirstWithId(routes, routeId, i) && routes[i].component == Some(c);
      ResolveFirst(routes, routeId, i);
    }
  }

  // ---------------------------------------------------------------------------
  // Manifests
  // ---------------------------------------------------------------------------

  const TrafficRoutes: seq<RouteConfig> :=
    [RouteConfig("traffic-home", "/traffic", "traffic/routes", Some(Nav("Traffic", Some(1))))]
  const ReportsRoutes: seq<RouteConfig> :=
    [RouteConfig("reports-home", "/reports", "reports/routes", Some(Nav("Reports", Some(2))))]
  const AdminRoutes: seq<RouteConfig> :=
    [RouteConfig("admin-home", "/admin", "admin/routes", Some(Nav("Admin", Some(3))))]

  const RemoteManifests: seq<Manifest> := [
    Manifest("traffic", TrafficRoutes),
    Manifest("reports", ReportsRoutes),
    Manifest("admin", AdminRoutes)
  ]

  /** `flatMap((m) => m.routes)`. */
  function FlatRoutes(ms: seq<Manifest>): seq<RouteConfig> {
    if ms == [] then [] else ms[0].routes + FlatRoutes(ms[1..])
  }

  lemma {:induction false} FlatRoutesAppend(a: seq<Manifest>, b: seq<Manifest>)
    ensures FlatRoutes(a + b) == FlatRoutes(a) + FlatRoutes(b)
  {
    if a != [] {
      assert (a + b)[0] == a[0] && (a + b)[1..] == a[1..] + b;
      FlatRoutesAppend(a[1..], b);
      assert FlatRoutes(a + b) == a[0].routes + FlatRoutes(a[1..] + b);
    } else {
      assert a + b == b;
    }
  }

  /** Every route of the flattening belongs to a manifest, and every manifest's route
      appears in it. */
  lemma {:induction false} FlatRoutesMembers(ms: seq<Manifest>, r: RouteConfig)
    ensures r in FlatRoutes(ms) <==> exists k :: 0 <= k < |ms| && r in ms[k].routes
  {
    if ms != [] {
      FlatRoutesMembers(ms[1..], r);
      if r in ms[0].routes {
        assert 0 < |ms| && r in ms[0].routes;
      }
      if exists k :: 0 < k < |ms| && r in ms[k].routes {
        var k :| 0 < k < |ms| && r in ms[k].routes;
        assert ms[1..][k - 1] == ms[k];
      }
    }
  }

  function AllRoutes(): (r: seq<RouteConfig>)
    ensures r == TrafficRoutes + ReportsRoutes + AdminRoutes
  {
    var ms := RemoteManifests;
    assert ms[1..][1..][1..] == [];
    assert FlatRoutes(ms[1..][1..]) == AdminRoutes;
    assert FlatRoutes(ms[1..]) == ReportsRoutes + AdminRoutes;
    FlatRoutes(ms)
  }

  /** The route ids are pairwise distinct, so `find` by id in the shell is unambiguous. */
  lemma AllRouteIdsDistinct()
    ensures forall i, j :: 0 <= i < j < |AllRoutes()| ==> AllRoutes()[i].id != AllRoutes()[j].id
  {
    var rs := AllRoutes();
    assert rs[0].id[0] == 't' && rs[1].id[0] == 'r' && rs[2].id[0] == 'a';
  }

  // ---------------------------------------------------------------------------
  // Nav items
  // ---------------------------------------------------------------------------

  datatype NavItem = NavItem(path: string, text: string)

  /** `filter((r) => r.nav)`. */
  function WithNav(rs: seq<RouteConfig>): (r: seq<RouteConfig>)
    ensures forall i :: 0 <= i < |r| ==> r[i].nav.Some?
    ensures multiset(r) <= multiset(rs)
  {
    if rs == [] then []
    else
      assert rs == [rs[0]] + rs[1..];
      (if rs[0].nav.Some? then [rs[0]] else []) + WithNav(rs[1..])
  }

  lemma {:induction false} WithNavMembers(rs: seq<RouteConfig>, x: RouteConfig)
    ensures x in WithNav(rs) <==> x in rs && x.nav.Some?
  {
    if rs != [] {
      WithNavMembers(rs[1..], x);
      assert rs == [rs[0]] + rs[1..];
    }
  }

  /** The number of routes that have a nav entry. */
  function CountWithNav(rs: seq<RouteConfig>): nat {
    if rs == [] then 0 else (if rs[0].nav.Some? then 1 else 0) + CountWithNav(rs[1..])
  }

  lemma {:induction false} WithNavCount(rs: seq<RouteConfig>)
    ensures |WithNav(rs)| == CountWithNav(rs)
  {
    if rs != [] {
      WithNavCount(rs[1..]);
    }
  }

  /** The sort key `nav.order ?? 99`. */
  function EffOrder(r: RouteConfig): int {
    match r.nav
    case Some(n) => (match n.order case Some(o) => o case None => 99)
    case None => 99
  }

  function NavRoutes(rs: seq<RouteConfig>): seq<RouteConfig> {
    SortBy(WithNav(rs), EffOrder)
  }

  /** `map((r) => ({ path: r.path, label: r.nav.label }))`, with `label` read as `text`. */
  function ToNavItems(rs: seq<RouteConfig>): (r: seq<NavItem>)
    requires forall i :: 0 <= i < |rs| ==> rs[i].nav.Some?
    ensures |r| == |rs|
    ensures forall i :: 0 <= i < |rs| ==> r[i] == NavItem(rs[i].path, rs[i].nav.value.text)
  {
    if rs == [] then [] else [NavItem(rs[0].path, rs[0].nav.value.text)] + ToNavItems(rs[1..])
  }

  lemma NavRoutesHaveNav(rs: seq<RouteConfig>)
    ensures forall i :: 0 <= i < |NavRoutes(rs)| ==> NavRoutes(rs)[i].nav.Some?
  {
    var s := NavRoutes(rs);
    forall i | 0 <= i < |s| ensures s[i].nav.Some? {
      assert s[i] in multiset(WithNav(rs));
      WithNavMembers(rs, s[i]);
    }
  }

  function NavItemsOf(rs: seq<RouteConfig>): seq<NavItem> {
    NavRoutesHaveNav(rs);
    ToNavItems(NavRoutes(rs))
  }

  function GetNavItems(): seq<NavItem> {
    NavItemsOf(AllRoutes())
  }

  /** The nav routes are exactly the routes with a nav entry, each once per occurrence,
      sorted by effective order, with equal orders in route-list order; and only one
      sequence has all three properties. */
  lemma NavRoutesSpec(rs: seq<RouteConfig>, other: seq<RouteConfig>)
    ensures multiset(NavRoutes(rs)) == multiset(WithNav(rs))
    ensures SortedBy(NavRoutes(rs), EffOrder)
    ensures SameKeyOrder(NavRoutes(rs), WithNav(rs), EffOrder)
    ensures SortedBy(other, EffOrder) && SameKeyOrder(other, WithNav(rs), EffOrder)
            ==> other == NavRoutes(rs)
  {
    SortByCorrect(WithNav(rs), EffOrder);
    if SortedBy(other, EffOrder) && SameKeyOrder(other, WithNav(rs), EffOrder) {
      StableSortUnique(other, NavRoutes(rs), EffOrder);
    }
  }

  /** One item per route with a nav entry, carrying that route's path and label. */
  lemma NavItemsProjection(rs: seq<RouteConfig>)
    ensures |NavItemsOf(rs)| == CountWithNav(rs)
    ensures forall i :: 0 <= i < |NavRoutes(rs)| ==> NavRoutes(rs)[i].nav.Some?
    ensures forall i :: 0 <= i < |NavItemsOf(rs)| ==>
              NavItemsOf(rs)[i] == NavItem(NavRoutes(rs)[i].path, NavRoutes(rs)[i].nav.value.text)
  {
    WithNavCount(rs);
    NavRoutesHaveNav(rs);
  }

  lemma NavRoutesSorted(rs: seq<RouteConfig>)
    ensures SortedBy(NavRoutes(rs), EffOrder)
  {
    SortByCorrect(WithNav(rs), EffOrder);
  }

  /** An explicit order above 99 puts a route after every route without an order. */
  lemma LargeOrderAfterUnordered(rs: seq<RouteConfig>, i: nat, j: nat, o: int)
    requires i < |NavRoutes(rs)| && j < |NavRoutes(rs)|
    requires NavRoutes(rs)[i].nav.Some? && NavRoutes(rs)[i].nav.value.order == Some(o) && o > 99
    requires NavRoutes(rs)[j].nav.Some? && NavRoutes(rs)[j].nav.value.order.None?
    ensures j < i
  {
    NavRoutesSorted(rs);
    var s := NavRoutes(rs);
    assert EffOrder(s[i]) == o && EffOrder(s[j]) == 99;
  }

  /** A route list that is already in effective order, with a nav entry everywhere, is
      its own nav route list. */
  lemma NavRoutesOfSorted(rs: seq<RouteConfig>)
    requires forall i :: 0 <= i < |rs| ==> rs[i].nav.Some?
    requires SortedBy(rs, EffOrder)
    ensures NavRoutes(rs) == rs
  {
    WithNavAll(rs);
    NavRoutesSpec(rs, rs);
  }

  lemma {:induction false} WithNavAll(rs: seq<RouteConfig>)
    requires forall i :: 0 <= i < |rs| ==> rs[i].nav.Some?
    ensures WithNav(rs) == rs
  {
    if rs != [] {
      WithNavAll(rs[1..]);
      assert rs == [rs[0]] + rs[1..];
    }
  }

  /** With the shown manifests the sidebar lists Traffic, Reports, Admin. */
  lemma ShownNavItems()
    ensures |GetNavItems()| == 3
    ensures GetNavItems()[0] == NavItem("/traffic", "Traffic")
    ensures GetNavItems()[1] == NavItem("/reports", "Reports")
    ensures GetNavItems()[2] == NavItem("/admin", "Admin")
  {
    var rs := AllRoutes();
    ShownRoutesSorted();
    NavItemsOfSorted(rs);
    var items := ToNavItems(rs);
    assert |items| == 3;
    assert items[0] == NavItem(rs[0].path, rs[0].nav.value.text);
    assert items[1] == NavItem(rs[1].path, rs[1].nav.value.text);
    assert items[2] == NavItem(rs[2].path, rs[2].nav.value.text);
  }

  /** The shown routes all have a nav entry and are listed in order 1, 2, 3. */
  lemma ShownRoutesSorted()
    ensures forall i :: 0 <= i < |AllRoutes()| ==> AllRoutes()[i].nav.Some?
    ensures SortedBy(AllRoutes(), EffOrder)
  {
    var rs := AllRoutes();
    assert EffOrder(rs[0]) == 1 && EffOrder(rs[1]) == 2 && EffOrder(rs[2]) == 3;
  }

  /** A route list in effective order with a nav entry everywhere yields one item per
      route, in list order. */
  lemma NavItemsOfSorted(rs: seq<RouteConfig>)
    requires forall i :: 0 <= i < |rs| ==> rs[i].nav.Some?
    requires SortedBy(rs, EffOrder)
    ensures NavItemsOf(rs) == ToNavItems(rs)
  {
    NavRoutesOfSorted(rs);
  }
}
