/** The per-listener connection router of the reverse proxy (proxy/internal/tcp/router.go):
    SNI routes per lower-cased host, and one optional catch-all fallback. */
module ProxyRouter {
  import opened Text

  type ServiceId = string

  datatype RouteKind = HttpRoute | TcpRoute

  datatype Route = Route(svc: ServiceId, kind: RouteKind, target: string)

  datatype Router = Router(routes: map<string, seq<Route>>, fallback: Option<Route>)

  const EMPTY_ROUTER := Router(map[], None)

  /** Replaces the first route of the same service, or appends. */
  function Upsert(rs: seq<Route>, r: Route): seq<Route> {
    if rs == [] then [r]
    else if rs[0].svc == r.svc then [r] + rs[1..]
    else [rs[0]] + Upsert(rs[1..], r)
  }

  function Without(rs: seq<Route>, svc: ServiceId): seq<Route> {
    if rs == [] then []
    else (if rs[0].svc == svc then [] else [rs[0]]) + Without(rs[1..], svc)
  }

  /** Registers an SNI route; an empty host is ignored. */
  function AddRoute(r: Router, host: string, route: Route): Router {
    var h := Lower(host);
    if h == "" then r
    else
      var rs := if h in r.routes then r.routes[h] else [];
      r.(routes := r.routes[h := Upsert(rs, route)])
  }

  /** Removes the service's routes at the host; a host left without routes is dropped. */
  function RemoveRoute(r: Router, host: string, svc: ServiceId): Router {
    var h := Lower(host);
    var rs := Without(if h in r.routes then r.routes[h] else [], svc);
    if rs == [] then r.(routes := r.routes - {h}) else r.(routes := r.routes[h := rs])
  }

  function SetFallback(r: Router, route: Route): Router {
    r.(fallback := Some(route))
  }

  /** Clears the fallback whoever set it: the service argument only selects which relays
      are cancelled, and relays are not part of the model. */
  function RemoveFallback(r: Router, svc: ServiceId): Router {
    r.(fallback := None)
  }

  predicate IsEmpty(r: Router) {
    |r.routes| == 0 && r.fallback.None?
  }

  // ---------- What a router holds ----------

  /** Route `x` is registered at host `h`. */
  predicate At(r: Router, h: string, x: Route) {
    h in r.routes && x in r.routes[h]
  }

  ghost predicate Distinct(rs: seq<Route>) {
    forall i, j :: 0 <= i < j < |rs| ==> rs[i].svc != rs[j].svc
  }

  /** Every listed host is non-empty and has at least one route, one per service. */
  ghost predicate Valid(r: Router) {
    forall h :: h in r.routes ==> h != "" && r.routes[h] != [] && Distinct(r.routes[h])
  }

  lemma DistinctCons(x: Route, t: seq<Route>)
    requires Distinct(t) && forall y :: y in t ==> y.svc != x.svc
    ensures Distinct([x] + t)
  {
    forall i, j | 0 <= i < j < |t| + 1
      ensures ([x] + t)[i].svc != ([x] + t)[j].svc
    {
      assert t[j - 1] in t;
    }
  }

  lemma {:induction false} UpsertMembers(rs: seq<Route>, r: Route)
    requires Distinct(rs)
    ensures Distinct(Upsert(rs, r))
    ensures forall x :: x in Upsert(rs, r) <==> x == r || (x in rs && x.svc != r.svc)
  {
    if rs != [] {
      assert forall x :: x in rs <==> x == rs[0] || x in rs[1..];
      assert forall y :: y in rs[1..] ==> y.svc != rs[0].svc;
      if rs[0].svc == r.svc {
        DistinctCons(r, rs[1..]);
      } else {
        UpsertMembers(rs[1..], r);
        DistinctCons(rs[0], Upsert(rs[1..], r));
      }
    }
  }

  lemma {:induction false} WithoutMembers(rs: seq<Route>, svc: ServiceId)
    requires Distinct(rs)
    ensures Distinct(Without(rs, svc))
    ensures forall x :: x in Without(rs, svc) <==> x in rs && x.svc != svc
  {
    if rs != [] {
      assert forall x :: x in rs <==> x == rs[0] || x in rs[1..];
      WithoutMembers(rs[1..], svc);
      var t := Without(rs[1..], svc);
      if rs[0].svc == svc {
        assert Without(rs, svc) == t;
      } else {
        assert Without(rs, svc) == [rs[0]] + t;
        DistinctCons(rs[0], t);
      }
    }
  }

  /** After AddRoute the service has exactly the new route at the host; nothing else moves. */
  lemma AddRouteEntries(r: Router, host: string, route: Route)
    requires Valid(r)
    ensures Valid(AddRoute(r, host, route))
    ensures AddRoute(r, host, route).fallback == r.fallback
    ensures forall h, x :: At(AddRoute(r, host, route), h, x) <==>
              if h == Lower(host) && h != "" then x == route || (At(r, h, x) && x.svc != route.svc)
              else At(r, h, x)
  {
    var h := Lower(host);
    if h != "" {
      UpsertMembers(if h in r.routes then r.routes[h] else [], route);
      assert route in Upsert(if h in r.routes then r.routes[h] else [], route);
    }
  }

  /** RemoveRoute removes the named service at the host and nothing else. */
  lemma RemoveRouteEntries(r: Router, host: string, svc: ServiceId)
    requires Valid(r)
    ensures Valid(RemoveRoute(r, host, svc))
    ensures RemoveRoute(r, host, svc).fallback == r.fallback
    ensures forall h, x :: At(RemoveRoute(r, host, svc), h, x) <==>
              At(r, h, x) && !(h == Lower(host) && x.svc == svc)
  {
    var h := Lower(host);
    var before := if h in r.routes then r.routes[h] else [];
    WithoutMembers(before, svc);
    assert forall x :: At(r, h, x) <==> x in before;
    if Without(before, svc) == [] {
      assert forall x :: x in before ==> x !in Without(before, svc) ==> x.svc == svc;
    }
  }

  /** A service's route takes the place of its former one, or the last place; the others stay in order. */
  lemma {:induction false} UpsertExactly(rs: seq<Route>, r: Route, i: nat)
    requires Distinct(rs) && i < |rs| && rs[i].svc == r.svc
    ensures Upsert(rs, r) == rs[i := r]
  {
    assert rs == [rs[0]] + rs[1..];
    if i > 0 {
      UpsertExactly(rs[1..], r, i - 1);
    }
  }

  lemma {:induction false} UpsertAppends(rs: seq<Route>, r: Route)
    requires forall x :: x in rs ==> x.svc != r.svc
    ensures Upsert(rs, r) == rs + [r]
  {
    if rs != [] {
      assert rs == [rs[0]] + rs[1..];
      UpsertAppends(rs[1..], r);
    }
  }

  lemma {:induction false} WithoutInOrder(a: seq<Route>, b: seq<Route>, svc: ServiceId)
    ensures Without(a + b, svc) == Without(a, svc) + Without(b, svc)
  {
    if a == [] {
      assert a + b == b;
    } else {
      assert (a + b)[1..] == a[1..] + b;
      WithoutInOrder(a[1..], b, svc);
    }
  }

  /** A route added under one spelling of a host and removed under another leaves what was there. */
  lemma AddThenRemoveInAnyCase(r: Router, host: string, other: string, route: Route)
    requires Valid(r) && CaseEqual(host, other) && forall x :: At(r, Lower(host), x) ==> x.svc != route.svc
    ensures var r' := RemoveRoute(AddRoute(r, host, route), other, route.svc);
            r'.fallback == r.fallback && forall h, x :: At(r', h, x) <==> At(r, h, x)
  {
    LowerExactly(host, other);
    AddRouteEntries(r, host, route);
    RemoveRouteEntries(AddRoute(r, host, route), other, route.svc);
  }

  /** Adding a route that is there already changes nothing. */
  lemma AddRouteAgain(r: Router, host: string, route: Route)
    requires Valid(r) && (Lower(host) != "" ==> At(r, Lower(host), route))
    ensures AddRoute(r, host, route) == r
  {
    var h := Lower(host);
    if h != "" {
      UpsertAgain(r.routes[h], route);
      assert r.routes[h := r.routes[h]] == r.routes;
    }
  }

  lemma {:induction false} UpsertAgain(rs: seq<Route>, r: Route)
    requires Distinct(rs) && r in rs
    ensures Upsert(rs, r) == rs
  {
    assert rs == [rs[0]] + rs[1..];
    if rs[0].svc == r.svc {
      var i :| 0 <= i < |rs| && rs[i] == r;
      assert i == 0;
    } else {
      UpsertAgain(rs[1..], r);
    }
  }

  /** IsEmpty is what its name says once every listed host has a route. */
  lemma EmptyMeansNoEntries(r: Router)
    requires Valid(r)
    ensures IsEmpty(r) <==> r.fallback.None? && forall h, x :: !At(r, h, x)
  {
    if |r.routes| != 0 {
      var h :| h in r.routes;
      assert At(r, h, r.routes[h][0]);
    } else {
      assert r.routes == map[];
    }
  }
}
