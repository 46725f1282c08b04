/** Which service owns which route, what cleanup and setup do to ownership, and what they
    do to listeners and CrowdSec references. */
module ProxyOwnership {
  import opened Text
  import opened ProxyRouter
  import opened ProxyState

  // ---------- Views of the state ----------

  /** Route `x` at host `h` on slot `p`; slot 0 is the main router. */
  predicate RouteIn(st: State, p: Port, h: string, x: Route) {
    if p == 0 then At(st.main, h, x) else p in st.portRouters && At(st.portRouters[p].router, h, x)
  }

  predicate FallbackIn(st: State, p: Port, x: Route) {
    if p == 0 then st.main.fallback == Some(x)
    else p in st.portRouters && st.portRouters[p].router.fallback == Some(x)
  }

  function Slot(cfg: Config, p: Port): Port {
    if IsMain(cfg, p) then 0 else p
  }

  /** Some port of the list is served by slot `p`. */
  predicate Hits(cfg: Config, ps: seq<Port>, p: Port) {
    exists q :: q in ps && Slot(cfg, q) == p
  }

  ghost predicate OwnsNothing(st: State, s: ServiceId) {
    && (forall p, h, x :: RouteIn(st, p, h, x) ==> x.svc != s)
    && (forall p, x :: FallbackIn(st, p, x) ==> x.svc != s)
  }

  /** Everything the service owns lies where cleanup of this mapping looks for it. */
  ghost predicate Covers(st: State, m: Mapping) {
    && (forall p, h, x :: RouteIn(st, p, h, x) && x.svc == m.id ==>
          m.domain != "" && h == Lower(m.domain) && (p == 0 || Hits(st.cfg, PortsOf(st, m.id), p)))
    && (forall p, x :: FallbackIn(st, p, x) && x.svc == m.id ==>
          m.domain == "" && Hits(st.cfg, PortsOf(st, m.id), p))
  }

  // ---------- Invariants that hold whatever the updates are ----------

  ghost predicate Structural(st: State) {
    && Valid(st.main)
    && 0 !in st.portRouters && st.cfg.mainPort !in st.portRouters
    && (forall p :: p in st.portRouters ==> Valid(st.portRouters[p].router))
  }

  predicate IsRelay(what: Resource, s: ServiceId) {
    what.UdpListener? && what.svc == s
  }

  /** Each listener ever opened is open under exactly the key it was opened for, or was
      closed exactly once. */
  ghost predicate Conserved(st: State) {
    && (forall p :: p in st.portRouters ==>
          var i := st.portRouters[p].listener;
          i < |st.listeners| && st.listeners[i] == Listener(TcpListener(p), 0))
    && (forall s :: s in st.udpRelays ==>
          var i := st.udpRelays[s];
          i < |st.listeners| && IsRelay(st.listeners[i].what, s) && st.listeners[i].closes == 0)
    && (forall i :: 0 <= i < |st.listeners| ==> Accounted(st, i))
  }

  predicate Accounted(st: State, i: nat)
    requires i < |st.listeners|
  {
    || st.listeners[i].closes == 1
    || (st.listeners[i].closes == 0 &&
        match st.listeners[i].what
        case TcpListener(p) => p in st.portRouters && st.portRouters[p].listener == i
        case UdpListener(s, _) => s in st.udpRelays && st.udpRelays[s] == i)
  }

  /** The references the registry holds are the recorded ones, and the bouncer runs exactly
      while somebody holds one. */
  predicate Balanced(st: State) {
    && st.registry.refs == st.crowdsecServices
    && (st.registry.running <==> st.registry.refs != {})
  }

  ghost predicate Sound(st: State) {
    Structural(st) && Conserved(st) && Balanced(st)
  }

  /** No per-port router is empty. */
  ghost predicate AllBusy(st: State) {
    forall p :: p in st.portRouters ==> !IsEmpty(st.portRouters[p].router)
  }

  // ---------- Single edits ----------

  /** The same listeners are held under the same keys. */
  ghost predicate SameHoldings(a: State, b: State) {
    && a.portRouters.Keys == b.portRouters.Keys
    && (forall q :: q in a.portRouters ==> a.portRouters[q].listener == b.portRouters[q].listener)
    && a.udpRelays == b.udpRelays && a.listeners == b.listeners
  }

  lemma ConservedFrame(a: State, b: State)
    requires SameHoldings(a, b) && Conserved(a)
    ensures Conserved(b)
  {
    forall i | 0 <= i < |b.listeners| ensures Accounted(b, i) {
      assert Accounted(a, i);
    }
  }

  /** The two states hold the same routes and fallbacks in the same slots. */
  ghost predicate SameEntries(a: State, b: State) {
    && a.cfg == b.cfg
    && (forall q, h, x :: RouteIn(a, q, h, x) <==> RouteIn(b, q, h, x))
    && (forall q, x :: FallbackIn(a, q, x) <==> FallbackIn(b, q, x))
  }

  lemma SameRouters(a: State, b: State)
    requires a.cfg == b.cfg && a.main == b.main && a.portRouters == b.portRouters
    ensures SameEntries(a, b)
  {
  }

  /** After: the entries of `a` without the routes of `s` at host `h` on the given slots. */
  ghost predicate RoutesLost(a: State, b: State, h: string, s: ServiceId, slots: iset<Port>) {
    forall q, k, x :: RouteIn(b, q, k, x) <==>
      (RouteIn(a, q, k, x) && !(q in slots && k == h && x.svc == s))
  }

  ghost predicate FallbacksLost(a: State, b: State, slots: iset<Port>) {
    forall q, x :: FallbackIn(b, q, x) <==> (FallbackIn(a, q, x) && q !in slots)
  }

  /** The slots where cleanup of `m` drops routes, and those where it drops fallbacks. */
  ghost function RouteSlots(cfg: Config, m: Mapping, ps: seq<Port>): iset<Port> {
    if m.domain == "" then iset{} else iset q | Hits(cfg, ps, q)
  }

  ghost function FallbackSlots(cfg: Config, m: Mapping, ps: seq<Port>): iset<Port> {
    if m.domain != "" then iset{} else iset q | Hits(cfg, ps, q)
  }

  lemma SetRouterEffect(st: State, p: Port, r: Router)
    requires Structural(st) && RouterFor(st, p).Some? && Valid(r)
    ensures var st' := SetRouter(st, p, r);
            && Structural(st') && SameHoldings(st, st')
            && RouterFor(st', p) == Some(r)
            && (forall q, h, x :: RouteIn(st', q, h, x) <==>
                  (if q == Slot(st.cfg, p) then At(r, h, x) else RouteIn(st, q, h, x)))
            && (forall q, x :: FallbackIn(st', q, x) <==>
                  (if q == Slot(st.cfg, p) then r.fallback == Some(x) else FallbackIn(st, q, x)))
  {
  }

  /** Closing the listener of a port and forgetting the port. */
  function DropPort(st: State, p: Port): State
    requires p in st.portRouters
  {
    st.(portRouters := st.portRouters - {p}, listeners := CloseOnce(st.listeners, st.portRouters[p].listener))
  }

  lemma DropPortConserved(st: State, p: Port)
    requires Conserved(st) && p in st.portRouters
    ensures Conserved(DropPort(st, p))
  {
    var st' := DropPort(st, p);
    forall i | 0 <= i < |st'.listeners| ensures Accounted(st', i) {
      assert Accounted(st, i);
    }
  }

  lemma DropEmptyPort(st: State, p: Port)
    requires Structural(st) && p != 0 && p in st.portRouters && IsEmpty(st.portRouters[p].router)
    ensures Structural(DropPort(st, p)) && SameEntries(st, DropPort(st, p))
  {
    EmptyMeansNoEntries(st.portRouters[p].router);
  }

  /** Closing an empty port router loses no entry and closes its listener once. */
  lemma ClosePortEffect(st: State, p: Port)
    requires Structural(st)
    ensures var st' := ClosePortIfEmpty(st, p);
            && Structural(st')
            && (forall q, h, x :: RouteIn(st', q, h, x) <==> RouteIn(st, q, h, x))
            && (forall q, x :: FallbackIn(st', q, x) <==> FallbackIn(st, q, x))
            && (Conserved(st) ==> Conserved(st'))
  {
    if ClosePortIfEmpty(st, p) != st {
      assert ClosePortIfEmpty(st, p) == DropPort(st, p);
      DropEmptyPort(st, p);
      if Conserved(st) {
        DropPortConserved(st, p);
      }
    }
  }

  function Pruned(r: Router, m: Mapping): Router {
    if m.domain != "" then RemoveRoute(r, m.domain, m.id) else RemoveFallback(r, m.id)
  }

  /** The state in the middle of a turn of the cleanup loop, before an empty port is closed. */
  function PrunePort(st: State, m: Mapping, p: Port): State {
    var r := RouterFor(st, p);
    if r.None? then st else SetRouter(st, p, Pruned(r.value, m))
  }

  lemma PrunePortEffect(st: State, m: Mapping, p: Port)
    requires Structural(st)
    ensures var st' := PrunePort(st, m, p);
            && Structural(st') && SameHoldings(st, st')
            && RoutesLost(st, st', Lower(m.domain), m.id, RouteSlots(st.cfg, m, [p]))
            && FallbacksLost(st, st', FallbackSlots(st.cfg, m, [p]))
  {
    assert forall q :: Hits(st.cfg, [p], q) <==> q == Slot(st.cfg, p);
    var r := RouterFor(st, p);
    if r.Some? {
      RemoveRouteEntries(r.value, m.domain, m.id);
      SetRouterEffect(st, p, Pruned(r.value, m));
    }
  }

  /** One turn of the cleanup loop. */
  lemma CleanPortEffect(st: State, m: Mapping, p: Port)
    requires Structural(st)
    ensures var st' := CleanPort(st, m, p);
            && Structural(st')
            && RoutesLost(st, st', Lower(m.domain), m.id, RouteSlots(st.cfg, m, [p]))
            && FallbacksLost(st, st', FallbackSlots(st.cfg, m, [p]))
            && (Conserved(st) ==> Conserved(st'))
  {
    PrunePortEffect(st, m, p);
    var mid := PrunePort(st, m, p);
    assert CleanPort(st, m, p) == ClosePortIfEmpty(mid, p);
    if Conserved(st) {
      ConservedFrame(st, mid);
    }
    ClosePortEffect(mid, p);
  }

  /** A turn of the loop leaves no router empty that was not empty before. */
  lemma CleanPortKeepsBusy(st: State, m: Mapping, p: Port)
    requires AllBusy(st)
    ensures AllBusy(CleanPort(st, m, p))
  {
    assert CleanPort(st, m, p) == ClosePortIfEmpty(PrunePort(st, m, p), p);
  }

  lemma {:induction false} CleanPortsEffect(st: State, m: Mapping, ps: seq<Port>)
    requires Structural(st)
    ensures var st' := CleanPorts(st, m, ps);
            && Structural(st')
            && st' == st.(main := st'.main, portRouters := st'.portRouters, listeners := st'.listeners)
            && RoutesLost(st, st', Lower(m.domain), m.id, RouteSlots(st.cfg, m, ps))
            && FallbacksLost(st, st', FallbackSlots(st.cfg, m, ps))
            && (Conserved(st) ==> Conserved(st'))
            && (AllBusy(st) ==> AllBusy(st'))
  {
    if ps != [] {
      var front, last := ps[..|ps| - 1], ps[|ps| - 1];
      CleanPortsEffect(st, m, front);
      var mid := CleanPorts(st, m, front);
      CleanPortEffect(mid, m, last);
      if AllBusy(st) {
        CleanPortKeepsBusy(mid, m, last);
      }
      assert forall q :: q in ps <==> q in front || q in [last];
      assert forall q :: Hits(st.cfg, ps, q) <==> Hits(st.cfg, front, q) || Hits(st.cfg, [last], q);
    }
  }

  lemma RemoveRelayEffect(st: State, s: ServiceId)
    requires Conserved(st)
    ensures Conserved(RemoveRelay(st, s))
  {
    var st' := RemoveRelay(st, s);
    if st' != st {
      forall i | 0 <= i < |st'.listeners| ensures Accounted(st', i) {
        assert Accounted(st, i);
      }
    }
  }

  /** The slots where cleanup of `m` in state `st` drops routes of the service. */
  ghost function SweptSlots(st: State, m: Mapping): iset<Port> {
    if m.domain == "" then iset{} else RouteSlots(st.cfg, m, PortsOf(st, m.id)) + iset{0}
  }

  lemma LostCompose(a: State, b: State, c: State, h: string, s: ServiceId,
                    x: iset<Port>, y: iset<Port>, f: iset<Port>, g: iset<Port>)
    requires RoutesLost(a, b, h, s, x) && RoutesLost(b, c, h, s, y)
    requires FallbacksLost(a, b, f) && FallbacksLost(b, c, g)
    ensures RoutesLost(a, c, h, s, x + y) && FallbacksLost(a, c, f + g)
  {
  }

  /** Cleanup up to its loop: the main route goes and the tracked ports are forgotten. */
  function Untrack(st: State, m: Mapping): State {
    var st1 := DropMainRoute(st, m);
    st1.(svcPorts := st1.svcPorts - {m.id})
  }

  lemma UntrackEffect(st: State, m: Mapping)
    requires Structural(st)
    ensures var st' := Untrack(st, m);
            && Structural(st') && SameHoldings(st, st')
            && RoutesLost(st, st', Lower(m.domain), m.id, if m.domain == "" then iset{} else iset{0})
            && FallbacksLost(st, st', iset{})
            && (AllBusy(st) ==> AllBusy(st'))
  {
    RemoveRouteEntries(st.main, m.domain, m.id);
  }

  /** The part of cleanup that concerns routers. */
  function CleanRouters(st: State, m: Mapping): State {
    CleanPorts(Untrack(st, m), m, PortsOf(st, m.id))
  }

  lemma CleanRoutersEffect(st: State, m: Mapping)
    requires Structural(st)
    ensures var st' := CleanRouters(st, m);
            && Structural(st')
            && RoutesLost(st, st', Lower(m.domain), m.id, SweptSlots(st, m))
            && FallbacksLost(st, st', FallbackSlots(st.cfg, m, PortsOf(st, m.id)))
            && (AllBusy(st) ==> AllBusy(st'))
            && (Conserved(st) ==> Conserved(st'))
            && st' == st.(main := st'.main, portRouters := st'.portRouters, listeners := st'.listeners,
                          svcPorts := st.svcPorts - {m.id})
  {
    UntrackEffect(st, m);
    var mid := Untrack(st, m);
    var ps := PortsOf(st, m.id);
    if Conserved(st) {
      ConservedFrame(st, mid);
    }
    CleanPortsEffect(mid, m, ps);
    var main := if m.domain == "" then iset{} else iset{0};
    LostCompose(st, mid, CleanRouters(st, m), Lower(m.domain), m.id,
                main, RouteSlots(st.cfg, m, ps), iset{}, FallbackSlots(st.cfg, m, ps));
    assert main + RouteSlots(st.cfg, m, ps) == SweptSlots(st, m);
    assert iset{} + FallbackSlots(st.cfg, m, ps) == FallbackSlots(st.cfg, m, ps);
  }

  lemma LostFrame(a: State, b: State, c: State, h: string, s: ServiceId, x: iset<Port>, f: iset<Port>)
    requires RoutesLost(a, b, h, s, x) && FallbacksLost(a, b, f) && SameEntries(b, c)
    ensures RoutesLost(a, c, h, s, x) && FallbacksLost(a, c, f)
  {
  }

  /** The part of cleanup that does not concern routers. */
  lemma CleanupRest(st1: State, s: ServiceId)
    requires Structural(st1)
    ensures var st' := ReleaseCrowdSec(RemoveRelay(st1, s), s);
            && Structural(st') && SameEntries(st1, st') && st'.portRouters == st1.portRouters
            && st'.lastMappings == st1.lastMappings && st'.svcPorts == st1.svcPorts
            && st'.udpRelays == st1.udpRelays - {s} && st'.crowdsecServices == st1.crowdsecServices - {s}
            && (Conserved(st1) ==> Conserved(st')) && (Balanced(st1) ==> Balanced(st'))
  {
    var st2 := RemoveRelay(st1, s);
    var st' := ReleaseCrowdSec(st2, s);
    SameRouters(st1, st');
    if Conserved(st1) {
      RemoveRelayEffect(st1, s);
      ConservedFrame(st2, st');
    }
  }

  /** What cleanup of a mapping does: it removes the service's routes at the mapping's domain
      on the main router and the tracked ports, or, for a mapping without a domain, every
      fallback on the tracked ports whoever owns it. It closes what it lets go of, once, and
      keeps the CrowdSec books balanced. */
  lemma CleanupEffect(st: State, m: Mapping)
    requires Structural(st)
    ensures var st' := Cleanup(st, m);
            && Structural(st')
            && RoutesLost(st, st', Lower(m.domain), m.id, SweptSlots(st, m))
            && FallbacksLost(st, st', FallbackSlots(st.cfg, m, PortsOf(st, m.id)))
            && (AllBusy(st) ==> AllBusy(st'))
            && (Sound(st) ==> Sound(st'))
            && st'.cfg == st.cfg && st'.lastMappings == st.lastMappings
            && st'.svcPorts == st.svcPorts - {m.id}
            && st'.udpRelays == st.udpRelays - {m.id}
            && st'.crowdsecServices == st.crowdsecServices - {m.id}
  {
    CleanRoutersEffect(st, m);
    var st1 := CleanRouters(st, m);
    CleanupRest(st1, m.id);
    assert Cleanup(st, m) == ReleaseCrowdSec(RemoveRelay(st1, m.id), m.id);
    LostFrame(st, st1, Cleanup(st, m), Lower(m.domain), m.id, SweptSlots(st, m),
              FallbackSlots(st.cfg, m, PortsOf(st, m.id)));
  }
}
