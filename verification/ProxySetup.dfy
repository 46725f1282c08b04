/** What setting up a mapping does to ownership, listeners and CrowdSec references. */
module ProxySetup {
  import opened Text
  import opened ProxyRouter
  import opened ProxyState
  import opened ProxyOwnership

  /** The slot where a TLS or TCP mapping installs itself. */
  function HomeSlot(st: State, m: Mapping): Port {
    if m.listenPort >= 0 then Slot(st.cfg, m.listenPort) else 0
  }

  function HomeRoute(m: Mapping): Route {
    Route(m.id, if m.mode.Http? then HttpRoute else TcpRoute, if m.mode.Http? then "" else m.l4Target)
  }

  /** The only route that setup may install. */
  predicate NewRoute(st: State, m: Mapping, ok: bool, q: Port, h: string, x: Route) {
    && x == HomeRoute(m) && m.domain != "" && h == Lower(m.domain)
    && ((m.mode.Http? && q == 0) || (m.mode.Tls? && ok && q == HomeSlot(st, m)))
  }

  predicate NewFallback(st: State, m: Mapping, ok: bool, q: Port, x: Route) {
    x == HomeRoute(m) && m.mode.Tcp? && ok && q == HomeSlot(st, m)
  }

  /** Setup moved only entries of the mapping's service, except that a TCP setup displaces
      the fallback of its home slot. */
  ghost predicate Installed(a: State, b: State, m: Mapping, ok: bool) {
    && (forall q, h, x :: RouteIn(b, q, h, x) ==> RouteIn(a, q, h, x) || NewRoute(a, m, ok, q, h, x))
    && (forall q, h, x :: RouteIn(a, q, h, x) && x.svc != m.id ==> RouteIn(b, q, h, x))
    && (forall q, h, x :: RouteIn(a, q, h, x) && x.svc == m.id ==>
          RouteIn(b, q, h, x) || RouteIn(b, q, h, HomeRoute(m)))
    && (forall q, x :: FallbackIn(b, q, x) ==> FallbackIn(a, q, x) || NewFallback(a, m, ok, q, x))
    && (forall q, x :: FallbackIn(a, q, x) && !(m.mode.Tcp? && ok && q == HomeSlot(a, m)) ==>
          FallbackIn(b, q, x))
  }

  /** An HTTP or TLS setup leaves its route in place, and a TCP setup its fallback. */
  ghost predicate AtHome(a: State, b: State, m: Mapping) {
    && (m.mode.Http? && m.hasPath && m.domain != "" ==> RouteIn(b, 0, Lower(m.domain), HomeRoute(m)))
    && (m.mode.Tls? && m.domain != "" ==> RouteIn(b, HomeSlot(a, m), Lower(m.domain), HomeRoute(m)))
    && (m.mode.Tcp? ==> FallbackIn(b, HomeSlot(a, m), HomeRoute(m)))
  }

  /** The ports tracked for the service after a setup with the given outcome. */
  function TrackedAfter(st: State, m: Mapping, ok: bool): map<ServiceId, seq<Port>> {
    if ok && m.listenPort >= 0 && (m.mode.Tcp? || (m.mode.Tls? && m.listenPort != st.cfg.mainPort)) then
      st.svcPorts[m.id := [m.listenPort as nat]]
    else st.svcPorts
  }

  lemma ParseRestrictionsEffect(st: State, m: Mapping, env: Env)
    ensures var st' := ParseRestrictions(st, m, env);
            && st' == st.(registry := st'.registry, crowdsecServices := st'.crowdsecServices)
            && st.crowdsecServices <= st'.crowdsecServices <= st.crowdsecServices + {m.id}
            && (Balanced(st) ==> Balanced(st'))
  {
  }

  lemma OpenPortEffect(st: State, p: Port, listenOk: bool)
    requires Structural(st)
    ensures var (st', ok) := OpenPort(st, p, listenOk);
            && Structural(st') && (ok ==> RouterFor(st', p).Some?)
            && st' == st.(portRouters := st'.portRouters, listeners := st'.listeners)
            && (forall q, h, x :: RouteIn(st', q, h, x) <==> RouteIn(st, q, h, x))
            && (forall q, x :: FallbackIn(st', q, x) <==> FallbackIn(st, q, x))
            && (Conserved(st) ==> Conserved(st'))
            && (AllBusy(st) ==> forall q :: q in st'.portRouters && q != p ==> !IsEmpty(st'.portRouters[q].router))
            && (!ok ==> st' == st)
  {
    var st' := OpenPort(st, p, listenOk).0;
    if Conserved(st) && st' != st {
      forall i | 0 <= i < |st'.listeners| ensures Accounted(st', i) {
        if i < |st.listeners| {
          assert Accounted(st, i);
        }
      }
    }
  }

  lemma LowerKeepsEmptiness(d: string)
    ensures Lower(d) == "" <==> d == ""
  {
    assert |Lower(d)| == |d|;
  }

  lemma SetupHttpEffect(st: State, m: Mapping, env: Env)
    requires Structural(st) && m.mode.Http?
    ensures var (st', ok) := Setup(st, m, env);
            && Structural(st') && Installed(st, st', m, ok) && AtHome(st, st', m)
            && st' == st.(main := st'.main, registry := st'.registry, crowdsecServices := st'.crowdsecServices)
            && st.crowdsecServices <= st'.crowdsecServices <= st.crowdsecServices + {m.id}
            && (Sound(st) ==> Sound(st'))
  {
    LowerKeepsEmptiness(m.domain);
    if m.hasPath {
      var main := AddRoute(st.main, m.domain, HomeRoute(m));
      AddRouteEntries(st.main, m.domain, HomeRoute(m));
      var st1 := st.(main := main);
      ParseRestrictionsEffect(st1, m, env);
      if Sound(st) {
        ConservedFrame(st, Setup(st, m, env).0);
      }
    }
  }

  lemma InstalledFrame(a: State, a': State, b': State, b: State, m: Mapping, ok: bool)
    requires SameEntries(a, a') && SameEntries(b', b) && Installed(a', b', m, ok)
    ensures Installed(a, b, m, ok)
    ensures AtHome(a', b', m) ==> AtHome(a, b, m)
  {
  }

  lemma NothingInstalled(a: State, b: State, m: Mapping, ok: bool)
    requires SameEntries(a, b) && !m.mode.Tcp?
    ensures Installed(a, b, m, ok)
  {
  }

  /** A fresh UDP listener may be recorded as the relay of a service without one. */
  lemma NewRelayConserved(st: State, s: ServiceId, p: Port)
    requires Conserved(st) && s !in st.udpRelays
    ensures Conserved(st.(listeners := st.listeners + [Listener(UdpListener(s, p), 0)],
                          udpRelays := st.udpRelays[s := |st.listeners|]))
  {
    var st' := st.(listeners := st.listeners + [Listener(UdpListener(s, p), 0)],
                   udpRelays := st.udpRelays[s := |st.listeners|]);
    forall i | 0 <= i < |st'.listeners| ensures Accounted(st', i) {
      if i < |st.listeners| {
        assert Accounted(st, i);
      }
    }
  }

  /** A UDP listener that is closed again at once needs no relay. */
  lemma AbortedListenConserved(st: State, s: ServiceId, p: Port)
    requires Conserved(st)
    ensures Conserved(st.(listeners := CloseOnce(st.listeners + [Listener(UdpListener(s, p), 0)], |st.listeners|)))
  {
    var st' := st.(listeners := CloseOnce(st.listeners + [Listener(UdpListener(s, p), 0)], |st.listeners|));
    forall i | 0 <= i < |st'.listeners| ensures Accounted(st', i) {
      if i < |st.listeners| {
        assert Accounted(st, i);
      }
    }
  }

  lemma SetupUdpSound(st: State, m: Mapping, env: Env)
    requires Sound(st) && m.mode.Udp?
    ensures Sound(Setup(st, m, env).0)
  {
    if !Refused(st, m) {
      RemoveRelayEffect(st, m.id);
      var st1 := RemoveRelay(st, m.id);
      AbortedListenConserved(st1, m.id, m.listenPort);
      NewRelayConserved(st1, m.id, m.listenPort);
      var st2 := st1.(listeners := st1.listeners + [Listener(UdpListener(m.id, m.listenPort), 0)]);
      ParseRestrictionsEffect(st2, m, env);
      var st3 := st2.(udpRelays := st2.udpRelays[m.id := |st1.listeners|]);
      if env.udpListenOk && env.dialerOk {
        ConservedFrame(st3, Setup(st, m, env).0);
      }
    }
  }

  lemma SetupUdpShape(st: State, m: Mapping, env: Env)
    requires m.mode.Udp?
    ensures var (st', ok) := Setup(st, m, env);
            && st' == st.(registry := st'.registry, crowdsecServices := st'.crowdsecServices,
                          udpRelays := st'.udpRelays, listeners := st'.listeners)
            && st.crowdsecServices <= st'.crowdsecServices <= st.crowdsecServices + {m.id}
            && st'.udpRelays - {m.id} == st.udpRelays - {m.id}
  {
  }

  lemma SetupUdpEffect(st: State, m: Mapping, env: Env)
    requires Structural(st) && m.mode.Udp?
    ensures var (st', ok) := Setup(st, m, env);
            && Structural(st') && Installed(st, st', m, ok)
            && st' == st.(registry := st'.registry, crowdsecServices := st'.crowdsecServices,
                          udpRelays := st'.udpRelays, listeners := st'.listeners)
            && st.crowdsecServices <= st'.crowdsecServices <= st.crowdsecServices + {m.id}
            && st'.udpRelays - {m.id} == st.udpRelays - {m.id}
  {
    var (st', ok) := Setup(st, m, env);
    SetupUdpShape(st, m, env);
    SameRouters(st, st');
    NothingInstalled(st, st', m, ok);
  }

  /** The router edit that TCP and TLS setups make on their home slot. */
  function Extended(r: Router, m: Mapping): Router {
    if m.mode.Tcp? then SetFallback(r, HomeRoute(m)) else AddRoute(r, m.domain, HomeRoute(m))
  }

  lemma ExtendEffect(st: State, m: Mapping, r: Router)
    requires Structural(st) && (m.mode.Tcp? || m.mode.Tls?) && m.listenPort >= 0
    requires RouterFor(st, m.listenPort) == Some(r)
    ensures var st' := SetRouter(st, m.listenPort, Extended(r, m));
            && Structural(st') && SameHoldings(st, st')
            && Installed(st, st', m, true) && AtHome(st, st', m)
  {
    LowerKeepsEmptiness(m.domain);
    AddRouteEntries(r, m.domain, HomeRoute(m));
    SetRouterEffect(st, m.listenPort, Extended(r, m));
  }

  lemma ExtendedIsBusy(r: Router, m: Mapping)
    requires Valid(r) && (m.mode.Tcp? || (m.mode.Tls? && m.domain != ""))
    ensures !IsEmpty(Extended(r, m))
  {
    LowerKeepsEmptiness(m.domain);
    if m.mode.Tls? {
      AddRouteEntries(r, m.domain, HomeRoute(m));
      EmptyMeansNoEntries(Extended(r, m));
      assert At(Extended(r, m), Lower(m.domain), HomeRoute(m));
    }
  }

  /** The early exits shared by the layer-4 setups. */
  predicate Refused(st: State, m: Mapping) {
    !ValidPort(m.listenPort) || m.l4Target == "" || TunnelPort(st.cfg, m.listenPort)
  }

  /** A TCP or TLS setup that is not refused: open, parse restrictions, extend, track. */
  lemma SetupPortShape(st: State, m: Mapping, env: Env) returns (st1: State, st2: State, r: Router)
    requires Structural(st) && (m.mode.Tcp? || m.mode.Tls?) && Setup(st, m, env).1
    ensures ValidPort(m.listenPort)
    ensures OpenPort(st, m.listenPort, env.tcpListenOk) == (st1, true)
    ensures Structural(st1) && st2 == ParseRestrictions(st1, m, env)
    ensures RouterFor(st2, m.listenPort) == Some(r)
    ensures Setup(st, m, env).0 ==
            SetRouter(st2, m.listenPort, Extended(r, m)).(svcPorts := TrackedAfter(st, m, true))
  {
    OpenPortEffect(st, m.listenPort, env.tcpListenOk);
    st1 := OpenPort(st, m.listenPort, env.tcpListenOk).0;
    ParseRestrictionsEffect(st1, m, env);
    st2 := ParseRestrictions(st1, m, env);
    r := RouterFor(st2, m.listenPort).value;
  }

  lemma SetupPortRefused(st: State, m: Mapping, env: Env)
    requires Structural(st) && (m.mode.Tcp? || m.mode.Tls?) && !Setup(st, m, env).1
    ensures Setup(st, m, env).0 == st
  {
    if !Refused(st, m) {
      OpenPortEffect(st, m.listenPort, env.tcpListenOk);
    }
  }

  lemma SetupPortOwnership(st: State, m: Mapping, env: Env)
    requires Structural(st) && (m.mode.Tcp? || m.mode.Tls?) && Setup(st, m, env).1
    ensures var st' := Setup(st, m, env).0;
            Structural(st') && Installed(st, st', m, true) && AtHome(st, st', m)
  {
    var st1, st2, r := SetupPortShape(st, m, env);
    OpenPortEffect(st, m.listenPort, env.tcpListenOk);
    ParseRestrictionsEffect(st1, m, env);
    SameRouters(st1, st2);
    ExtendEffect(st2, m, r);
    var st3 := SetRouter(st2, m.listenPort, Extended(r, m));
    SameRouters(st3, Setup(st, m, env).0);
    InstalledFrame(st, st2, st3, Setup(st, m, env).0, m, true);
  }

  /** A successful setup holds what was held after opening the port. */
  lemma SetupPortHoldings(st: State, m: Mapping, env: Env)
    requires Structural(st) && (m.mode.Tcp? || m.mode.Tls?) && Setup(st, m, env).1
    ensures SameHoldings(OpenPort(st, m.listenPort, env.tcpListenOk).0, Setup(st, m, env).0)
    ensures Balanced(st) ==> Balanced(Setup(st, m, env).0)
  {
    var st1, st2, r := SetupPortShape(st, m, env);
    OpenPortEffect(st, m.listenPort, env.tcpListenOk);
    ParseRestrictionsEffect(st1, m, env);
    SetRouterHoldings(st2, m.listenPort, Extended(r, m), TrackedAfter(st, m, true));
  }

  lemma SetRouterHoldings(st: State, p: Port, r: Router, ports: map<ServiceId, seq<Port>>)
    ensures SameHoldings(st, SetRouter(st, p, r).(svcPorts := ports))
    ensures Balanced(st) ==> Balanced(SetRouter(st, p, r).(svcPorts := ports))
  {
  }

  lemma SetupPortSound(st: State, m: Mapping, env: Env)
    requires Sound(st) && (m.mode.Tcp? || m.mode.Tls?) && Setup(st, m, env).1
    ensures Sound(Setup(st, m, env).0)
  {
    SetupPortOwnership(st, m, env);
    SetupPortHoldings(st, m, env);
    OpenPortEffect(st, m.listenPort, env.tcpListenOk);
    ConservedFrame(OpenPort(st, m.listenPort, env.tcpListenOk).0, Setup(st, m, env).0);
  }

  lemma SetRouterBusy(st: State, p: Port, r: Router)
    requires RouterFor(st, p).Some? && !IsEmpty(r)
    requires forall q :: q in st.portRouters && q != p ==> !IsEmpty(st.portRouters[q].router)
    requires IsMain(st.cfg, p) ==> p !in st.portRouters
    ensures AllBusy(SetRouter(st, p, r))
  {
  }

  lemma SetupPortBusy(st: State, m: Mapping, env: Env)
    requires Structural(st) && AllBusy(st) && (m.mode.Tcp? || (m.mode.Tls? && m.domain != ""))
    requires Setup(st, m, env).1
    ensures AllBusy(Setup(st, m, env).0)
  {
    var st1, st2, r := SetupPortShape(st, m, env);
    OpenPortEffect(st, m.listenPort, env.tcpListenOk);
    ParseRestrictionsEffect(st1, m, env);
    ExtendedIsBusy(r, m);
    SetRouterBusy(st2, m.listenPort, Extended(r, m));
  }

  lemma SetupPortEffect(st: State, m: Mapping, env: Env)
    requires Structural(st) && (m.mode.Tcp? || m.mode.Tls?)
    ensures var (st', ok) := Setup(st, m, env);
            && Structural(st') && Installed(st, st', m, ok) && (ok ==> AtHome(st, st', m))
            && st' == st.(main := st'.main, portRouters := st'.portRouters, listeners := st'.listeners,
                          registry := st'.registry, crowdsecServices := st'.crowdsecServices,
                          svcPorts := TrackedAfter(st, m, ok))
            && st.crowdsecServices <= st'.crowdsecServices <= st.crowdsecServices + {m.id}
  {
    if Setup(st, m, env).1 {
      SetupPortOwnership(st, m, env);
      var st1, st2, r := SetupPortShape(st, m, env);
      OpenPortEffect(st, m.listenPort, env.tcpListenOk);
      ParseRestrictionsEffect(st1, m, env);
    } else {
      SetupPortRefused(st, m, env);
    }
  }

  // ---------- Setup in every mode ----------

  lemma SetupEffect(st: State, m: Mapping, env: Env)
    requires Structural(st)
    ensures var (st', ok) := Setup(st, m, env);
            && Structural(st') && Installed(st, st', m, ok) && (ok ==> AtHome(st, st', m))
            && st'.cfg == st.cfg && st'.lastMappings == st.lastMappings
            && st'.svcPorts == TrackedAfter(st, m, ok)
            && st'.udpRelays - {m.id} == st.udpRelays - {m.id}
            && st.crowdsecServices <= st'.crowdsecServices <= st.crowdsecServices + {m.id}
  {
    match m.mode
    case Http => SetupHttpEffect(st, m, env);
    case Udp => SetupUdpEffect(st, m, env);
    case Tcp => SetupPortEffect(st, m, env);
    case Tls => SetupPortEffect(st, m, env);
  }

  lemma SetupSound(st: State, m: Mapping, env: Env)
    requires Sound(st)
    ensures Sound(Setup(st, m, env).0)
  {
    if m.mode.Http? {
      SetupHttpEffect(st, m, env);
    } else if m.mode.Udp? {
      SetupUdpSound(st, m, env);
    } else if Setup(st, m, env).1 {
      SetupPortSound(st, m, env);
    } else {
      SetupPortRefused(st, m, env);
    }
  }

  lemma SetupBusy(st: State, m: Mapping, env: Env)
    requires Structural(st) && AllBusy(st) && (m.mode.Tls? ==> m.domain != "")
    ensures AllBusy(Setup(st, m, env).0)
  {
    if m.mode.Http? {
      SetupHttpEffect(st, m, env);
    } else if m.mode.Udp? {
      SetupUdpEffect(st, m, env);
    } else if Setup(st, m, env).1 {
      SetupPortBusy(st, m, env);
    } else {
      SetupPortRefused(st, m, env);
    }
  }
}
