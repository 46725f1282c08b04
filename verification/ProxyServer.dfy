/** The mapping worker as the server runs it: tables updated in place, one update after the
    other. Each method is proved against the corresponding function of ProxyState. */
module ProxyServer {
  import opened Text
  import opened ProxyRouter
  import opened ProxyState
  import opened ProxyOwnership
  import opened ProxySafety
  import opened ProxyGuarantees

  class Server {
    const cfg: Config
    var main: Router
    var portRouters: map<Port, PortRouter>
    var svcPorts: map<ServiceId, seq<Port>>
    var lastMappings: map<ServiceId, Mapping>
    var udpRelays: map<ServiceId, nat>
    var crowdsecServices: set<ServiceId>
    var registry: Registry
    var listeners: seq<Listener>

    ghost function View(): State
      reads this
    {
      State(cfg, main, portRouters, svcPorts, lastMappings, udpRelays, crowdsecServices, registry, listeners)
    }

    constructor (cfg: Config)
      ensures View() == Initial(cfg)
      ensures Inv(View())
    {
      this.cfg := cfg;
      main := EMPTY_ROUTER;
      portRouters, svcPorts, lastMappings, udpRelays := map[], map[], map[], map[];
      crowdsecServices := {};
      registry := Registry({}, false);
      listeners := [];
      new;
      InitialInv(cfg);
    }

    method ParseRestrictions(m: Mapping, env: Env)
      modifies this
      ensures View() == ProxyState.ParseRestrictions(old(View()), m, env)
    {
      if m.crowdsec {
        var (reg, got) := Acquire(registry, m.id, cfg.crowdsecConfigured, env.bouncerStarts);
        registry := reg;
        if got {
          crowdsecServices := crowdsecServices + {m.id};
        }
      }
    }

    method ReleaseCrowdSec(svc: ServiceId)
      modifies this
      ensures View() == ProxyState.ReleaseCrowdSec(old(View()), svc)
    {
      var had := svc in crowdsecServices;
      crowdsecServices := crowdsecServices - {svc};
      if had {
        registry := Release(registry, svc);
      }
    }

    method CloseListener(i: nat)
      modifies this`listeners
      ensures listeners == CloseOnce(old(listeners), i)
    {
      if i < |listeners| {
        listeners := listeners[i := listeners[i].(closes := listeners[i].closes + 1)];
      }
    }

    /** Returns the router for an existing slot. */
    method RouterForPortExisting(p: Port) returns (r: Option<Router>)
      ensures r == RouterFor(View(), p)
    {
      if p == 0 || p == cfg.mainPort {
        return Some(main);
      }
      if p in portRouters {
        return Some(portRouters[p].router);
      }
      return None;
    }

    /** Writes back an edited router. */
    method UpdateRouter(p: Port, r: Router)
      modifies this
      ensures View() == SetRouter(old(View()), p, r)
    {
      if p == 0 || p == cfg.mainPort {
        main := r;
      } else if p in portRouters {
        portRouters := portRouters[p := portRouters[p].(router := r)];
      }
    }

    method RouterForPort(p: Port, listenOk: bool) returns (ok: bool)
      modifies this
      ensures (View(), ok) == OpenPort(old(View()), p, listenOk)
    {
      if p == 0 || p == cfg.mainPort || p in portRouters {
        return true;
      }
      if !listenOk {
        return false;
      }
      portRouters := portRouters[p := PortRouter(EMPTY_ROUTER, |listeners|)];
      listeners := listeners + [Listener(TcpListener(p), 0)];
      return true;
    }

    method CleanupPortIfEmpty(p: Port)
      modifies this
      ensures View() == ClosePortIfEmpty(old(View()), p)
    {
      if p == 0 || p == cfg.mainPort {
        return;
      }
      if p !in portRouters || !IsEmpty(portRouters[p].router) {
        return;
      }
      CloseListener(portRouters[p].listener);
      portRouters := portRouters - {p};
    }

    method RemoveUDPRelay(svc: ServiceId)
      modifies this
      ensures View() == RemoveRelay(old(View()), svc)
    {
      if svc in udpRelays {
        var i := udpRelays[svc];
        udpRelays := udpRelays - {svc};
        CloseListener(i);
      }
    }

    /** Cleanup of one tracked port. */
    method CleanupEntry(m: Mapping, p: Port)
      modifies this
      ensures View() == CleanPort(old(View()), m, p)
    {
      var r := RouterForPortExisting(p);
      if r.Some? {
        if m.domain != "" {
          UpdateRouter(p, RemoveRoute(r.value, m.domain, m.id));
        } else {
          UpdateRouter(p, RemoveFallback(r.value, m.id));
        }
      }
      CleanupPortIfEmpty(p);
    }

    method CleanupMappingRoutes(m: Mapping)
      modifies this
      ensures View() == Cleanup(old(View()), m)
    {
      if m.domain != "" {
        main := RemoveRoute(main, m.domain, m.id);
      }
      var entries := if m.id in svcPorts then svcPorts[m.id] else [];
      svcPorts := svcPorts - {m.id};
      ghost var start := View();
      for k := 0 to |entries|
        invariant View() == CleanPorts(start, m, entries[..k])
      {
        CleanupEntry(m, entries[k]);
        assert entries[..k + 1][..k] == entries[..k];
      }
      assert entries[..|entries|] == entries;
      RemoveUDPRelay(m.id);
      ReleaseCrowdSec(m.id);
    }

    method SetupHTTPMapping(m: Mapping, env: Env) returns (ok: bool)
      modifies this
      ensures (View(), ok) == SetupHttp(old(View()), m, env)
    {
      if !m.hasPath {
        return true;
      }
      main := AddRoute(main, m.domain, Route(m.id, HttpRoute, ""));
      ParseRestrictions(m, env);
      return env.authOk;
    }

    method SetupTCPMapping(m: Mapping, env: Env) returns (ok: bool)
      modifies this
      ensures (View(), ok) == SetupTcp(old(View()), m, env)
    {
      if !ValidPort(m.listenPort) || m.l4Target == "" || TunnelPort(cfg, m.listenPort) {
        return false;
      }
      ok := RouterForPort(m.listenPort, env.tcpListenOk);
      if !ok {
        return false;
      }
      ParseRestrictions(m, env);
      var r := RouterForPortExisting(m.listenPort);
      if r.Some? {
        UpdateRouter(m.listenPort, SetFallback(r.value, Route(m.id, TcpRoute, m.l4Target)));
      }
      svcPorts := svcPorts[m.id := [m.listenPort]];
    }

    method SetupTLSMapping(m: Mapping, env: Env) returns (ok: bool)
      modifies this
      ensures (View(), ok) == SetupTls(old(View()), m, env)
    {
      if !ValidPort(m.listenPort) || m.l4Target == "" || TunnelPort(cfg, m.listenPort) {
        return false;
      }
      ok := RouterForPort(m.listenPort, env.tcpListenOk);
      if !ok {
        return false;
      }
      ParseRestrictions(m, env);
      var r := RouterForPortExisting(m.listenPort);
      if r.Some? {
        UpdateRouter(m.listenPort, AddRoute(r.value, m.domain, Route(m.id, TcpRoute, m.l4Target)));
      }
      if m.listenPort != cfg.mainPort {
        svcPorts := svcPorts[m.id := [m.listenPort]];
      }
    }

    method SetupUDPMapping(m: Mapping, env: Env) returns (ok: bool)
      modifies this
      ensures (View(), ok) == SetupUdp(old(View()), m, env)
    {
      if !ValidPort(m.listenPort) || m.l4Target == "" || TunnelPort(cfg, m.listenPort) {
        return false;
      }
      RemoveUDPRelay(m.id);
      if !env.udpListenOk {
        return false;
      }
      var i := |listeners|;
      listeners := listeners + [Listener(UdpListener(m.id, m.listenPort), 0)];
      if !env.dialerOk {
        CloseListener(i);
        return false;
      }
      ParseRestrictions(m, env);
      udpRelays := udpRelays[m.id := i];
      return true;
    }

    method SetupMappingRoutes(m: Mapping, env: Env) returns (ok: bool)
      modifies this
      ensures (View(), ok) == Setup(old(View()), m, env)
    {
      match m.mode {
        case Tcp => ok := SetupTCPMapping(m, env);
        case Udp => ok := SetupUDPMapping(m, env);
        case Tls => ok := SetupTLSMapping(m, env);
        case Http => ok := SetupHTTPMapping(m, env);
      }
    }

    method AddMapping(m: Mapping, env: Env) returns (ok: bool)
      modifies this
      ensures (View(), ok) == ProxyState.AddMapping(old(View()), m, env)
    {
      if !env.peerOk {
        return false;
      }
      ok := SetupMappingRoutes(m, env);
      if !ok {
        CleanupMappingRoutes(m);
        return false;
      }
      lastMappings := lastMappings[m.id := m];
    }

    method ModifyMapping(m: Mapping, env: Env) returns (ok: bool)
      modifies this
      ensures (View(), ok) == ProxyState.ModifyMapping(old(View()), m, env)
    {
      if m.id in lastMappings {
        CleanupMappingRoutes(lastMappings[m.id]);
      } else {
        CleanupMappingRoutes(m);
      }
      ok := SetupMappingRoutes(m, env);
      if !ok {
        CleanupMappingRoutes(m);
        return false;
      }
      lastMappings := lastMappings[m.id := m];
    }

    method RemoveMapping(m: Mapping)
      modifies this
      ensures View() == ProxyState.RemoveMapping(old(View()), m)
    {
      var known := if m.id in lastMappings then lastMappings[m.id] else m;
      lastMappings := lastMappings - {m.id};
      CleanupMappingRoutes(known);
    }

    method ProcessOne(u: Update, env: Env)
      modifies this
      ensures View() == Step(old(View()), u, env).0
    {
      match u.kind {
        case Created => var _ := AddMapping(u.mapping, env);
        case Modified => var _ := ModifyMapping(u.mapping, env);
        case Removed => RemoveMapping(u.mapping);
      }
    }

    /** Processes a batch; a failed update is reported and the rest goes on. */
    method ProcessMappings(us: seq<Update>, envs: seq<Env>)
      requires |us| == |envs|
      modifies this
      ensures View() == Run(old(View()), us, envs)
      ensures old(Sound(View())) ==> Sound(View())
      ensures old(Inv(View())) && WellFormedRun(old(View()), us, envs) ==> Inv(View())
    {
      for k := 0 to |us|
        invariant View() == Run(old(View()), us[..k], envs[..k])
      {
        ProcessOne(us[k], envs[k]);
        assert us[..k + 1][..k] == us[..k] && envs[..k + 1][..k] == envs[..k];
      }
      assert us[..|us|] == us && envs[..|us|] == envs;
      if old(Sound(View())) {
        RunKeepsSound(old(View()), us, envs);
      }
      if old(Inv(View())) && WellFormedRun(old(View()), us, envs) {
        RunKeepsInv(old(View()), us, envs);
      }
    }

    /** Closes every relay, in any order. */
    method CloseRelays()
      requires DistinctRelays(udpRelays)
      requires forall s :: s in udpRelays ==> udpRelays[s] < |listeners|
      modifies this`listeners, this`udpRelays
      ensures udpRelays == map[] && RelaysClosed(old(udpRelays), map[], old(listeners), listeners)
    {
      ghost var relays, ls := udpRelays, listeners;
      while udpRelays != map[]
        invariant udpRelays.Keys <= relays.Keys
        invariant forall s :: s in udpRelays ==> udpRelays[s] == relays[s]
        invariant RelaysClosed(relays, udpRelays, ls, listeners)
        decreases |udpRelays|
      {
        var s :| s in udpRelays;
        RelayClosedStep(relays, udpRelays, s, ls, listeners);
        CloseListener(udpRelays[s]);
        udpRelays := udpRelays - {s};
      }
    }

    /** Closes every per-port listener, in any order. */
    method ClosePorts()
      requires DistinctListeners(portRouters)
      requires forall p :: p in portRouters ==> portRouters[p].listener < |listeners|
      modifies this`listeners, this`portRouters
      ensures portRouters == map[] && PortsClosed(old(portRouters), map[], old(listeners), listeners)
    {
      ghost var routers, ls := portRouters, listeners;
      while portRouters != map[]
        invariant portRouters.Keys <= routers.Keys
        invariant forall p :: p in portRouters ==> portRouters[p] == routers[p]
        invariant PortsClosed(routers, portRouters, ls, listeners)
        decreases |portRouters|
      {
        var p :| p in portRouters;
        PortClosedStep(routers, portRouters, p, ls, listeners);
        CloseListener(portRouters[p].listener);
        portRouters := portRouters - {p};
      }
    }

    method CloseAll()
      requires Conserved(View())
      modifies this`listeners, this`udpRelays, this`portRouters
      ensures listeners == Shutdown(old(View())).listeners
      ensures udpRelays == map[] && portRouters == map[]
    {
      ghost var st := View();
      CloseRelays();
      ClosePorts();
      forall i | 0 <= i < |listeners| ensures listeners[i] == Shutdown(st).listeners[i] {
        LiveMeansHeldOnce(st, i);
        DoneMeansHeld(st, i);
      }
    }

    method ShutdownCrowdSec()
      modifies this`registry, this`crowdsecServices
      ensures registry == ReleaseAll(old(registry), old(crowdsecServices)) && crowdsecServices == {}
    {
      var services := crowdsecServices;
      crowdsecServices := {};
      var todo := services;
      while todo != {}
        invariant todo <= services && crowdsecServices == {}
        invariant registry == ReleaseAll(old(registry), services - todo)
        decreases |todo|
      {
        var svc :| svc in todo;
        registry := Release(registry, svc);
        assert services - (todo - {svc}) == services - todo + {svc};
        todo := todo - {svc};
      }
      assert services - todo == services;
    }

    method ShutdownServices()
      requires Conserved(View())
      modifies this
      ensures View() == Shutdown(old(View()))
      ensures old(Sound(View())) ==>
                registry == Registry({}, false) && forall i :: 0 <= i < |listeners| ==> listeners[i].closes == 1
    {
      CloseAll();
      svcPorts, lastMappings := map[], map[];
      ShutdownCrowdSec();
      if old(Sound(View())) {
        ShutdownClosesEverything(old(View()));
      }
    }
  }

  function ClosedIf(l: Listener, done: bool): Listener {
    if done then l.(closes := l.closes + 1) else l
  }

  predicate DistinctListeners(prs: map<Port, PortRouter>) {
    forall p, q :: p in prs && q in prs && p != q ==> prs[p].listener != prs[q].listener
  }

  predicate DistinctRelays(relays: map<ServiceId, nat>) {
    forall s, t :: s in relays && t in relays && s != t ==> relays[s] != relays[t]
  }

  /** Listener `i` was a relay's and that relay is no longer among the remaining ones. */
  ghost predicate RelayDone(relays: map<ServiceId, nat>, left: map<ServiceId, nat>, i: nat) {
    exists s :: s in relays && s !in left && relays[s] == i
  }

  ghost predicate PortDone(prs: map<Port, PortRouter>, left: map<Port, PortRouter>, i: nat) {
    exists p :: p in prs && p !in left && prs[p].listener == i
  }

  /** From `ls` to `now` exactly the listeners of the relays that are done were closed, once each. */
  ghost predicate RelaysClosed(relays: map<ServiceId, nat>, left: map<ServiceId, nat>,
                               ls: seq<Listener>, now: seq<Listener>)
  {
    |now| == |ls| && forall i :: 0 <= i < |ls| ==> now[i] == ClosedIf(ls[i], RelayDone(relays, left, i))
  }

  ghost predicate PortsClosed(prs: map<Port, PortRouter>, left: map<Port, PortRouter>,
                              ls: seq<Listener>, now: seq<Listener>)
  {
    |now| == |ls| && forall i :: 0 <= i < |ls| ==> now[i] == ClosedIf(ls[i], PortDone(prs, left, i))
  }

  lemma RelayDoneStep(relays: map<ServiceId, nat>, left: map<ServiceId, nat>, s: ServiceId, i: nat)
    requires DistinctRelays(relays) && s in left && left.Keys <= relays.Keys
    ensures !RelayDone(relays, left, relays[s])
    ensures RelayDone(relays, left - {s}, i) <==> RelayDone(relays, left, i) || i == relays[s]
  {
    if i == relays[s] {
      assert s !in left - {s};
    }
  }

  lemma RelayClosedStep(relays: map<ServiceId, nat>, left: map<ServiceId, nat>, s: ServiceId,
                        ls: seq<Listener>, now: seq<Listener>)
    requires DistinctRelays(relays) && s in left && left.Keys <= relays.Keys && RelaysClosed(relays, left, ls, now)
    ensures RelaysClosed(relays, left - {s}, ls, CloseOnce(now, relays[s]))
  {
    forall i | 0 <= i < |ls|
      ensures CloseOnce(now, relays[s])[i] == ClosedIf(ls[i], RelayDone(relays, left - {s}, i))
    {
      RelayDoneStep(relays, left, s, i);
    }
  }

  lemma PortDoneStep(prs: map<Port, PortRouter>, left: map<Port, PortRouter>, p: Port, i: nat)
    requires DistinctListeners(prs) && p in left && left.Keys <= prs.Keys
    ensures !PortDone(prs, left, prs[p].listener)
    ensures PortDone(prs, left - {p}, i) <==> PortDone(prs, left, i) || i == prs[p].listener
  {
    if i == prs[p].listener {
      assert p !in left - {p};
    }
  }

  lemma PortClosedStep(prs: map<Port, PortRouter>, left: map<Port, PortRouter>, p: Port,
                       ls: seq<Listener>, now: seq<Listener>)
    requires DistinctListeners(prs) && p in left && left.Keys <= prs.Keys && PortsClosed(prs, left, ls, now)
    ensures PortsClosed(prs, left - {p}, ls, CloseOnce(now, prs[p].listener))
  {
    forall i | 0 <= i < |ls|
      ensures CloseOnce(now, prs[p].listener)[i] == ClosedIf(ls[i], PortDone(prs, left - {p}, i))
    {
      PortDoneStep(prs, left, p, i);
    }
  }

  lemma DoneMeansHeld(st: State, i: nat)
    ensures Held(st, i) <==> RelayDone(st.udpRelays, map[], i) || PortDone(st.portRouters, map[], i)
  {
  }
}
