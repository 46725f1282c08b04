/** What the invariant of the mapping worker means: no orphan listeners, every listener accounted
    for, clean shutdown, and exactly which setups break it. */
module ProxyGuarantees {
  import opened Text
  import opened ProxyRouter
  import opened ProxyState
  import opened ProxyOwnership
  import opened ProxySetup
  import opened ProxySafety

  // ---------- Listeners ----------

  ghost predicate UsesPort(st: State, s: ServiceId, p: Port) {
    && s in st.svcPorts && p in st.svcPorts[s]
    && ((exists h, x :: RouteIn(st, p, h, x) && x.svc == s) || (exists x :: FallbackIn(st, p, x) && x.svc == s))
  }

  /** Each per-port router serves a stored service that tracks the port. */
  lemma NoOrphanListeners(st: State, p: Port)
    requires Inv(st) && p in st.portRouters
    ensures exists s :: s in st.lastMappings && UsesPort(st, s, p)
  {
    var r := st.portRouters[p].router;
    EmptyMeansNoEntries(r);
    var s: ServiceId;
    if r.fallback.Some? {
      s := r.fallback.value.svc;
      assert FallbackIn(st, p, r.fallback.value);
    } else {
      var h, x :| At(r, h, x);
      s := x.svc;
      assert RouteIn(st, p, h, x);
    }
    assert InPlace(st, s);
    assert Hits(st.cfg, PortsOf(st, s), p);
    assert UsesPort(st, s, p);
  }

  ghost predicate Live(st: State, i: nat) {
    i < |st.listeners| && st.listeners[i].closes == 0
  }

  /** A listener is under exactly one key while it is open and under none once it is closed. */
  lemma LiveMeansHeldOnce(st: State, i: nat)
    requires Conserved(st) && i < |st.listeners|
    ensures st.listeners[i].closes <= 1
    ensures Live(st, i) <==>
            ((exists p :: p in st.portRouters && st.portRouters[p].listener == i) ||
             (exists s :: s in st.udpRelays && st.udpRelays[s] == i))
    ensures forall p, q | p in st.portRouters && q in st.portRouters ::
              st.portRouters[p].listener == i && st.portRouters[q].listener == i ==> p == q
    ensures forall s, t | s in st.udpRelays && t in st.udpRelays ::
              st.udpRelays[s] == i && st.udpRelays[t] == i ==> s == t
    ensures forall p, s :: p in st.portRouters && s in st.udpRelays ==>
              !(st.portRouters[p].listener == i && st.udpRelays[s] == i)
  {
    assert Accounted(st, i);
  }

  /** Listeners on the same TCP port, or for the same UDP service. */
  predicate SameKey(a: Resource, b: Resource) {
    match (a, b)
    case (TcpListener(p), TcpListener(q)) => p == q
    case (UdpListener(s, _), UdpListener(t, _)) => s == t
    case _ => false
  }

  /** At most one listener is open per TCP port, and at most one UDP listener per service. */
  lemma OneLiveListenerEach(st: State, i: nat, j: nat)
    requires Conserved(st) && Live(st, i) && Live(st, j) && SameKey(st.listeners[i].what, st.listeners[j].what)
    ensures i == j
  {
    assert Accounted(st, i) && Accounted(st, j);
  }

  // ---------- Ports ----------

  /** A port that may be listened on: in range, not the tunnel port, and for TCP not the main port. */
  predicate ProperListener(cfg: Config, what: Resource) {
    ValidPort(what.port) && !TunnelPort(cfg, what.port) && (what.TcpListener? ==> what.port != cfg.mainPort)
  }

  predicate OpenedProperly(st: State) {
    forall i :: 0 <= i < |st.listeners| ==> ProperListener(st.cfg, st.listeners[i].what)
  }

  /** The same listeners were opened, though more of them may be closed. */
  predicate SameOpened(a: seq<Listener>, b: seq<Listener>) {
    |a| == |b| && forall i :: 0 <= i < |a| ==> a[i].what == b[i].what
  }

  lemma CloseOnceOpensNothing(ls: seq<Listener>, i: nat)
    ensures SameOpened(ls, CloseOnce(ls, i))
  {
  }

  lemma ClosePortOpensNothing(st: State, p: Port)
    ensures SameOpened(st.listeners, ClosePortIfEmpty(st, p).listeners) && ClosePortIfEmpty(st, p).cfg == st.cfg
  {
    if p in st.portRouters {
      CloseOnceOpensNothing(st.listeners, st.portRouters[p].listener);
    }
  }

  lemma PruneKeepsListeners(st: State, m: Mapping, p: Port)
    ensures PrunePort(st, m, p).listeners == st.listeners && PrunePort(st, m, p).cfg == st.cfg
    ensures CleanPort(st, m, p) == ClosePortIfEmpty(PrunePort(st, m, p), p)
  {
  }

  lemma CleanPortOpensNothing(st: State, m: Mapping, p: Port)
    ensures SameOpened(st.listeners, CleanPort(st, m, p).listeners) && CleanPort(st, m, p).cfg == st.cfg
  {
    PruneKeepsListeners(st, m, p);
    ClosePortOpensNothing(PrunePort(st, m, p), p);
  }

  lemma {:induction false} CleanPortsOpensNothing(st: State, m: Mapping, ps: seq<Port>)
    ensures SameOpened(st.listeners, CleanPorts(st, m, ps).listeners)
    ensures CleanPorts(st, m, ps).cfg == st.cfg
  {
    if ps != [] {
      var front := ps[..|ps| - 1];
      CleanPortsOpensNothing(st, m, front);
      CleanPortOpensNothing(CleanPorts(st, m, front), m, ps[|ps| - 1]);
    }
  }

  lemma RemoveRelayOpensNothing(st: State, s: ServiceId)
    ensures SameOpened(st.listeners, RemoveRelay(st, s).listeners) && RemoveRelay(st, s).cfg == st.cfg
  {
    if s in st.udpRelays {
      CloseOnceOpensNothing(st.listeners, st.udpRelays[s]);
    }
  }

  lemma CleanupOpensNothing(st: State, m: Mapping)
    ensures SameOpened(st.listeners, Cleanup(st, m).listeners) && Cleanup(st, m).cfg == st.cfg
  {
    var st1 := Untrack(st, m);
    CleanPortsOpensNothing(st1, m, PortsOf(st, m.id));
    var st2 := CleanPorts(st1, m, PortsOf(st, m.id));
    RemoveRelayOpensNothing(st2, m.id);
    assert Cleanup(st, m) == ReleaseCrowdSec(RemoveRelay(st2, m.id), m.id);
  }

  /** The listeners are the same, or there is one more for the mapping's port. */
  predicate OneMore(a: seq<Listener>, b: seq<Listener>, what: Resource) {
    |b| == |a| + 1 && (forall i :: 0 <= i < |a| ==> b[i].what == a[i].what) && b[|a|].what == what
  }

  lemma SetupPortListeners(st: State, m: Mapping, env: Env)
    requires Structural(st) && (m.mode.Tcp? || m.mode.Tls?)
    ensures var ls := Setup(st, m, env).0.listeners;
            ls == st.listeners ||
            (!Refused(st, m) && m.listenPort != st.cfg.mainPort && OneMore(st.listeners, ls, TcpListener(m.listenPort)))
  {
    if Setup(st, m, env).1 {
      var st1, st2, r := SetupPortShape(st, m, env);
      assert Setup(st, m, env).0.listeners == st1.listeners;
    } else {
      SetupPortRefused(st, m, env);
    }
  }

  lemma SetupUdpListeners(st: State, m: Mapping, env: Env)
    requires m.mode.Udp?
    ensures var ls := Setup(st, m, env).0.listeners;
            SameOpened(st.listeners, ls) ||
            (!Refused(st, m) && OneMore(st.listeners, ls, UdpListener(m.id, m.listenPort)))
  {
    if !Refused(st, m) {
      var ls := RemoveRelay(st, m.id).listeners;
      RemoveRelayOpensNothing(st, m.id);
      CloseOnceOpensNothing(ls + [Listener(UdpListener(m.id, m.listenPort), 0)], |ls|);
    }
  }

  lemma SetupOpensProperly(st: State, m: Mapping, env: Env)
    requires Structural(st) && OpenedProperly(st)
    ensures OpenedProperly(Setup(st, m, env).0)
  {
    SetupEffect(st, m, env);
    match m.mode
    case Http => SetupHttpEffect(st, m, env);
    case Udp => SetupUdpListeners(st, m, env);
    case Tcp => SetupPortListeners(st, m, env);
    case Tls => SetupPortListeners(st, m, env);
  }

  lemma FinishOpensProperly(st: State, m: Mapping, env: Env)
    requires Structural(st) && OpenedProperly(st)
    ensures OpenedProperly(Finish(st, m, env).0)
  {
    SetupOpensProperly(st, m, env);
    CleanupOpensNothing(Setup(st, m, env).0, m);
  }

  /** No update, well formed or not, opens a listener on the tunnel port, on a port out of range, or a
      second TCP listener on the main port. */
  lemma StepOpensProperly(st: State, u: Update, env: Env)
    requires Structural(st) && OpenedProperly(st)
    ensures OpenedProperly(Step(st, u, env).0)
  {
    var m := u.mapping;
    var known := Known(st, m);
    match u.kind
    case Created => FinishOpensProperly(st, m, env);
    case Modified =>
      CleanupOpensNothing(st, known);
      CleanupEffect(st, known);
      FinishOpensProperly(Cleanup(st, known), m, env);
    case Removed =>
      CleanupOpensNothing(st.(lastMappings := st.lastMappings - {m.id}), known);
  }

  /** ... and no stream does. */
  lemma {:induction false} RunOpensProperly(st: State, us: seq<Update>, envs: seq<Env>)
    requires |us| == |envs| && Sound(st) && OpenedProperly(st)
    ensures OpenedProperly(Run(st, us, envs))
  {
    if us != [] {
      var n := |us| - 1;
      RunOpensProperly(st, us[..n], envs[..n]);
      RunKeepsSound(st, us[..n], envs[..n]);
      StepOpensProperly(Run(st, us[..n], envs[..n]), us[n], envs[n]);
    }
  }

  // ---------- Shutdown ----------

  ghost predicate Held(st: State, i: nat) {
    || (exists p :: p in st.portRouters && st.portRouters[p].listener == i)
    || (exists s :: s in st.udpRelays && st.udpRelays[s] == i)
  }

  /** Every held listener is closed once more, the tables are emptied and the recorded CrowdSec
      references are released. */
  ghost function Shutdown(st: State): State {
    var ls := seq(|st.listeners|, i requires 0 <= i < |st.listeners| =>
                    if Held(st, i) then st.listeners[i].(closes := st.listeners[i].closes + 1)
                    else st.listeners[i]);
    st.(portRouters := map[], udpRelays := map[], svcPorts := map[], lastMappings := map[],
        crowdsecServices := {}, listeners := ls,
        registry := ReleaseAll(st.registry, st.crowdsecServices))
  }

  /** The registry after releasing a set of services in any order. */
  function ReleaseAll(reg: Registry, svcs: set<ServiceId>): Registry {
    Registry(reg.refs - svcs, reg.running && (svcs == {} || reg.refs - svcs != {}))
  }

  /** After shutdown every listener ever opened was closed exactly once, nobody holds a CrowdSec
      reference and the bouncer is stopped. */
  lemma ShutdownClosesEverything(st: State)
    requires Sound(st)
    ensures var st' := Shutdown(st);
            && (forall i :: 0 <= i < |st'.listeners| ==> st'.listeners[i].closes == 1)
            && |st'.listeners| == |st.listeners|
            && st'.registry == Registry({}, false)
            && Conserved(st') && Balanced(st')
  {
    var st' := Shutdown(st);
    forall i | 0 <= i < |st'.listeners| ensures st'.listeners[i].closes == 1 {
      LiveMeansHeldOnce(st, i);
      assert Held(st, i) <==> Live(st, i);
    }
  }

  /** However the stream looked, shutting down after it leaves nothing open and nothing held. */
  lemma AnyRunShutsDownClean(cfg: Config, us: seq<Update>, envs: seq<Env>)
    requires |us| == |envs|
    ensures var st := Shutdown(Run(Initial(cfg), us, envs));
            && (forall i :: 0 <= i < |st.listeners| ==>
                  st.listeners[i].closes == 1 && ProperListener(cfg, st.listeners[i].what))
            && st.registry == Registry({}, false)
  {
    var st := Run(Initial(cfg), us, envs);
    RunKeepsSound(Initial(cfg), us, envs);
    RunOpensProperly(Initial(cfg), us, envs);
    RunKeepsConfig(Initial(cfg), us, envs);
    ShutdownClosesEverything(st);
  }

  lemma {:induction false} RunKeepsConfig(st: State, us: seq<Update>, envs: seq<Env>)
    requires |us| == |envs| && Sound(st)
    ensures Run(st, us, envs).cfg == st.cfg
  {
    if us != [] {
      var n := |us| - 1;
      RunKeepsConfig(st, us[..n], envs[..n]);
      RunKeepsSound(st, us[..n], envs[..n]);
      StepKeepsConfig(Run(st, us[..n], envs[..n]), us[n], envs[n]);
    }
  }

  lemma StepKeepsConfig(st: State, u: Update, env: Env)
    requires Structural(st)
    ensures Step(st, u, env).0.cfg == st.cfg
  {
    var m := u.mapping;
    var known := Known(st, m);
    match u.kind
    case Created => FinishKeepsConfig(st, m, env);
    case Modified =>
      CleanupEffect(st, known);
      FinishKeepsConfig(Cleanup(st, known), m, env);
    case Removed => CleanupEffect(st.(lastMappings := st.lastMappings - {m.id}), known);
  }

  lemma FinishKeepsConfig(st: State, m: Mapping, env: Env)
    requires Structural(st)
    ensures Finish(st, m, env).0.cfg == st.cfg
  {
    SetupEffect(st, m, env);
    CleanupEffect(Setup(st, m, env).0, m);
  }

  // ---------- Ownership: exactly which setups break it ----------

  /** Entries of the service before and after a successful setup, with the new ports tracked in both
      states. */
  lemma InstalledOwnershipExact(a: State, b: State, m: Mapping)
    requires Installed(a, b, m, true) && AtHome(a, b, m) && b.cfg == a.cfg && PortsOf(a, m.id) == PortsOf(b, m.id)
    requires m.mode.Tcp? || (m.mode.Tls? && HomeSlot(a, m) != 0) ==> Hits(a.cfg, PortsOf(a, m.id), HomeSlot(a, m))
    ensures Covers(b, m) <==> (m.mode.Tcp? ==> m.domain == "") && Covers(a, m)
  {
    if Covers(b, m) {
      forall p, h, x | RouteIn(a, p, h, x) && x.svc == m.id
        ensures m.domain != "" && h == Lower(m.domain) && (p == 0 || Hits(a.cfg, PortsOf(a, m.id), p))
      {
        assert RouteIn(b, p, h, x) || RouteIn(b, p, h, HomeRoute(m));
      }
      forall p, x | FallbackIn(a, p, x) && x.svc == m.id
        ensures m.domain == "" && Hits(a.cfg, PortsOf(a, m.id), p)
      {
        assert FallbackIn(b, p, x) || FallbackIn(b, p, HomeRoute(m));
      }
    }
  }

  /** A setup that succeeds leaves all entries of its service where cleanup of the mapping will
      find them exactly when a TCP mapping has no domain and every earlier entry of the
      service lies at the mapping's domain on the main router or the newly tracked port. */
  lemma SetupOwnershipExact(st: State, m: Mapping, env: Env)
    requires Structural(st) && Setup(st, m, env).1
    ensures Covers(Setup(st, m, env).0, m) <==>
            (m.mode.Tcp? ==> m.domain == "") && Covers(st.(svcPorts := TrackedAfter(st, m, true)), m)
  {
    var st' := Setup(st, m, env).0;
    var st1 := st.(svcPorts := TrackedAfter(st, m, true));
    SetupEffect(st, m, env);
    SameRouters(st1, st);
    InstalledFrame(st1, st, st', st', m, true);
    if m.mode.Tcp? || m.mode.Tls? {
      SetupPortValid(st, m, env);
      if m.listenPort != st.cfg.mainPort || m.mode.Tcp? {
        assert PortsOf(st1, m.id) == [m.listenPort];
        assert m.listenPort in PortsOf(st1, m.id);
      }
    }
    InstalledOwnershipExact(st1, st', m);
  }

  /** A TLS mapping without a domain leaves the routers as they are after opening the port. */
  lemma NamelessTlsRouters(st: State, m: Mapping, env: Env)
    requires Structural(st) && m.mode.Tls? && m.domain == "" && Setup(st, m, env).1
    ensures Setup(st, m, env).0.portRouters == OpenPort(st, m.listenPort, env.tcpListenOk).0.portRouters
    ensures OpenPort(st, m.listenPort, env.tcpListenOk).1
  {
    var st1, st2, r := SetupPortShape(st, m, env);
    assert Extended(r, m) == r;
    if m.listenPort in st2.portRouters {
      assert st2.portRouters[m.listenPort := st2.portRouters[m.listenPort]] == st2.portRouters;
    }
  }

  /** After a successful setup no port is left open for nothing, except when a TLS mapping
      without a domain opened the port: AddRoute ignores an empty host. */
  lemma SetupBusyExact(st: State, m: Mapping, env: Env)
    requires Structural(st) && AllBusy(st) && Setup(st, m, env).1
    ensures AllBusy(Setup(st, m, env).0) <==>
            !(m.mode.Tls? && m.domain == "" && HomeSlot(st, m) != 0 && HomeSlot(st, m) !in st.portRouters)
  {
    if m.mode.Tls? && m.domain == "" {
      NamelessTlsRouters(st, m, env);
      SetupPortValid(st, m, env);
      NewPortIsEmpty(st, m.listenPort, env.tcpListenOk);
    } else {
      SetupBusy(st, m, env);
    }
  }

  lemma NewPortIsEmpty(st: State, p: Port, listenOk: bool)
    requires AllBusy(st) && OpenPort(st, p, listenOk).1
    ensures AllBusy(OpenPort(st, p, listenOk).0) <==> IsMain(st.cfg, p) || p in st.portRouters
  {
    var st' := OpenPort(st, p, listenOk).0;
    if !IsMain(st.cfg, p) && p !in st.portRouters {
      assert p in st'.portRouters && IsEmpty(st'.portRouters[p].router);
    }
  }
}
