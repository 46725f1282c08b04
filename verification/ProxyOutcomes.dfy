/** What each update of the mapping worker does in each of its outcomes, to its own service and to
    everybody else, and what becomes of a service over a whole stream. */
module ProxyOutcomes {
  import opened Text
  import opened ProxyRouter
  import opened ProxyState
  import opened ProxyOwnership
  import opened ProxySetup
  import opened ProxySafety
  import opened ProxyGuarantees
  import opened ProxyServing

  // ---------- When a setup succeeds ----------

  /** A layer-4 mapping has a port in range that is not the tunnel port, and a target. */
  predicate Admitted(cfg: Config, m: Mapping) {
    && 0 < m.listenPort <= 65535 && m.l4Target != ""
    && !(cfg.wireguardPort != 0 && m.listenPort == cfg.wireguardPort)
  }

  /** Whether a setup succeeds; `isOpen` says that the mapping's port has a router already. */
  predicate Possible(cfg: Config, isOpen: bool, m: Mapping, env: Env) {
    match m.mode
    case Http => !m.hasPath || env.authOk
    case Udp => Admitted(cfg, m) && env.udpListenOk && env.dialerOk
    case Tcp => Admitted(cfg, m) && (isOpen || env.tcpListenOk)
    case Tls => Admitted(cfg, m) && (isOpen || env.tcpListenOk)
  }

  /** The port belongs to the main router or has one of its own. */
  predicate IsOpen(st: State, p: int) {
    p == st.cfg.mainPort || (p >= 0 && p in st.portRouters)
  }

  /** Setup succeeds, in every mode, exactly when it is possible. */
  lemma SetupSucceedsExactly(st: State, m: Mapping, env: Env)
    ensures Setup(st, m, env).1 <==> Possible(st.cfg, IsOpen(st, m.listenPort), m, env)
  {
  }

  // ---------- What a setup leaves ----------

  /** The host and slot where an HTTP or TLS mapping has its route. */
  predicate RouteHome(st: State, m: Mapping, q: Port, h: string) {
    && m.domain != "" && h == Lower(m.domain)
    && ((m.mode.Http? && m.hasPath && q == 0) || (m.mode.Tls? && q == HomeSlot(st, m)))
  }

  /** The service's route stands at its home in place of any route it had there; a TCP service's
      fallback stands in its slot in place of anybody's; all other entries are as before. */
  ghost predicate EntriesSet(a: State, b: State, m: Mapping) {
    && (forall q, h, x :: RouteIn(b, q, h, x) <==>
          if RouteHome(a, m, q, h) then x == HomeRoute(m) || (RouteIn(a, q, h, x) && x.svc != m.id)
          else RouteIn(a, q, h, x))
    && (forall q, x :: FallbackIn(b, q, x) <==>
          if m.mode.Tcp? && q == HomeSlot(a, m) then x == HomeRoute(m) else FallbackIn(a, q, x))
  }

  /** The home slot has a router, and every router keeps the listener it had. */
  ghost predicate PortsSet(a: State, b: State, m: Mapping) {
    && (forall p :: p in b.portRouters <==>
          p in a.portRouters || ((m.mode.Tcp? || m.mode.Tls?) && p != 0 && p == HomeSlot(a, m)))
    && (forall p :: p in a.portRouters && p in b.portRouters ==> b.portRouters[p].listener == a.portRouters[p].listener)
  }

  /** The mapping's own CrowdSec reference, relay and tracked port, and nobody else's. */
  ghost predicate HoldingsSet(a: State, b: State, m: Mapping, env: Env) {
    && b.cfg == a.cfg
    && b.svcPorts == (if m.mode.Tcp? || (m.mode.Tls? && m.listenPort != a.cfg.mainPort)
                      then a.svcPorts[m.id := [if m.listenPort >= 0 then m.listenPort as nat else 0]] else a.svcPorts)
    && (!m.mode.Udp? ==> b.udpRelays == a.udpRelays)
    && (m.mode.Udp? ==> m.id in b.udpRelays && b.udpRelays == a.udpRelays[m.id := b.udpRelays[m.id]] &&
                        |a.listeners| <= b.udpRelays[m.id] < |b.listeners|)
    && b.crowdsecServices ==
       (if m.crowdsec && (m.mode.Http? ==> m.hasPath) && a.cfg.crowdsecConfigured &&
           (a.crowdsecServices != {} || env.bouncerStarts) then a.crowdsecServices + {m.id} else a.crowdsecServices)
  }

  ghost predicate SetUp(a: State, b: State, m: Mapping, env: Env) {
    EntriesSet(a, b, m) && PortsSet(a, b, m) && HoldingsSet(a, b, m, env)
  }

  lemma HttpEntries(st: State, m: Mapping, env: Env)
    requires Structural(st) && m.mode.Http?
    ensures EntriesSet(st, Setup(st, m, env).0, m)
  {
    LowerKeepsEmptiness(m.domain);
    AddRouteEntries(st.main, m.domain, HomeRoute(m));
  }

  lemma PortEntries(st: State, m: Mapping, r: Router)
    requires Structural(st) && (m.mode.Tcp? || m.mode.Tls?) && m.listenPort >= 0
    requires RouterFor(st, m.listenPort) == Some(r)
    ensures EntriesSet(st, SetRouter(st, m.listenPort, Extended(r, m)), m)
  {
    LowerKeepsEmptiness(m.domain);
    AddRouteEntries(r, m.domain, HomeRoute(m));
    SetRouterEffect(st, m.listenPort, Extended(r, m));
  }

  lemma EntriesSetFrame(a: State, a': State, b': State, b: State, m: Mapping)
    requires SameEntries(a, a') && SameEntries(b', b) && EntriesSet(a', b', m)
    ensures EntriesSet(a, b, m)
  {
  }

  lemma SetupEntries(st: State, m: Mapping, env: Env)
    requires Structural(st) && Setup(st, m, env).1
    ensures EntriesSet(st, Setup(st, m, env).0, m)
  {
    var st' := Setup(st, m, env).0;
    if m.mode.Http? {
      HttpEntries(st, m, env);
    } else if m.mode.Udp? {
      SetupUdpShape(st, m, env);
      SameRouters(st, st');
    } else {
      var st1, st2, r := SetupPortShape(st, m, env);
      OpenPortEffect(st, m.listenPort, env.tcpListenOk);
      ParseRestrictionsEffect(st1, m, env);
      SameRouters(st1, st2);
      PortEntries(st2, m, r);
      SameRouters(SetRouter(st2, m.listenPort, Extended(r, m)), st');
      EntriesSetFrame(st, st2, SetRouter(st2, m.listenPort, Extended(r, m)), st', m);
    }
  }

  lemma SetupPorts(st: State, m: Mapping, env: Env)
    requires Structural(st) && Setup(st, m, env).1
    ensures PortsSet(st, Setup(st, m, env).0, m)
  {
    if m.mode.Http? {
      SetupHttpEffect(st, m, env);
    } else if m.mode.Udp? {
      SetupUdpShape(st, m, env);
    } else {
      SetupPortValid(st, m, env);
      SetupPortHoldings(st, m, env);
      var _, _, _ := SetupPortShape(st, m, env);
    }
  }

  lemma RestrictionsExactly(st: State, m: Mapping, env: Env)
    requires Balanced(st)
    ensures ParseRestrictions(st, m, env).crowdsecServices ==
            if m.crowdsec && st.cfg.crowdsecConfigured && (st.crowdsecServices != {} || env.bouncerStarts)
            then st.crowdsecServices + {m.id} else st.crowdsecServices
  {
  }

  lemma SetupHoldings(st: State, m: Mapping, env: Env)
    requires Sound(st) && Setup(st, m, env).1
    ensures HoldingsSet(st, Setup(st, m, env).0, m, env)
  {
    if m.mode.Http? {
      if m.hasPath {
        RestrictionsExactly(st.(main := AddRoute(st.main, m.domain, HomeRoute(m))), m, env);
      }
    } else if m.mode.Udp? {
      UdpHoldings(st, m, env);
    } else {
      SetupPortValid(st, m, env);
      SetupPortEffect(st, m, env);
      var st1, st2, r := SetupPortShape(st, m, env);
      OpenPortEffect(st, m.listenPort, env.tcpListenOk);
      RestrictionsExactly(st1, m, env);
      assert Setup(st, m, env).0.crowdsecServices == st2.crowdsecServices;
    }
  }

  lemma UdpHoldings(st: State, m: Mapping, env: Env)
    requires Sound(st) && m.mode.Udp? && Setup(st, m, env).1
    ensures HoldingsSet(st, Setup(st, m, env).0, m, env)
  {
    var st1 := RemoveRelay(st, m.id);
    var st2 := st1.(listeners := st1.listeners + [Listener(UdpListener(m.id, m.listenPort), 0)]);
    RestrictionsExactly(st2, m, env);
    var st' := Setup(st, m, env).0;
    assert st'.udpRelays == st1.udpRelays[m.id := |st1.listeners|];
    assert st'.udpRelays == st.udpRelays[m.id := |st1.listeners|];
  }

  /** A setup that succeeds, exactly. */
  lemma SetupExactly(st: State, m: Mapping, env: Env)
    requires Sound(st) && Setup(st, m, env).1
    ensures SetUp(st, Setup(st, m, env).0, m, env)
  {
    SetupEntries(st, m, env);
    SetupPorts(st, m, env);
    SetupHoldings(st, m, env);
  }

  // ---------- What a cleanup leaves ----------

  /** An entry on the port that cleanup of the mapping does not look for. */
  ghost predicate Remains(st: State, m: Mapping, p: Port) {
    || (exists h, x :: RouteIn(st, p, h, x) && !(m.domain != "" && h == Lower(m.domain) && x.svc == m.id))
    || (m.domain != "" && exists x :: FallbackIn(st, p, x))
  }

  /** Of the tracked ports exactly those with such an entry stay open, each with its listener. */
  ghost predicate PortsCleaned(a: State, b: State, m: Mapping) {
    && (forall p :: p in b.portRouters <==>
          p in a.portRouters && (p in PortsOf(a, m.id) ==> Remains(a, m, p)))
    && (forall p :: p in a.portRouters && p in b.portRouters ==> b.portRouters[p].listener == a.portRouters[p].listener)
  }

  /** The service has no tracked port, relay or CrowdSec reference; everybody else has what they had. */
  ghost predicate HoldingsCleaned(a: State, b: State, s: ServiceId) {
    && b.cfg == a.cfg && b.svcPorts == a.svcPorts - {s} && b.udpRelays == a.udpRelays - {s}
    && b.crowdsecServices == a.crowdsecServices - {s}
  }

  ghost predicate CleanedUp(a: State, b: State, m: Mapping) {
    Swept(a, b, m) && PortsCleaned(a, b, m) && HoldingsCleaned(a, b, m.id)
  }

  lemma PrunePortPorts(st: State, m: Mapping, p: Port, q: Port)
    ensures var st' := PrunePort(st, m, p);
            && st'.cfg == st.cfg && (q in st'.portRouters <==> q in st.portRouters)
            && (q in st'.portRouters ==>
                  && st'.portRouters[q].listener == st.portRouters[q].listener
                  && (q != p ==> st'.portRouters[q] == st.portRouters[q]))
  {
  }

  lemma ClosePortPorts(st: State, p: Port, q: Port)
    requires IsMain(st.cfg, q) ==> q !in st.portRouters
    ensures var st' := ClosePortIfEmpty(st, p);
            && (q != p ==> (q in st'.portRouters <==> q in st.portRouters))
            && (q in st'.portRouters ==>
                  && q in st.portRouters && st'.portRouters[q] == st.portRouters[q]
                  && (q == p ==> !IsEmpty(st'.portRouters[q].router)))
  {
  }

  /** One turn of the loop touches no router but that of its port, and leaves none empty there. */
  lemma CleanPortPorts(st: State, m: Mapping, p: Port, q: Port)
    requires Structural(st)
    ensures var st' := CleanPort(st, m, p);
            && (q != p ==> (q in st'.portRouters <==> q in st.portRouters))
            && (q in st'.portRouters ==>
                  && q in st.portRouters && st'.portRouters[q].listener == st.portRouters[q].listener
                  && (q != p ==> st'.portRouters[q] == st.portRouters[q])
                  && (q == p ==> !IsEmpty(st'.portRouters[q].router)))
  {
    PruneKeepsListeners(st, m, p);
    PrunePortPorts(st, m, p, q);
    ClosePortPorts(PrunePort(st, m, p), p, q);
  }

  lemma {:induction false} CleanPortsPorts(st: State, m: Mapping, ps: seq<Port>, q: Port)
    requires Structural(st)
    ensures var st' := CleanPorts(st, m, ps);
            && (q !in ps ==> (q in st'.portRouters <==> q in st.portRouters))
            && (q in st'.portRouters ==>
                  && q in st.portRouters && st'.portRouters[q].listener == st.portRouters[q].listener
                  && (q in ps ==> !IsEmpty(st'.portRouters[q].router)))
  {
    if ps != [] {
      var front, last := ps[..|ps| - 1], ps[|ps| - 1];
      CleanPortsPorts(st, m, front, q);
      CleanPortsEffect(st, m, front);
      CleanPortPorts(CleanPorts(st, m, front), m, last, q);
      assert q in ps <==> q in front || q == last;
    }
  }

  lemma CleanupPorts(st: State, m: Mapping, q: Port)
    requires Structural(st)
    ensures var st' := Cleanup(st, m);
            && (q !in PortsOf(st, m.id) ==> (q in st'.portRouters <==> q in st.portRouters))
            && (q in st'.portRouters ==>
                  && q in st.portRouters && st'.portRouters[q].listener == st.portRouters[q].listener
                  && (q in PortsOf(st, m.id) ==> !IsEmpty(st'.portRouters[q].router)))
  {
    UntrackEffect(st, m);
    CleanPortsPorts(Untrack(st, m), m, PortsOf(st, m.id), q);
    CleanRoutersEffect(st, m);
    CleanupRest(CleanRouters(st, m), m.id);
    assert Cleanup(st, m) == ReleaseCrowdSec(RemoveRelay(CleanRouters(st, m), m.id), m.id);
  }

  /** A tracked port stays open exactly when something remains on it. */
  lemma RemainsExactly(a: State, b: State, m: Mapping, p: Port)
    requires Structural(a) && Structural(b) && Swept(a, b, m) && p in PortsOf(a, m.id) && p in a.portRouters
    requires p in b.portRouters ==> !IsEmpty(b.portRouters[p].router)
    ensures p in b.portRouters <==> Remains(a, m, p)
  {
    assert Slot(a.cfg, p) == p && Hits(a.cfg, PortsOf(a, m.id), p);
    if p in b.portRouters {
      EmptyMeansNoEntries(b.portRouters[p].router);
      if b.portRouters[p].router.fallback.Some? {
        assert FallbackIn(b, p, b.portRouters[p].router.fallback.value);
      } else {
        var h, x :| At(b.portRouters[p].router, h, x);
        assert RouteIn(b, p, h, x);
      }
    }
    if Remains(a, m, p) {
      if h, x :| RouteIn(a, p, h, x) && !(m.domain != "" && h == Lower(m.domain) && x.svc == m.id) {
        assert RouteIn(b, p, h, x);
      } else {
        var x :| FallbackIn(a, p, x);
        assert FallbackIn(b, p, x);
      }
    }
  }

  /** A cleanup, exactly. */
  lemma CleanupExactly(st: State, m: Mapping)
    requires Structural(st)
    ensures CleanedUp(st, Cleanup(st, m), m) && Cleanup(st, m).lastMappings == st.lastMappings
  {
    var st' := Cleanup(st, m);
    CleanupEffect(st, m);
    forall p ensures p in st'.portRouters <==>
                     p in st.portRouters && (p in PortsOf(st, m.id) ==> Remains(st, m, p))
    {
      CleanupPorts(st, m, p);
      if p in PortsOf(st, m.id) && p in st.portRouters {
        RemainsExactly(st, st', m, p);
      }
    }
    forall p | p in st.portRouters && p in st'.portRouters
      ensures st'.portRouters[p].listener == st.portRouters[p].listener
    {
      CleanupPorts(st, m, p);
    }
  }

  // ---------- Failed setups are cleaned up without a trace ----------

  /** A setup that fails leaves at most an HTTP route, a CrowdSec reference or a closed relay. */
  ghost predicate HalfSetUp(a: State, b: State, m: Mapping) {
    && (SameEntries(a, b) || (m.mode.Http? && EntriesSet(a, b, m)))
    && b.portRouters == a.portRouters && b.cfg == a.cfg && b.svcPorts == a.svcPorts
    && b.lastMappings == a.lastMappings
    && b.udpRelays - {m.id} == a.udpRelays - {m.id} && b.crowdsecServices - {m.id} == a.crowdsecServices - {m.id}
  }

  lemma FailedSetup(st: State, m: Mapping, env: Env)
    requires Structural(st) && !Setup(st, m, env).1
    ensures HalfSetUp(st, Setup(st, m, env).0, m)
  {
    var st' := Setup(st, m, env).0;
    SetupEffect(st, m, env);
    if m.mode.Http? {
      HttpEntries(st, m, env);
      SetupHttpEffect(st, m, env);
    } else if m.mode.Udp? {
      SetupUdpShape(st, m, env);
      SameRouters(st, st');
    } else {
      SetupPortRefused(st, m, env);
    }
  }

  lemma HalfSetUpSwept(a: State, b: State, c: State, m: Mapping)
    requires HalfSetUp(a, b, m) && Swept(b, c, m)
    ensures Swept(a, c, m)
  {
    assert PortsOf(a, m.id) == PortsOf(b, m.id);
  }

  lemma HalfSetUpRemains(a: State, b: State, m: Mapping, p: Port)
    requires HalfSetUp(a, b, m) && p != 0
    ensures Remains(a, m, p) <==> Remains(b, m, p)
  {
    assert forall h, x :: RouteIn(a, p, h, x) <==> RouteIn(b, p, h, x);
    assert forall x :: FallbackIn(a, p, x) <==> FallbackIn(b, p, x);
  }

  /** Cleaning up after a failed setup is cleaning up what was there before it. */
  lemma HalfSetUpCleaned(a: State, b: State, c: State, m: Mapping)
    requires HalfSetUp(a, b, m) && CleanedUp(b, c, m) && 0 !in a.portRouters
    ensures CleanedUp(a, c, m)
  {
    HalfSetUpSwept(a, b, c, m);
    assert PortsOf(a, m.id) == PortsOf(b, m.id);
    forall p | p in a.portRouters ensures Remains(a, m, p) <==> Remains(b, m, p) {
      HalfSetUpRemains(a, b, m, p);
    }
  }

  /** From `mid` the update sets up and stores its mapping, or cleans it up and stores nothing. */
  ghost predicate Concluded(mid: State, st': State, m: Mapping, env: Env, ok: bool) {
    && (ok ==> SetUp(mid, st', m, env) && st'.lastMappings == mid.lastMappings[m.id := m])
    && (!ok ==> CleanedUp(mid, st', m) && st'.lastMappings == mid.lastMappings)
  }

  /** The common tail of a CREATED and a MODIFIED, exactly. */
  lemma FinishExactly(st: State, m: Mapping, env: Env)
    requires Sound(st)
    ensures Finish(st, m, env).1 <==> Possible(st.cfg, IsOpen(st, m.listenPort), m, env)
    ensures Concluded(st, Finish(st, m, env).0, m, env, Finish(st, m, env).1)
  {
    var (st1, ok) := Setup(st, m, env);
    SetupSucceedsExactly(st, m, env);
    SetupEffect(st, m, env);
    if ok {
      SetupExactly(st, m, env);
      StoredSetUp(st, st1, m, env);
    } else {
      FailedSetup(st, m, env);
      CleanupExactly(st1, m);
      HalfSetUpCleaned(st, st1, Cleanup(st1, m), m);
    }
  }

  lemma StoredSetUp(a: State, b: State, m: Mapping, env: Env)
    requires SetUp(a, b, m, env)
    ensures SetUp(a, Store(b, m), m, env)
  {
    SameRouters(b, Store(b, m));
    SameRouters(a, a);
    EntriesSetFrame(a, a, b, Store(b, m), m);
  }

  // ---------- Whole updates ----------

  /** The mapping of the service that an update tears down. */
  function StoredOr(st: State, m: Mapping): Mapping {
    if m.id in st.lastMappings then st.lastMappings[m.id] else m
  }

  /** The mapping's port has a router when the setup of the update begins: for a MODIFIED the stored
      mapping is cleaned up before. */
  ghost predicate OpenInTime(st: State, u: Update) {
    var m := u.mapping;
    || m.listenPort == st.cfg.mainPort
    || (m.listenPort >= 0 && m.listenPort in st.portRouters &&
        (u.kind.Modified? && m.listenPort in PortsOf(st, m.id) ==> Remains(st, StoredOr(st, m), m.listenPort)))
  }

  /** Whether an update reports success. */
  ghost predicate Succeeds(st: State, u: Update, env: Env) {
    || u.kind.Removed?
    || ((u.kind.Created? ==> env.peerOk) && Possible(st.cfg, OpenInTime(st, u), u.mapping, env))
  }

  lemma OpenAfterCleanup(st: State, mid: State, m: Mapping)
    requires PortsCleaned(st, mid, StoredOr(st, m)) && mid.cfg == st.cfg && StoredOr(st, m).id == m.id
    ensures IsOpen(mid, m.listenPort) <==> OpenInTime(st, Update(Modified, m))
  {
  }

  lemma ModifyExactly(st: State, m: Mapping, env: Env) returns (mid: State)
    requires Sound(st) && StoredById(st)
    ensures CleanedUp(st, mid, StoredOr(st, m)) && mid.lastMappings == st.lastMappings
    ensures Concluded(mid, ModifyMapping(st, m, env).0, m, env, ModifyMapping(st, m, env).1)
    ensures ModifyMapping(st, m, env).1 <==> Possible(st.cfg, OpenInTime(st, Update(Modified, m)), m, env)
  {
    var known := Known(st, m);
    mid := Cleanup(st, known);
    CleanupExactly(st, known);
    CleanupEffect(st, known);
    FinishExactly(mid, m, env);
    assert ModifyMapping(st, m, env) == Finish(mid, m, env);
    OpenAfterCleanup(st, mid, m);
  }

  /** Every update in every outcome, well formed or not. A CREATED whose peer fails changes nothing at
      all. Otherwise a MODIFIED first cleans up the stored mapping, giving `mid`; then the update
      either sets up and stores the new mapping, or cleans it up and stores nothing. A REMOVED
      cleans up and forgets the stored mapping. */
  lemma StepExactly(st: State, u: Update, env: Env) returns (mid: State)
    requires Sound(st) && StoredById(st)
    ensures Step(st, u, env).1 <==> Succeeds(st, u, env)
    ensures u.kind.Created? && !env.peerOk ==> Step(st, u, env).0 == st
    ensures u.kind.Created? ==> mid == st
    ensures u.kind.Modified? ==> CleanedUp(st, mid, StoredOr(st, u.mapping)) && mid.lastMappings == st.lastMappings
    ensures u.kind.Modified? || (u.kind.Created? && env.peerOk) ==>
              Concluded(mid, Step(st, u, env).0, u.mapping, env, Step(st, u, env).1)
    ensures u.kind.Removed? ==>
              && CleanedUp(st, Step(st, u, env).0, StoredOr(st, u.mapping))
              && Step(st, u, env).0.lastMappings == st.lastMappings - {u.mapping.id}
  {
    mid := st;
    match u.kind
    case Created => FinishExactly(st, u.mapping, env);
    case Modified => mid := ModifyExactly(st, u.mapping, env);
    case Removed => RemoveExactly(st, u.mapping);
  }

  lemma RemoveExactly(st: State, m: Mapping)
    requires Structural(st)
    ensures CleanedUp(st, RemoveMapping(st, m), StoredOr(st, m))
    ensures RemoveMapping(st, m).lastMappings == st.lastMappings - {m.id}
  {
    var st1 := st.(lastMappings := st.lastMappings - {m.id});
    CleanupExactly(st1, Known(st, m));
    ForgottenCleaned(st, st1, RemoveMapping(st, m), Known(st, m));
  }

  lemma ForgottenCleaned(a: State, a': State, b: State, m: Mapping)
    requires CleanedUp(a', b, m) && a == a'.(lastMappings := a.lastMappings)
    ensures CleanedUp(a, b, m)
  {
    SameRouters(a, a');
    assert forall p :: Remains(a, m, p) <==> Remains(a', m, p);
  }

  /** The listeners are the same but for closing, or there is one more, on the mapping's port. */
  predicate OpenedFor(a: seq<Listener>, b: seq<Listener>, m: Mapping) {
    || SameOpened(a, b)
    || (m.listenPort >= 0 && m.mode.Udp? && OneMore(a, b, UdpListener(m.id, m.listenPort)))
    || (m.listenPort >= 0 && (m.mode.Tcp? || m.mode.Tls?) && OneMore(a, b, TcpListener(m.listenPort)))
  }

  lemma OpenedThenClosed(a: seq<Listener>, b: seq<Listener>, c: seq<Listener>, m: Mapping)
    requires OpenedFor(a, b, m) && SameOpened(b, c)
    ensures OpenedFor(a, c, m)
  {
  }

  lemma ClosedThenOpened(a: seq<Listener>, b: seq<Listener>, c: seq<Listener>, m: Mapping)
    requires SameOpened(a, b) && OpenedFor(b, c, m)
    ensures OpenedFor(a, c, m)
  {
  }

  lemma SetupOpensAtMostOne(st: State, m: Mapping, env: Env)
    requires Structural(st)
    ensures OpenedFor(st.listeners, Setup(st, m, env).0.listeners, m)
  {
    match m.mode
    case Http => SetupHttpEffect(st, m, env);
    case Udp => SetupUdpListeners(st, m, env);
    case Tcp => SetupPortListeners(st, m, env);
    case Tls => SetupPortListeners(st, m, env);
  }

  lemma FinishOpensAtMostOne(st: State, m: Mapping, env: Env)
    requires Structural(st)
    ensures OpenedFor(st.listeners, Finish(st, m, env).0.listeners, m)
  {
    var st1 := Setup(st, m, env).0;
    SetupOpensAtMostOne(st, m, env);
    CleanupOpensNothing(st1, m);
    OpenedThenClosed(st.listeners, st1.listeners, Cleanup(st1, m).listeners, m);
  }

  /** No update opens more than one listener, only one that its mapping asks for, and none when a
      service is removed. */
  lemma StepOpensAtMostOne(st: State, u: Update, env: Env)
    requires Structural(st)
    ensures OpenedFor(st.listeners, Step(st, u, env).0.listeners, u.mapping)
    ensures u.kind.Removed? ==> SameOpened(st.listeners, Step(st, u, env).0.listeners)
  {
    var m := u.mapping;
    var known := Known(st, m);
    match u.kind
    case Created => FinishOpensAtMostOne(st, m, env);
    case Modified =>
      var st1 := Cleanup(st, known);
      CleanupOpensNothing(st, known);
      CleanupEffect(st, known);
      FinishOpensAtMostOne(st1, m, env);
      ClosedThenOpened(st.listeners, st1.listeners, Finish(st1, m, env).0.listeners, m);
    case Removed => CleanupOpensNothing(st.(lastMappings := st.lastMappings - {m.id}), known);
  }

  // ---------- The update's own service ----------

  /** An update of a well-formed stream that reports an error leaves either everything as it was, when it
      is a CREATED whose peer failed, or nothing of its own service. In both cases the stored
      mappings are those from before. */
  lemma FailedStepExactly(st: State, u: Update, env: Env)
    requires Inv(st) && WellFormed(st, u) && !Succeeds(st, u, env)
    ensures var (st', ok) := Step(st, u, env);
            && !ok && st'.lastMappings == st.lastMappings
            && (u.kind.Created? && !env.peerOk ==> st' == st)
            && (u.kind.Modified? || env.peerOk ==> Gone(st', u.mapping.id))
  {
    var m := u.mapping;
    var mid := StepExactly(st, u, env);
    match u.kind
    case Created =>
      if env.peerOk {
        assert InPlace(st, m.id);
        if m.id !in st.lastMappings {
          NothingIsCovered(st, m);
        }
        FinishKeepsInv(st, m, env);
      }
    case Modified => ModifyMappingKeepsInv(st, m, env);
  }

  lemma RemovedStepExactly(st: State, m: Mapping, env: Env)
    requires Inv(st)
    ensures var (st', ok) := Step(st, Update(Removed, m), env);
            ok && Gone(st', m.id) && st'.lastMappings == st.lastMappings - {m.id}
  {
    RemoveMappingLeavesNothing(st, m);
    RemoveExactly(st, m);
  }

  // ---------- What becomes of a service over a stream ----------

  /** The last update that decided about the service set this mapping, or left nothing. */
  datatype Fate = Nothing | Set(mapping: Mapping)

  /** One update decides about its own service only, and a CREATED whose peer fails decides nothing. */
  ghost function NextFate(fate: Fate, st: State, u: Update, env: Env, s: ServiceId): Fate {
    if u.mapping.id != s || (u.kind.Created? && !env.peerOk) then fate
    else if u.kind.Removed? || !Succeeds(st, u, env) then Nothing
    else Set(u.mapping)
  }

  ghost function FateOf(st: State, us: seq<Update>, envs: seq<Env>, s: ServiceId): Fate
    requires |us| == |envs|
  {
    if us == [] then Nothing
    else
      var n := |us| - 1;
      NextFate(FateOf(st, us[..n], envs[..n], s), Run(st, us[..n], envs[..n]), us[n], envs[n], s)
  }

  /** The mapping is stored, its port tracked, and its route or relay in place; a fallback may have been
      taken by another service since. */
  ghost predicate Standing(st: State, m: Mapping) {
    && m.id in st.lastMappings && st.lastMappings[m.id] == m
    && (m.mode.Http? && m.hasPath && m.domain != "" ==> RouteIn(st, 0, Lower(m.domain), HomeRoute(m)))
    && (m.mode.Tls? && m.domain != "" ==> RouteIn(st, HomeSlot(st, m), Lower(m.domain), HomeRoute(m)))
    && (m.mode.Tcp? || (m.mode.Tls? && m.listenPort != st.cfg.mainPort) ==>
          m.listenPort >= 0 && PortsOf(st, m.id) == [m.listenPort as nat])
    && (m.mode.Udp? ==> m.id in st.udpRelays && Live(st, st.udpRelays[m.id]))
  }

  ghost predicate Fated(st: State, s: ServiceId, fate: Fate) {
    match fate
    case Nothing => Gone(st, s)
    case Set(m) => m.id == s && Standing(st, m)
  }

  /** Updates of other services leave what stands and what is gone. */
  lemma OthersKeepFate(st: State, u: Update, env: Env, s: ServiceId, fate: Fate)
    requires Inv(st) && WellFormed(st, u) && u.mapping.id != s && Fated(st, s, fate)
    ensures Fated(Step(st, u, env).0, s, fate)
  {
    var st' := Step(st, u, env).0;
    StepIsolates(st, u, env, s);
    StepKeepsInv(st, u, env);
    StepKeepsConfig(st, u, env);
    assert InPlace(st', s);
    if fate.Set? {
      StandingStays(st, st', fate.mapping);
    }
  }

  lemma StandingStays(a: State, b: State, m: Mapping)
    requires Standing(a, m) && Undisturbed(a, b, m.id) && b.cfg == a.cfg && Conserved(b)
    ensures Standing(b, m)
  {
  }

  /** A successful setup makes the mapping stand. */
  lemma SetUpStands(a: State, b: State, m: Mapping, env: Env)
    requires SetUp(a, b, m, env) && b.lastMappings == a.lastMappings[m.id := m] && Conserved(b)
    requires Possible(a.cfg, IsOpen(a, m.listenPort), m, env)
    ensures Standing(b, m)
  {
    if m.mode.Http? && m.hasPath && m.domain != "" {
      assert RouteHome(a, m, 0, Lower(m.domain));
    }
    if m.mode.Tls? && m.domain != "" {
      assert RouteHome(a, m, HomeSlot(a, m), Lower(m.domain));
    }
  }

  lemma OwnFate(st: State, u: Update, env: Env, fate: Fate)
    requires Inv(st) && WellFormed(st, u) && Fated(st, u.mapping.id, fate)
    ensures Fated(Step(st, u, env).0, u.mapping.id, NextFate(fate, st, u, env, u.mapping.id))
  {
    var m := u.mapping;
    if u.kind.Removed? {
      RemovedStepExactly(st, m, env);
    } else if !Succeeds(st, u, env) {
      FailedStepExactly(st, u, env);
    } else {
      var mid := StepExactly(st, u, env);
      StepKeepsSound(st, u, env);
      if u.kind.Modified? {
        OpenAfterCleanup(st, mid, m);
      }
      SetUpStands(mid, Step(st, u, env).0, m, env);
    }
  }

  /** After every well-formed stream, whatever failed on the way: a service is as the last update that
      decided about it left it. If that set a mapping, the mapping is stored and stands; if it
      removed the service or failed after its peer was there, nothing of the service is left. */
  lemma {:induction false} RunFated(cfg: Config, us: seq<Update>, envs: seq<Env>, s: ServiceId)
    requires |us| == |envs| && WellFormedRun(Initial(cfg), us, envs)
    ensures Fated(Run(Initial(cfg), us, envs), s, FateOf(Initial(cfg), us, envs, s))
  {
    if us != [] {
      var n := |us| - 1;
      RunFated(cfg, us[..n], envs[..n], s);
      InitialInv(cfg);
      RunKeepsInv(Initial(cfg), us[..n], envs[..n]);
      var st := Run(Initial(cfg), us[..n], envs[..n]);
      var fate := FateOf(Initial(cfg), us[..n], envs[..n], s);
      if us[n].mapping.id == s {
        OwnFate(st, us[n], envs[n], fate);
      } else {
        OthersKeepFate(st, us[n], envs[n], s, fate);
      }
    }
  }
}
