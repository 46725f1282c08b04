/** Which services are actually served over a stream of updates, that updates do not disturb each
    other, and that resending changes nothing. */
module ProxyServing {
  import opened Text
  import opened ProxyRouter
  import opened ProxyState
  import opened ProxyOwnership
  import opened ProxySetup
  import opened ProxySafety
  import opened ProxyGuarantees

  // ---------- Who is served ----------

  /** The stored mapping of a service with a tracked port is installed with its target. */
  ghost predicate Serving(st: State, s: ServiceId) {
    s in st.svcPorts && s in st.lastMappings ==> AtHome(st, st, st.lastMappings[s])
  }

  ghost predicate AllServing(st: State) {
    forall s :: Serving(st, s)
  }

  /** The TCP service `s` holds the slot. */
  predicate HoldsSlot(st: State, s: ServiceId, q: Port) {
    s in st.svcPorts && s in st.lastMappings && st.lastMappings[s].mode.Tcp? && HomeSlot(st, st.lastMappings[s]) == q
  }

  /** No other TCP service holds the slot that this TCP mapping wants. */
  ghost predicate Exclusive(st: State, m: Mapping) {
    m.mode.Tcp? ==> forall s :: s != m.id ==> !HoldsSlot(st, s, HomeSlot(st, m))
  }

  /** A service that is served holds its own fallback, so cleaning it up hits nobody else. */
  lemma ServedHasNoForeignFallback(st: State, m: Mapping)
    requires Inv(st) && AllServing(st)
    requires m.id in st.lastMappings ==> m.domain == st.lastMappings[m.id].domain
    ensures NoForeignFallback(st, m)
  {
    assert InPlace(st, m.id) && Serving(st, m.id);
    if m.domain == "" && m.id in st.svcPorts {
      forall p, x | FallbackIn(st, p, x) && Hits(st.cfg, PortsOf(st, m.id), p) ensures x.svc == m.id {
        assert p == HomeSlot(st, st.lastMappings[m.id]);
        assert FallbackIn(st, p, HomeRoute(st.lastMappings[m.id]));
      }
    }
  }

  /** Cleanup that spares other services keeps them served. */
  lemma CleanupKeepsServing(st: State, m: Mapping)
    requires Structural(st) && WellStored(st) && NoForeignFallback(st, m)
    requires forall s :: s != m.id ==> Serving(st, s)
    ensures AllServing(Cleanup(st, m))
  {
    var st' := Cleanup(st, m);
    CleanupEffect(st, m);
    CleanupSparesOthersExactly(st, m);
    forall s ensures Serving(st', s) {
      if s != m.id {
        assert Serving(st, s);
      }
    }
  }

  /** Setup that displaces nobody keeps the other services served. */
  lemma SetupKeepsServing(st: State, m: Mapping, env: Env, s: ServiceId)
    requires Structural(st) && WellStored(st) && s != m.id && Serving(st, s)
    requires !(m.mode.Tcp? && Setup(st, m, env).1 && HoldsSlot(st, s, HomeSlot(st, m)))
    ensures Serving(Setup(st, m, env).0, s)
  {
    SetupEffect(st, m, env);
  }

  /** Storing the mapping that was just set up keeps everybody served. */
  lemma StoreServes(st: State, st1: State, m: Mapping)
    requires AtHome(st, st1, m) && st.cfg == st1.cfg && WellStored(st1) && forall s :: s != m.id ==> Serving(st1, s)
    ensures AllServing(Store(st1, m))
  {
    var st2 := Store(st1, m);
    SameRouters(st1, st2);
    forall s ensures Serving(st2, s) {
      assert s != m.id ==> Serving(st1, s);
    }
  }

  /** A TCP service whose slot was taken is not served. */
  lemma TakenIsNotServed(st: State, st1: State, m: Mapping, s: ServiceId)
    requires AtHome(st, st1, m) && m.mode.Tcp? && s != m.id && HoldsSlot(st, s, HomeSlot(st, m))
    requires st1.cfg == st.cfg && st1.lastMappings == st.lastMappings && s in st1.svcPorts && st.lastMappings[s].id == s
    ensures !Serving(Store(st1, m), s)
  {
    assert FallbackIn(Store(st1, m), HomeSlot(st, m), HomeRoute(m));
  }

  /** Set up and store: everybody is served afterwards exactly when nobody's TCP port was taken.
      Set up and roll back: everybody still is. */
  lemma FinishServes(st: State, m: Mapping, env: Env)
    requires InvBut(st, m.id) && AllServing(st) && Shaped(m) && NoForeignFallback(st, m)
    ensures AllServing(Finish(st, m, env).0) <==> (Finish(st, m, env).1 ==> Exclusive(st, m))
  {
    var (st1, ok) := Setup(st, m, env);
    SetupEffect(st, m, env);
    if !ok || Exclusive(st, m) {
      forall s | s != m.id ensures Serving(st1, s) {
        SetupKeepsServing(st, m, env, s);
      }
      if ok {
        StoreServes(st, st1, m);
      } else {
        CleanupKeepsServing(st1, m);
      }
    } else {
      var s :| s != m.id && HoldsSlot(st, s, HomeSlot(st, m));
      TakenIsNotServed(st, st1, m, s);
    }
  }

  /** modifyMapping up to the point where the old routes are gone. */
  lemma ModifyPrepares(st: State, m: Mapping)
    requires Inv(st) && AllServing(st)
    ensures var st1 := Cleanup(st, Known(st, m));
            && InvBut(st1, m.id) && AllServing(st1) && NoForeignFallback(st1, m)
            && (Exclusive(st1, m) <==> Exclusive(st, m))
  {
    var known := Known(st, m);
    assert InPlace(st, m.id);
    ServedHasNoForeignFallback(st, known);
    CleanupKeepsServing(st, known);
    CleanupKeepsBut(st, known);
    CleanupEffect(st, known);
    var st1 := Cleanup(st, known);
    assert PortsOf(st1, m.id) == [];
    var q := HomeSlot(st, m);
    assert HomeSlot(st1, m) == q;
    forall s | s != m.id ensures HoldsSlot(st, s, q) == HoldsSlot(st1, s, q) {
      assert s in st1.svcPorts <==> s in st.svcPorts;
    }
  }

  lemma ModifyServes(st: State, m: Mapping, env: Env)
    requires Inv(st) && AllServing(st) && Shaped(m)
    ensures AllServing(ModifyMapping(st, m, env).0) <==> (ModifyMapping(st, m, env).1 ==> Exclusive(st, m))
  {
    ModifyPrepares(st, m);
    FinishServes(Cleanup(st, Known(st, m)), m, env);
    assert ModifyMapping(st, m, env) == Finish(Cleanup(st, Known(st, m)), m, env);
  }

  lemma RemoveServes(st: State, m: Mapping)
    requires Inv(st) && AllServing(st)
    ensures AllServing(RemoveMapping(st, m))
  {
    var known := Known(st, m);
    var st1 := st.(lastMappings := st.lastMappings - {m.id});
    assert InPlace(st, m.id);
    ServedHasNoForeignFallback(st, known);
    SameRouters(st, st1);
    assert NoForeignFallback(st1, known);
    forall s | s != m.id ensures Serving(st1, s) {
      assert Serving(st, s);
    }
    CleanupKeepsServing(st1, known);
  }

  /** The update does not want the port of another TCP service, or is turned down before it gets
      there. A port that is held is open already, so that a failed listen does not matter. */
  ghost predicate TakesNoPort(st: State, u: Update, env: Env) {
    || u.kind.Removed? || Exclusive(st, u.mapping)
    || Refused(st, u.mapping) || (u.kind.Created? && !env.peerOk)
  }

  /** A setup that wants a port held by a served TCP service succeeds unless it is refused. */
  lemma HeldPortIsOpen(st: State, m: Mapping, env: Env)
    requires AllServing(st) && !Exclusive(st, m)
    ensures Setup(st, m, env).1 <==> !Refused(st, m)
  {
    var s :| s != m.id && HoldsSlot(st, s, HomeSlot(st, m));
    assert Serving(st, s);
    assert FallbackIn(st, HomeSlot(st, m), HomeRoute(st.lastMappings[s]));
  }

  /** One update of a well-formed stream: if everybody was served before, everybody is served
      afterwards exactly when the update took no other TCP service's port. */
  lemma StepServesExactly(st: State, u: Update, env: Env)
    requires Inv(st) && AllServing(st) && WellFormed(st, u)
    ensures AllServing(Step(st, u, env).0) <==> TakesNoPort(st, u, env)
  {
    var m := u.mapping;
    match u.kind
    case Created =>
      if env.peerOk {
        assert InPlace(st, m.id);
        ServedHasNoForeignFallback(st, m);
        FinishServes(st, m, env);
        if !Exclusive(st, m) {
          HeldPortIsOpen(st, m, env);
        }
      }
    case Modified =>
      ModifyServes(st, m, env);
      ModifyPrepares(st, m);
      if !Exclusive(st, m) {
        CleanupEffect(st, Known(st, m));
        HeldPortIsOpen(Cleanup(st, Known(st, m)), m, env);
      }
    case Removed => RemoveServes(st, m);
  }

  ghost predicate ExclusiveRun(st: State, us: seq<Update>, envs: seq<Env>)
    requires |us| == |envs|
  {
    us == [] ||
    (var n := |us| - 1;
     ExclusiveRun(st, us[..n], envs[..n]) && TakesNoPort(Run(st, us[..n], envs[..n]), us[n], envs[n]))
  }

  /** After every prefix of the stream. */
  ghost predicate ServedThroughout(st: State, us: seq<Update>, envs: seq<Env>)
    requires |us| == |envs|
  {
    && AllServing(Run(st, us, envs))
    && (us != [] ==> ServedThroughout(st, us[..|us| - 1], envs[..|us| - 1]))
  }

  /** Over a whole well-formed stream every service with a tracked port is reachable with its stored
      target throughout, whatever else failed, exactly when no update takes another TCP service's
      port. */
  lemma {:induction false} RunServesExactly(st: State, us: seq<Update>, envs: seq<Env>)
    requires |us| == |envs| && Inv(st) && AllServing(st) && WellFormedRun(st, us, envs)
    ensures ServedThroughout(st, us, envs) <==> ExclusiveRun(st, us, envs)
  {
    if us != [] {
      var n := |us| - 1;
      RunServesExactly(st, us[..n], envs[..n]);
      RunKeepsInv(st, us[..n], envs[..n]);
      if ServedThroughout(st, us[..n], envs[..n]) {
        StepServesExactly(Run(st, us[..n], envs[..n]), us[n], envs[n]);
      }
    }
  }

  // ---------- Success and isolation ----------

  /** The mapping is in force: its route, fallback or open relay is there. */
  ghost predicate InForce(st: State, m: Mapping) {
    && AtHome(st, st, m)
    && (m.mode.Udp? ==> m.listenPort >= 0 && m.id in st.udpRelays && Live(st, st.udpRelays[m.id]) &&
                        st.listeners[st.udpRelays[m.id]].what == UdpListener(m.id, m.listenPort))
    && (m.id in st.lastMappings && st.lastMappings[m.id] == m)
  }

  lemma FinishInstalls(st: State, m: Mapping, env: Env)
    requires Sound(st) && Finish(st, m, env).1
    ensures InForce(Finish(st, m, env).0, m)
  {
    var (st1, ok) := Setup(st, m, env);
    var st2 := Store(st1, m);
    SetupEffect(st, m, env);
    SetupSound(st, m, env);
    SameRouters(st1, st2);
  }

  /** An update that reports success, well formed or not, leaves its mapping in force and stored. */
  lemma SuccessMeansInForce(st: State, u: Update, env: Env)
    requires Sound(st) && !u.kind.Removed? && Step(st, u, env).1
    ensures InForce(Step(st, u, env).0, u.mapping)
  {
    var m := u.mapping;
    if u.kind.Created? {
      FinishInstalls(st, m, env);
    } else {
      CleanupEffect(st, Known(st, m));
      FinishInstalls(Cleanup(st, Known(st, m)), m, env);
    }
  }

  /** The registry after a successful setup; an HTTP mapping without paths is not set up at all. */
  lemma RegistryAfterSetup(st: State, m: Mapping, env: Env)
    requires Structural(st) && Setup(st, m, env).1
    ensures Setup(st, m, env).0.registry ==
            if m.crowdsec && (m.mode.Http? ==> m.hasPath)
            then Acquire(st.registry, m.id, st.cfg.crowdsecConfigured, env.bouncerStarts).0
            else st.registry
  {
    if m.mode.Tcp? || m.mode.Tls? {
      var st1, st2, r := SetupPortShape(st, m, env);
      OpenPortEffect(st, m.listenPort, env.tcpListenOk);
      assert Setup(st, m, env).0.registry == st2.registry;
    }
  }

  /** A successful setup of a service without a reference takes one exactly when the mapping asks for
      CrowdSec, the proxy has it configured, and the bouncer runs already or starts. */
  lemma CrowdSecTakenExactly(st: State, m: Mapping, env: Env)
    requires Structural(st) && Balanced(st) && Setup(st, m, env).1 && m.id !in st.crowdsecServices
    ensures m.id in Setup(st, m, env).0.registry.refs <==>
            m.crowdsec && (m.mode.Http? ==> m.hasPath) && st.cfg.crowdsecConfigured &&
            (st.crowdsecServices != {} || env.bouncerStarts)
  {
    RegistryAfterSetup(st, m, env);
  }

  /** Nothing of service `s` but possibly its fallbacks changed from `a` to `b`. */
  ghost predicate Undisturbed(a: State, b: State, s: ServiceId) {
    && (forall p, h, x: Route :: x.svc == s ==> (RouteIn(a, p, h, x) <==> RouteIn(b, p, h, x)))
    && (forall p, x: Route :: x.svc == s && FallbackIn(b, p, x) ==> FallbackIn(a, p, x))
    && PortsOf(a, s) == PortsOf(b, s)
    && (s in a.udpRelays <==> s in b.udpRelays) && (s in a.udpRelays ==> a.udpRelays[s] == b.udpRelays[s])
    && (s in a.crowdsecServices <==> s in b.crowdsecServices)
    && (s in a.lastMappings <==> s in b.lastMappings) && (s in a.lastMappings ==> a.lastMappings[s] == b.lastMappings[s])
  }

  lemma UndisturbedTwice(a: State, b: State, c: State, s: ServiceId)
    requires Undisturbed(a, b, s) && Undisturbed(b, c, s)
    ensures Undisturbed(a, c, s)
  {
  }

  lemma CleanupIsolates(st: State, m: Mapping, s: ServiceId)
    requires Structural(st) && s != m.id
    ensures Undisturbed(st, Cleanup(st, m), s)
  {
    CleanupEffect(st, m);
    SweptIsolates(st, Cleanup(st, m), m, s);
  }

  lemma SweptIsolates(a: State, b: State, m: Mapping, s: ServiceId)
    requires Swept(a, b, m) && s != m.id && b.lastMappings == a.lastMappings && b.svcPorts == a.svcPorts - {m.id}
    requires b.udpRelays == a.udpRelays - {m.id} && b.crowdsecServices == a.crowdsecServices - {m.id}
    ensures Undisturbed(a, b, s)
  {
  }

  lemma SetupIsolates(st: State, m: Mapping, env: Env, s: ServiceId)
    requires Structural(st) && s != m.id
    ensures Undisturbed(st, Setup(st, m, env).0, s)
  {
    SetupEffect(st, m, env);
    var st' := Setup(st, m, env).0;
    assert s in st'.udpRelays <==> s in st'.udpRelays - {m.id};
    assert s in st.udpRelays <==> s in st.udpRelays - {m.id};
    assert s in st.udpRelays ==> st.udpRelays[s] == (st.udpRelays - {m.id})[s] == (st'.udpRelays - {m.id})[s];
  }

  lemma FinishIsolates(st: State, m: Mapping, env: Env, s: ServiceId)
    requires Structural(st) && s != m.id
    ensures Undisturbed(st, Finish(st, m, env).0, s)
  {
    var (st1, ok) := Setup(st, m, env);
    SetupIsolates(st, m, env, s);
    SetupEffect(st, m, env);
    if ok {
      SameRouters(st1, Store(st1, m));
    } else {
      CleanupIsolates(st1, m, s);
      UndisturbedTwice(st, st1, Cleanup(st1, m), s);
    }
  }

  lemma StepStoresSent(st: State, u: Update, env: Env, s: ServiceId)
    requires Structural(st) && s in Step(st, u, env).0.lastMappings
    ensures (s in st.lastMappings && Step(st, u, env).0.lastMappings[s] == st.lastMappings[s]) ||
            (!u.kind.Removed? && Step(st, u, env).0.lastMappings[s] == u.mapping && s == u.mapping.id)
  {
    var m := u.mapping;
    var known := Known(st, m);
    match u.kind
    case Created =>
      FinishStores(st, m, env);
    case Modified =>
      CleanupEffect(st, known);
      FinishStores(Cleanup(st, known), m, env);
    case Removed =>
      var st1 := st.(lastMappings := st.lastMappings - {m.id});
      CleanupEffect(st1, known);
  }

  lemma FinishStores(st: State, m: Mapping, env: Env)
    requires Structural(st)
    ensures Finish(st, m, env).0.lastMappings ==
            if Finish(st, m, env).1 then st.lastMappings[m.id := m] else st.lastMappings
  {
    SetupEffect(st, m, env);
    CleanupEffect(Setup(st, m, env).0, m);
  }

  lemma ModifyIsolates(st: State, m: Mapping, env: Env, s: ServiceId)
    requires Structural(st) && StoredById(st) && s != m.id
    ensures Undisturbed(st, ModifyMapping(st, m, env).0, s)
  {
    var known := Known(st, m);
    var st1 := Cleanup(st, known);
    CleanupIsolates(st, known, s);
    CleanupEffect(st, known);
    FinishIsolates(st1, m, env, s);
    UndisturbedTwice(st, st1, Finish(st1, m, env).0, s);
  }

  lemma RemoveIsolates(st: State, m: Mapping, s: ServiceId)
    requires Structural(st) && StoredById(st) && s != m.id
    ensures Undisturbed(st, RemoveMapping(st, m), s)
  {
    var known := Known(st, m);
    var st1 := st.(lastMappings := st.lastMappings - {m.id});
    SameRouters(st, st1);
    CleanupIsolates(st1, known, s);
    UndisturbedTwice(st, st1, Cleanup(st1, known), s);
  }

  /** Whatever an update does and wherever it fails, the routes, relay, CrowdSec reference, tracked
      ports and stored mapping of every other service stay as they are; only a fallback can be
      lost, and none is gained. */
  lemma StepIsolates(st: State, u: Update, env: Env, s: ServiceId)
    requires Structural(st) && StoredById(st) && s != u.mapping.id
    ensures Undisturbed(st, Step(st, u, env).0, s)
  {
    match u.kind
    case Created => FinishIsolates(st, u.mapping, env, s);
    case Modified => ModifyIsolates(st, u.mapping, env, s);
    case Removed => RemoveIsolates(st, u.mapping, s);
  }

  lemma {:induction false} RunStoresById(st: State, us: seq<Update>, envs: seq<Env>)
    requires |us| == |envs| && Sound(st) && StoredById(st)
    ensures StoredById(Run(st, us, envs))
  {
    if us != [] {
      var n := |us| - 1;
      RunStoresById(st, us[..n], envs[..n]);
      RunKeepsSound(st, us[..n], envs[..n]);
      var before, after := Run(st, us[..n], envs[..n]), Run(st, us, envs);
      forall s | s in after.lastMappings ensures after.lastMappings[s].id == s {
        StepStoresSent(before, us[n], envs[n], s);
      }
    }
  }

  /** A stream that never names a service, well formed or not, leaves everything of that service
      alone but possibly its fallbacks. */
  lemma {:induction false} RunIsolates(st: State, us: seq<Update>, envs: seq<Env>, s: ServiceId)
    requires |us| == |envs| && Sound(st) && StoredById(st) && forall i :: 0 <= i < |us| ==> us[i].mapping.id != s
    ensures Undisturbed(st, Run(st, us, envs), s)
  {
    if us != [] {
      var n := |us| - 1;
      RunIsolates(st, us[..n], envs[..n], s);
      RunKeepsSound(st, us[..n], envs[..n]);
      RunStoresById(st, us[..n], envs[..n]);
      var before := Run(st, us[..n], envs[..n]);
      StepIsolates(before, us[n], envs[n], s);
      UndisturbedTwice(st, before, Run(st, us, envs), s);
    }
  }

  // ---------- Resending ----------

  /** Acquiring the CrowdSec reference again would change nothing. */
  predicate CrowdSecSettled(st: State, m: Mapping) {
    m.crowdsec ==> m.id in st.crowdsecServices || !st.cfg.crowdsecConfigured
  }

  lemma RestrictionsAgain(st: State, m: Mapping, env: Env)
    requires Balanced(st) && CrowdSecSettled(st, m)
    ensures ParseRestrictions(st, m, env) == st
  {
    if m.crowdsec && m.id in st.crowdsecServices {
      assert st.crowdsecServices + {m.id} == st.crowdsecServices;
    }
  }

  /** A TCP or TLS mapping that is in force tracks its port. */
  lemma InForceTracks(st: State, m: Mapping)
    requires Inv(st) && InForce(st, m) && ValidPort(m.listenPort)
    requires m.mode.Tcp? || (m.mode.Tls? && m.domain != "")
    ensures IsMain(st.cfg, m.listenPort) || m.listenPort in st.portRouters
    ensures m.mode.Tcp? || !IsMain(st.cfg, m.listenPort) ==> m.id in st.svcPorts && st.svcPorts[m.id] == [m.listenPort]
  {
    assert InPlace(st, m.id);
    assert m.mode.Tcp? || !IsMain(st.cfg, m.listenPort) ==> Hits(st.cfg, PortsOf(st, m.id), HomeSlot(st, m));
  }

  lemma SetupPortAgain(st: State, m: Mapping, env: Env)
    requires Inv(st) && InForce(st, m) && CrowdSecSettled(st, m) && (m.mode.Tcp? || (m.mode.Tls? && m.domain != ""))
    requires Setup(st, m, env).1
    ensures Setup(st, m, env).0 == st
  {
    var st1, st2, r := SetupPortShape(st, m, env);
    InForceTracks(st, m);
    assert st1 == st;
    RestrictionsAgain(st, m, env);
    LowerKeepsEmptiness(m.domain);
    AddRouteAgain(r, m.domain, HomeRoute(m));
    assert Extended(r, m) == r;
    SetSameRouter(st, m.listenPort, r);
    assert TrackedAfter(st, m, true) == st.svcPorts;
  }

  lemma SetSameRouter(st: State, p: Port, r: Router)
    requires RouterFor(st, p) == Some(r)
    ensures SetRouter(st, p, r) == st
  {
    if !IsMain(st.cfg, p) {
      assert st.portRouters[p := st.portRouters[p]] == st.portRouters;
    }
  }

  /** Sending a mapping again that is in force changes nothing at all when the CREATED succeeds; a
      UDP service gets a new listener instead. */
  lemma ResendChangesNothing(st: State, m: Mapping, env: Env)
    requires Inv(st) && InForce(st, m) && CrowdSecSettled(st, m) && !m.mode.Udp? && Shaped(m)
    requires Step(st, Update(Created, m), env).1
    ensures Step(st, Update(Created, m), env) == (st, true)
  {
    assert st.lastMappings[m.id := m] == st.lastMappings;
    if m.mode.Http? {
      if m.hasPath {
        LowerKeepsEmptiness(m.domain);
        AddRouteAgain(st.main, m.domain, HomeRoute(m));
        RestrictionsAgain(st, m, env);
      }
    } else {
      SetupPortAgain(st, m, env);
    }
    assert Setup(st, m, env) == (st, true);
  }

  /** Every mapping of the list is in force, settled and not UDP, and sending it again succeeds. */
  ghost predicate Resendable(st: State, ms: seq<Mapping>, envs: seq<Env>)
    requires |ms| == |envs|
  {
    forall i :: 0 <= i < |ms| ==>
      && InForce(st, ms[i]) && CrowdSecSettled(st, ms[i]) && !ms[i].mode.Udp? && Shaped(ms[i])
      && Step(st, Update(Created, ms[i]), envs[i]).1
  }

  function Creations(ms: seq<Mapping>): seq<Update> {
    seq(|ms|, i requires 0 <= i < |ms| => Update(Created, ms[i]))
  }

  /** The snapshot that management sends again after a reconnect leaves the proxy as it is. */
  lemma {:induction false} SnapshotChangesNothing(st: State, ms: seq<Mapping>, envs: seq<Env>)
    requires Inv(st) && |ms| == |envs| && Resendable(st, ms, envs)
    ensures Run(st, Creations(ms), envs) == st
  {
    if ms != [] {
      var n := |ms| - 1;
      assert Creations(ms)[..n] == Creations(ms[..n]);
      SnapshotChangesNothing(st, ms[..n], envs[..n]);
      ResendChangesNothing(st, ms[n], envs[n]);
    }
  }

  // ---------- A condition on the stream alone ----------

  /** Each service keeps its mode, domain and port throughout the stream, and mappings are well
      shaped. */
  predicate Pinned(us: seq<Update>) {
    && (forall i :: 0 <= i < |us| && !us[i].kind.Removed? ==> Shaped(us[i].mapping))
    && (forall i, j | 0 <= i < |us| && 0 <= j < |us| && !us[i].kind.Removed? && !us[j].kind.Removed? ::
          us[i].mapping.id == us[j].mapping.id ==> SamePlace(us[i].mapping, us[j].mapping))
  }

  /** The mapping came with an earlier update. */
  predicate Sent(us: seq<Update>, m: Mapping) {
    exists i :: 0 <= i < |us| && !us[i].kind.Removed? && us[i].mapping == m
  }

  /** Such a stream is well formed whatever fails on the way, so all guarantees hold for it. */
  lemma {:induction false} PinnedIsWellFormed(cfg: Config, us: seq<Update>, envs: seq<Env>)
    requires |us| == |envs| && Pinned(us)
    ensures WellFormedRun(Initial(cfg), us, envs) && Inv(Run(Initial(cfg), us, envs))
    ensures forall s :: s in Run(Initial(cfg), us, envs).lastMappings ==>
              Sent(us, Run(Initial(cfg), us, envs).lastMappings[s])
  {
    InitialInv(cfg);
    if us != [] {
      var n := |us| - 1;
      PinnedIsWellFormed(cfg, us[..n], envs[..n]);
      var st := Run(Initial(cfg), us[..n], envs[..n]);
      var m := us[n].mapping;
      if us[n].kind.Created? && m.id in st.lastMappings {
        assert Sent(us[..n], st.lastMappings[m.id]);
        var i :| 0 <= i < n && !us[..n][i].kind.Removed? && us[..n][i].mapping == st.lastMappings[m.id];
        assert us[i].mapping.id == m.id;
      }
      assert WellFormed(st, us[n]);
      StepKeepsInv(st, us[n], envs[n]);
      var st' := Step(st, us[n], envs[n]).0;
      forall s | s in st'.lastMappings ensures Sent(us, st'.lastMappings[s]) {
        StepStoresSent(st, us[n], envs[n], s);
        if s in st.lastMappings && st'.lastMappings[s] == st.lastMappings[s] {
          var i :| 0 <= i < n && !us[..n][i].kind.Removed? && us[..n][i].mapping == st.lastMappings[s];
          assert us[i].mapping == st'.lastMappings[s];
        } else {
          assert us[n].mapping == st'.lastMappings[s];
        }
      }
    }
  }
}
