/** The mapping worker over whole update streams: ownership, no orphan listeners, resource
    conservation, CrowdSec balance, and where the code falls short of them. */
module ProxySafety {
  import opened Text
  import opened ProxyRouter
  import opened ProxyState
  import opened ProxyOwnership
  import opened ProxySetup

  // ---------- Well-formed updates ----------

  /** TCP mappings carry no domain and TLS mappings carry one. */
  predicate Shaped(m: Mapping) {
    (m.mode.Tcp? ==> m.domain == "") && (m.mode.Tls? ==> m.domain != "")
  }

  predicate SamePlace(a: Mapping, b: Mapping) {
    a.mode == b.mode && a.domain == b.domain && a.listenPort == b.listenPort
  }

  /** A CREATED for a stored service repeats its mode, domain and port. */
  predicate WellFormed(st: State, u: Update) {
    var m := u.mapping;
    && (!u.kind.Removed? ==> Shaped(m))
    && (u.kind.Created? && m.id in st.lastMappings ==> SamePlace(st.lastMappings[m.id], m))
  }

  predicate WellFormedRun(st: State, us: seq<Update>, envs: seq<Env>)
    requires |us| == |envs|
  {
    us == [] ||
    (var n := |us| - 1;
     WellFormedRun(st, us[..n], envs[..n]) && WellFormed(Run(st, us[..n], envs[..n]), us[n]))
  }

  // ---------- The invariant ----------

  predicate StoredById(st: State) {
    forall s :: s in st.lastMappings ==> st.lastMappings[s].id == s
  }

  /** Mappings are stored under their own ID and are well shaped. */
  predicate WellStored(st: State) {
    StoredById(st) && forall s :: s in st.lastMappings ==> Shaped(st.lastMappings[s])
  }

  /** The tracked ports of a service are the listen port of its stored TCP or TLS mapping. */
  predicate TrackedOk(st: State, s: ServiceId) {
    s in st.svcPorts ==>
      && s in st.lastMappings && (st.lastMappings[s].mode.Tcp? || st.lastMappings[s].mode.Tls?)
      && ValidPort(st.lastMappings[s].listenPort) && st.svcPorts[s] == [st.lastMappings[s].listenPort as nat]
  }

  /** Nothing in the proxy mentions the service. */
  ghost predicate Gone(st: State, s: ServiceId) {
    OwnsNothing(st, s) && s !in st.svcPorts && s !in st.udpRelays && s !in st.crowdsecServices
  }

  /** Every route and fallback of the service lies at the domain of its stored mapping, on the
      main router or a tracked port; a service that is not stored is mentioned nowhere. */
  ghost predicate InPlace(st: State, s: ServiceId) {
    if s in st.lastMappings then Covers(st, st.lastMappings[s]) && TrackedOk(st, s) else Gone(st, s)
  }

  /** The invariant for every service but one. */
  ghost predicate InvBut(st: State, s: ServiceId) {
    Sound(st) && AllBusy(st) && WellStored(st) && forall t :: t != s ==> InPlace(st, t)
  }

  ghost predicate Inv(st: State) {
    Sound(st) && AllBusy(st) && WellStored(st) && forall t :: InPlace(st, t)
  }

  // ---------- Cleanup, exactly ----------

  /** `b` is `a` after the entries that cleanup of `m` looks for were dropped. */
  ghost predicate Swept(a: State, b: State, m: Mapping) {
    && RoutesLost(a, b, Lower(m.domain), m.id, SweptSlots(a, m))
    && FallbacksLost(a, b, FallbackSlots(a.cfg, m, PortsOf(a, m.id)))
  }

  lemma SweptClearsExactly(a: State, b: State, m: Mapping)
    requires Swept(a, b, m)
    ensures OwnsNothing(b, m.id) <==> Covers(a, m)
  {
    if OwnsNothing(b, m.id) {
      forall p, h, x | RouteIn(a, p, h, x) && x.svc == m.id
        ensures m.domain != "" && h == Lower(m.domain) && (p == 0 || Hits(a.cfg, PortsOf(a, m.id), p))
      {
        assert !RouteIn(b, p, h, x);
      }
      forall p, x | FallbackIn(a, p, x) && x.svc == m.id
        ensures m.domain == "" && Hits(a.cfg, PortsOf(a, m.id), p)
      {
        assert !FallbackIn(b, p, x);
      }
    }
  }

  /** Cleanup of a mapping leaves its service without any entry exactly when every entry of the
      service lay where the mapping points. */
  lemma CleanupClearsExactly(st: State, m: Mapping)
    requires Structural(st)
    ensures OwnsNothing(Cleanup(st, m), m.id) <==> Covers(st, m)
  {
    CleanupEffect(st, m);
    SweptClearsExactly(st, Cleanup(st, m), m);
  }

  /** No fallback of another service sits on a port that cleanup of `m` will sweep. */
  ghost predicate NoForeignFallback(st: State, m: Mapping) {
    m.domain == "" ==>
      forall p, x :: FallbackIn(st, p, x) && Hits(st.cfg, PortsOf(st, m.id), p) ==> x.svc == m.id
  }

  ghost predicate OthersKept(a: State, b: State, s: ServiceId) {
    && (forall p, h, x: Route :: x.svc != s ==> (RouteIn(a, p, h, x) <==> RouteIn(b, p, h, x)))
    && (forall p, x: Route :: x.svc != s ==> (FallbackIn(a, p, x) <==> FallbackIn(b, p, x)))
  }

  lemma SweptSparesOthersExactly(a: State, b: State, m: Mapping)
    requires Swept(a, b, m)
    ensures OthersKept(a, b, m.id) <==> NoForeignFallback(a, m)
  {
    if OthersKept(a, b, m.id) && m.domain == "" {
      forall p, x | FallbackIn(a, p, x) && Hits(a.cfg, PortsOf(a, m.id), p) ensures x.svc == m.id {
        assert !FallbackIn(b, p, x);
      }
    }
  }

  /** Cleanup leaves the routes of other services alone always, and their fallbacks exactly when
      none of them sits on a tracked port of a service without a domain: RemoveFallback does
      not look at the owner. */
  lemma CleanupSparesOthersExactly(st: State, m: Mapping)
    requires Structural(st)
    ensures OthersKept(st, Cleanup(st, m), m.id) <==> NoForeignFallback(st, m)
  {
    CleanupEffect(st, m);
    SweptSparesOthersExactly(st, Cleanup(st, m), m);
  }

  // ---------- Every stream keeps listeners and CrowdSec references in order ----------

  /** The common tail of addMapping and modifyMapping: set up, then store or clean up. */
  function Finish(st: State, m: Mapping, env: Env): (State, bool) {
    var (st1, ok) := Setup(st, m, env);
    if ok then (Store(st1, m), true) else (Cleanup(st1, m), false)
  }

  lemma FinishKeepsSound(st: State, m: Mapping, env: Env)
    requires Sound(st)
    ensures Sound(Finish(st, m, env).0)
  {
    var (st1, ok) := Setup(st, m, env);
    SetupSound(st, m, env);
    if ok {
      ConservedFrame(st1, Store(st1, m));
    } else {
      CleanupEffect(st1, m);
    }
  }

  /** Any update, well formed or not and wherever it fails, keeps every listener accounted for and
      the CrowdSec references balanced. */
  lemma StepKeepsSound(st: State, u: Update, env: Env)
    requires Sound(st)
    ensures Sound(Step(st, u, env).0)
  {
    var m := u.mapping;
    var known := Known(st, m);
    match u.kind
    case Created =>
      FinishKeepsSound(st, m, env);
    case Modified =>
      CleanupEffect(st, known);
      FinishKeepsSound(Cleanup(st, known), m, env);
    case Removed =>
      var st1 := st.(lastMappings := st.lastMappings - {m.id});
      ConservedFrame(st, st1);
      CleanupEffect(st1, known);
  }

  /** ... and so does any stream: moved CREATEDs, TCP mappings with a domain and TLS mappings
      without one included. */
  lemma {:induction false} RunKeepsSound(st: State, us: seq<Update>, envs: seq<Env>)
    requires |us| == |envs| && Sound(st)
    ensures Sound(Run(st, us, envs))
  {
    if us != [] {
      var n := |us| - 1;
      RunKeepsSound(st, us[..n], envs[..n]);
      StepKeepsSound(Run(st, us[..n], envs[..n]), us[n], envs[n]);
    }
  }

  // ---------- One update keeps the invariant ----------

  /** Entries of the service in `b` are among those in `a`, and the same ports are tracked. */
  lemma CoversFrame(a: State, b: State, m: Mapping)
    requires Covers(a, m) && a.cfg == b.cfg && PortsOf(a, m.id) == PortsOf(b, m.id)
    requires forall p, h, x :: RouteIn(b, p, h, x) && x.svc == m.id ==> RouteIn(a, p, h, x)
    requires forall p, x :: FallbackIn(b, p, x) && x.svc == m.id ==> FallbackIn(a, p, x)
    ensures Covers(b, m)
  {
  }

  lemma NothingIsCovered(st: State, m: Mapping)
    requires OwnsNothing(st, m.id)
    ensures Covers(st, m)
  {
  }

  /** Setting up a well-shaped mapping keeps its own entries where cleanup will find them. */
  lemma SetupCovers(st: State, m: Mapping, env: Env)
    requires Structural(st) && Shaped(m) && Covers(st, m)
    requires PortsOf(st, m.id) == [] || (m.listenPort >= 0 && PortsOf(st, m.id) == [m.listenPort as nat])
    ensures Covers(Setup(st, m, env).0, m)
  {
    var (st', ok) := Setup(st, m, env);
    SetupEffect(st, m, env);
    if ok && (m.mode.Tcp? || m.mode.Tls?) {
      SetupPortValid(st, m, env);
    }
    forall p | Hits(st.cfg, PortsOf(st, m.id), p) ensures Hits(st'.cfg, PortsOf(st', m.id), p) {
    }
    if st'.svcPorts != st.svcPorts {
      assert m.listenPort as nat in PortsOf(st', m.id);
      assert Hits(st'.cfg, PortsOf(st', m.id), HomeSlot(st, m));
    }
  }

  lemma SetupPortValid(st: State, m: Mapping, env: Env)
    requires Structural(st) && (m.mode.Tcp? || m.mode.Tls?) && Setup(st, m, env).1
    ensures ValidPort(m.listenPort)
  {
    var _, _, _ := SetupPortShape(st, m, env);
  }

  lemma SetupKeepsBut(st: State, m: Mapping, env: Env)
    requires InvBut(st, m.id) && (m.mode.Tls? ==> m.domain != "")
    ensures InvBut(Setup(st, m, env).0, m.id)
  {
    var st' := Setup(st, m, env).0;
    SetupSound(st, m, env);
    SetupBusy(st, m, env);
    SetupEffect(st, m, env);
    forall t | t != m.id ensures InPlace(st', t) {
      assert InPlace(st, t);
      assert t in st'.udpRelays ==> t in st'.udpRelays - {m.id};
      if t in st.lastMappings {
        CoversFrame(st, st', st.lastMappings[t]);
      }
    }
  }

  lemma CleanupKeepsBut(st: State, m: Mapping)
    requires InvBut(st, m.id)
    ensures InvBut(Cleanup(st, m), m.id)
  {
    var st' := Cleanup(st, m);
    CleanupEffect(st, m);
    forall t | t != m.id ensures InPlace(st', t) {
      assert InPlace(st, t);
      if t in st.lastMappings {
        CoversFrame(st, st', st.lastMappings[t]);
      }
    }
  }

  /** Changing only the stored mapping of a service. */
  lemma RestoreKeepsBut(st: State, st': State, s: ServiceId)
    requires InvBut(st, s) && st' == st.(lastMappings := st'.lastMappings)
    requires st'.lastMappings - {s} == st.lastMappings - {s} && WellStored(st')
    ensures InvBut(st', s)
  {
    ConservedFrame(st, st');
    SameRouters(st, st');
    forall t | t != s ensures InPlace(st', t) {
      assert InPlace(st, t);
      assert t in st'.lastMappings <==> t in st'.lastMappings - {s};
      assert t in st.lastMappings <==> t in st.lastMappings - {s};
      if t in st.lastMappings {
        assert st'.lastMappings[t] == (st'.lastMappings - {s})[t] == (st.lastMappings - {s})[t];
        CoversFrame(st, st', st.lastMappings[t]);
      }
    }
  }

  lemma CompleteInv(st: State, s: ServiceId)
    requires InvBut(st, s) && InPlace(st, s)
    ensures Inv(st)
  {
  }

  /** Cleanup with a mapping that covers the service leaves nothing of it. */
  lemma CleanupMakesGone(st: State, m: Mapping)
    requires Structural(st) && Covers(st, m)
    ensures Gone(Cleanup(st, m), m.id)
  {
    CleanupClearsExactly(st, m);
    CleanupEffect(st, m);
  }

  /** The service tracks at most the listen port of this TCP or TLS mapping. */
  predicate TracksOnly(st: State, m: Mapping) {
    m.id in st.svcPorts ==>
      (m.mode.Tcp? || m.mode.Tls?) && ValidPort(m.listenPort) && st.svcPorts[m.id] == [m.listenPort as nat]
  }

  lemma SetupTracksOnly(st: State, m: Mapping, env: Env)
    requires Structural(st) && TracksOnly(st, m)
    ensures TracksOnly(Setup(st, m, env).0, m)
  {
    SetupEffect(st, m, env);
    if Setup(st, m, env).1 && (m.mode.Tcp? || m.mode.Tls?) {
      SetupPortValid(st, m, env);
    }
  }

  /** Storing a mapping that covers its service puts the service in place. */
  lemma StoreCompletes(st: State, m: Mapping)
    requires InvBut(st, m.id) && Shaped(m) && Covers(st, m) && TracksOnly(st, m)
    ensures Inv(Store(st, m))
  {
    var st' := Store(st, m);
    RestoreKeepsBut(st, st', m.id);
    SameRouters(st, st');
    CoversFrame(st, st', m);
    CompleteInv(st', m.id);
  }

  /** Cleaning up a mapping that covers its service leaves nothing of it. */
  lemma RollbackCompletes(st: State, m: Mapping)
    requires InvBut(st, m.id) && Covers(st, m)
    ensures Inv(Cleanup(st, m)) && Gone(Cleanup(st, m), m.id)
  {
    var st' := Cleanup(st, m);
    CleanupKeepsBut(st, m);
    CleanupMakesGone(st, m);
    if m.id in st'.lastMappings {
      NothingIsCovered(st', st'.lastMappings[m.id]);
    }
    CompleteInv(st', m.id);
  }

  /** It re-establishes the invariant from a state where the service's entries, if any, are
      where the new mapping points; after a failure nothing mentions the service any more. */
  lemma FinishKeepsInv(st: State, m: Mapping, env: Env)
    requires InvBut(st, m.id) && Shaped(m) && Covers(st, m) && TracksOnly(st, m)
    ensures Inv(Finish(st, m, env).0)
    ensures !Finish(st, m, env).1 ==> Gone(Finish(st, m, env).0, m.id)
  {
    var (st1, ok) := Setup(st, m, env);
    SetupKeepsBut(st, m, env);
    SetupCovers(st, m, env);
    if ok {
      SetupTracksOnly(st, m, env);
      StoreCompletes(st1, m);
    } else {
      RollbackCompletes(st1, m);
    }
  }

  lemma AddMappingKeepsInv(st: State, m: Mapping, env: Env)
    requires Inv(st) && WellFormed(st, Update(Created, m))
    ensures Inv(AddMapping(st, m, env).0)
  {
    if env.peerOk {
      assert InPlace(st, m.id);
      if m.id !in st.lastMappings {
        NothingIsCovered(st, m);
      }
      FinishKeepsInv(st, m, env);
    }
  }

  lemma ModifyMappingKeepsInv(st: State, m: Mapping, env: Env)
    requires Inv(st) && Shaped(m)
    ensures Inv(ModifyMapping(st, m, env).0)
    ensures !ModifyMapping(st, m, env).1 ==> Gone(ModifyMapping(st, m, env).0, m.id)
  {
    var known := Known(st, m);
    assert InPlace(st, m.id);
    if m.id !in st.lastMappings {
      NothingIsCovered(st, m);
    }
    CleanupKeepsBut(st, known);
    CleanupMakesGone(st, known);
    var st1 := Cleanup(st, known);
    NothingIsCovered(st1, m);
    FinishKeepsInv(st1, m, env);
  }

  /** removeMapping leaves no route, fallback, tracked port, relay, CrowdSec reference or stored
      mapping of the service, and keeps the invariant. */
  lemma RemoveMappingLeavesNothing(st: State, m: Mapping)
    requires Inv(st)
    ensures Inv(RemoveMapping(st, m))
    ensures Gone(RemoveMapping(st, m), m.id) && m.id !in RemoveMapping(st, m).lastMappings
    ensures m.id !in RemoveMapping(st, m).registry.refs
  {
    var known := Known(st, m);
    var st1 := st.(lastMappings := st.lastMappings - {m.id});
    assert InPlace(st, m.id);
    if m.id !in st.lastMappings {
      NothingIsCovered(st, m);
    }
    RestoreKeepsBut(st, st1, m.id);
    SameRouters(st, st1);
    CoversFrame(st, st1, known);
    CleanupKeepsBut(st1, known);
    CleanupMakesGone(st1, known);
    CleanupEffect(st1, known);
    CompleteInv(Cleanup(st1, known), m.id);
  }

  /** Every update of a well-formed stream keeps the invariant, whatever fails. */
  lemma StepKeepsInv(st: State, u: Update, env: Env)
    requires Inv(st) && WellFormed(st, u)
    ensures Inv(Step(st, u, env).0)
  {
    match u.kind
    case Created => AddMappingKeepsInv(st, u.mapping, env);
    case Modified => ModifyMappingKeepsInv(st, u.mapping, env);
    case Removed => RemoveMappingLeavesNothing(st, u.mapping);
  }

  lemma InitialInv(cfg: Config)
    ensures Inv(Initial(cfg))
  {
  }

  /** ... and so does every well-formed stream. */
  lemma {:induction false} RunKeepsInv(st: State, us: seq<Update>, envs: seq<Env>)
    requires |us| == |envs| && Inv(st) && WellFormedRun(st, us, envs)
    ensures Inv(Run(st, us, envs))
  {
    if us != [] {
      var n := |us| - 1;
      RunKeepsInv(st, us[..n], envs[..n]);
      StepKeepsInv(Run(st, us[..n], envs[..n]), us[n], envs[n]);
    }
  }
}
