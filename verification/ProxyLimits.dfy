/** Two concrete streams on which the mapping worker falls short. */
module ProxyLimits {
  import opened Text
  import opened ProxyRouter
  import opened ProxyState
  import opened ProxyOwnership
  import opened ProxySetup
  import opened ProxySafety
  import opened ProxyGuarantees

  const ALL_OK := Env(true, true, true, true, true, true)

  function TcpOn(id: ServiceId, port: int): Mapping {
    Mapping(id, Tcp, "", port, true, "10.0.0.1:80", false)
  }

  const CFG := Config(443, 0, false)

  /** A per-port router with just a fallback. */
  function FallbackOnly(m: Mapping, listener: nat): PortRouter {
    PortRouter(Router(map[], Some(HomeRoute(m))), listener)
  }

  /** Creating a TCP service on a custom port, whether the port is open already or not. */
  lemma CreateTcp(st: State, id: ServiceId, p: Port)
    requires st.cfg == CFG && p in {9000, 9001} && (p in st.portRouters ==> st.portRouters[p].router.routes == map[])
    ensures var m := TcpOn(id, p);
            var st' := Step(st, Update(Created, m), ALL_OK).0;
            && st'.svcPorts == st.svcPorts[id := [p]] && st'.lastMappings == st.lastMappings[id := m]
            && st'.cfg == CFG && st'.main == st.main && st'.udpRelays == st.udpRelays
            && st'.crowdsecServices == st.crowdsecServices
            && (p in st.portRouters ==>
                  && st'.listeners == st.listeners
                  && st'.portRouters == st.portRouters[p := FallbackOnly(m, st.portRouters[p].listener)])
            && (p !in st.portRouters ==>
                  && st'.listeners == st.listeners + [Listener(TcpListener(p), 0)]
                  && st'.portRouters == st.portRouters[p := FallbackOnly(m, |st.listeners|)])
  {
    var m := TcpOn(id, p);
    var st1 := OpenPort(st, p, true).0;
    assert RouterFor(st1, p) == Some(st1.portRouters[p].router);
    assert Setup(st, m, ALL_OK) == SetupTcp(st, m, ALL_OK);
    assert Step(st, Update(Created, m), ALL_OK) == (Store(SetupTcp(st, m, ALL_OK).0, m), true);
  }

  /** Removing a stored TCP service closes its port's router when it has only a fallback. */
  lemma RemoveTcp(st: State, id: ServiceId, p: Port)
    requires st.cfg == CFG && p in {9000, 9001} && id in st.lastMappings && st.lastMappings[id] == TcpOn(id, p)
    requires id in st.svcPorts && st.svcPorts[id] == [p] && id !in st.udpRelays && id !in st.crowdsecServices
    requires p in st.portRouters && st.portRouters[p].router.routes == map[]
    ensures var st' := RemoveMapping(st, TcpOn(id, p));
            && st'.portRouters == st.portRouters - {p} && st'.svcPorts == st.svcPorts - {id}
            && st'.lastMappings == st.lastMappings - {id}
            && st'.listeners == CloseOnce(st.listeners, st.portRouters[p].listener)
  {
    var m := TcpOn(id, p);
    var st1 := st.(lastMappings := st.lastMappings - {id}, svcPorts := st.svcPorts - {id});
    assert [p][..0] == [];
    assert CleanPorts(st1, m, [p]) == CleanPort(CleanPorts(st1, m, []), m, p);
    CleanTcpPort(st1, m, p);
    assert RemoveMapping(st, m) == ReleaseCrowdSec(RemoveRelay(CleanPort(st1, m, p), id), id);
  }

  lemma CleanTcpPort(st: State, m: Mapping, p: Port)
    requires !IsMain(st.cfg, p) && m.domain == "" && p in st.portRouters && st.portRouters[p].router.routes == map[]
    ensures CleanPort(st, m, p) == st.(portRouters := st.portRouters - {p},
                                       listeners := CloseOnce(st.listeners, st.portRouters[p].listener))
  {
    var r := st.portRouters[p].router;
    assert IsEmpty(RemoveFallback(r, m.id));
    assert CleanPort(st, m, p) == ClosePortIfEmpty(SetRouter(st, p, RemoveFallback(r, m.id)), p);
    assert SetRouter(st, p, RemoveFallback(r, m.id)).portRouters - {p} == st.portRouters - {p};
  }

  /** Two TCP services created on one port, then the first removed: the stream is well formed,
      yet the second is left stored, tracked and without a listener. */
  lemma SharedPortStrandsTheOther()
    ensures var st0 := Initial(CFG);
            var a, b := TcpOn("a", 9000), TcpOn("b", 9000);
            var st1 := Step(st0, Update(Created, a), ALL_OK).0;
            var st2 := Step(st1, Update(Created, b), ALL_OK).0;
            var st3 := RemoveMapping(st2, a);
            && WellFormed(st0, Update(Created, a)) && WellFormed(st1, Update(Created, b))
            && WellFormed(st2, Update(Removed, a))
            && "b" in st3.lastMappings && PortsOf(st3, "b") == [9000] && 9000 !in st3.portRouters
  {
    var st0 := Initial(CFG);
    CreateTcp(st0, "a", 9000);
    var st1 := Step(st0, Update(Created, TcpOn("a", 9000)), ALL_OK).0;
    CreateTcp(st1, "b", 9000);
    var st2 := Step(st1, Update(Created, TcpOn("b", 9000)), ALL_OK).0;
    RemoveTcp(st2, "a", 9000);
  }

  /** A CREATED that moves a stored TCP service to another port is not well formed, and removing
      the service afterwards leaves its first listener open with its fallback in place. */
  lemma MovedByCreateLeaksListener()
    ensures var st0 := Initial(CFG);
            var a, a' := TcpOn("a", 9000), TcpOn("a", 9001);
            var st1 := Step(st0, Update(Created, a), ALL_OK).0;
            var st2 := Step(st1, Update(Created, a'), ALL_OK).0;
            var st3 := RemoveMapping(st2, a');
            && !WellFormed(st1, Update(Created, a'))
            && "a" !in st3.lastMappings && FallbackIn(st3, 9000, HomeRoute(a)) && Live(st3, 0)
  {
    var st0 := Initial(CFG);
    CreateTcp(st0, "a", 9000);
    var st1 := Step(st0, Update(Created, TcpOn("a", 9000)), ALL_OK).0;
    CreateTcp(st1, "a", 9001);
    var st2 := Step(st1, Update(Created, TcpOn("a", 9001)), ALL_OK).0;
    RemoveTcp(st2, "a", 9001);
  }
}
