/** The state of the reverse proxy's mapping worker (proxy/server.go) and what each update
    does to it. Calls that leave the process (listen, dial, auth, peer creation, bouncer
    start) succeed or fail as `Env` says. */
module ProxyState {
  import opened Text
  import opened ProxyRouter

  type Port = nat

  datatype Mode = Http | Tcp | Udp | Tls

  /** One service mapping. `l4Target` is the first target when it is a valid host:port and ""
      otherwise; `crowdsec` says that the restrictions ask for a CrowdSec mode. */
  datatype Mapping = Mapping(
    id: ServiceId, mode: Mode, domain: string, listenPort: int,
    hasPath: bool, l4Target: string, crowdsec: bool)

  datatype Resource = TcpListener(port: Port) | UdpListener(svc: ServiceId, port: Port)

  /** A listener that was opened at some time, with the number of times it was closed. */
  datatype Listener = Listener(what: Resource, closes: nat)

  /** `listener` is a position in `State.listeners`. */
  datatype PortRouter = PortRouter(router: Router, listener: nat)

  /** The shared CrowdSec bouncer: who holds a reference and whether it runs. */
  datatype Registry = Registry(refs: set<ServiceId>, running: bool)

  datatype Config = Config(mainPort: Port, wireguardPort: Port, crowdsecConfigured: bool)

  datatype Env = Env(peerOk: bool, tcpListenOk: bool, udpListenOk: bool, dialerOk: bool,
                     authOk: bool, bouncerStarts: bool)

  datatype State = State(
    cfg: Config,
    main: Router,
    portRouters: map<Port, PortRouter>,
    svcPorts: map<ServiceId, seq<Port>>,
    lastMappings: map<ServiceId, Mapping>,
    udpRelays: map<ServiceId, nat>,
    crowdsecServices: set<ServiceId>,
    registry: Registry,
    listeners: seq<Listener>)

  function Initial(cfg: Config): State {
    State(cfg, EMPTY_ROUTER, map[], map[], map[], map[], {}, Registry({}, false), [])
  }

  // ---------- CrowdSec registry ----------

  /** Takes a reference; the flag says whether the caller got a running bouncer. */
  function Acquire(reg: Registry, svc: ServiceId, configured: bool, starts: bool): (Registry, bool) {
    if !configured then (reg, false)
    else if svc in reg.refs then (reg, reg.running)
    else if !reg.running && !starts then (reg, false)
    else (Registry(reg.refs + {svc}, true), true)
  }

  function Release(reg: Registry, svc: ServiceId): Registry {
    var refs := reg.refs - {svc};
    Registry(refs, reg.running && refs != {})
  }

  /** parseRestrictions: acquire and record when the mapping asks for CrowdSec. */
  function ParseRestrictions(st: State, m: Mapping, env: Env): State {
    if !m.crowdsec then st
    else
      var (reg, got) := Acquire(st.registry, m.id, st.cfg.crowdsecConfigured, env.bouncerStarts);
      st.(registry := reg,
          crowdsecServices := if got then st.crowdsecServices + {m.id} else st.crowdsecServices)
  }

  function ReleaseCrowdSec(st: State, svc: ServiceId): State {
    st.(crowdsecServices := st.crowdsecServices - {svc},
        registry := if svc in st.crowdsecServices then Release(st.registry, svc) else st.registry)
  }

  // ---------- Listeners and per-port routers ----------

  function CloseOnce(ls: seq<Listener>, i: nat): seq<Listener> {
    if i < |ls| then ls[i := ls[i].(closes := ls[i].closes + 1)] else ls
  }

  predicate IsMain(cfg: Config, p: Port) {
    p == 0 || p == cfg.mainPort
  }

  /** routerForPortExisting. */
  function RouterFor(st: State, p: Port): Option<Router> {
    if IsMain(st.cfg, p) then Some(st.main)
    else if p in st.portRouters then Some(st.portRouters[p].router)
    else None
  }

  function SetRouter(st: State, p: Port, r: Router): State {
    if IsMain(st.cfg, p) then st.(main := r)
    else if p in st.portRouters then
      st.(portRouters := st.portRouters[p := st.portRouters[p].(router := r)])
    else st
  }

  /** routerForPort: opens a listener for a custom port that has no router yet. */
  function OpenPort(st: State, p: Port, listenOk: bool): (State, bool) {
    if IsMain(st.cfg, p) || p in st.portRouters then (st, true)
    else if !listenOk then (st, false)
    else (st.(portRouters := st.portRouters[p := PortRouter(EMPTY_ROUTER, |st.listeners|)],
              listeners := st.listeners + [Listener(TcpListener(p), 0)]), true)
  }

  /** cleanupPortIfEmpty. */
  function ClosePortIfEmpty(st: State, p: Port): State {
    if IsMain(st.cfg, p) || p !in st.portRouters || !IsEmpty(st.portRouters[p].router) then st
    else st.(portRouters := st.portRouters - {p},
             listeners := CloseOnce(st.listeners, st.portRouters[p].listener))
  }

  function RemoveRelay(st: State, svc: ServiceId): State {
    if svc !in st.udpRelays then st
    else st.(udpRelays := st.udpRelays - {svc},
             listeners := CloseOnce(st.listeners, st.udpRelays[svc]))
  }

  // ---------- Cleanup ----------

  function PortsOf(st: State, svc: ServiceId): seq<Port> {
    if svc in st.svcPorts then st.svcPorts[svc] else []
  }

  /** One turn of the cleanup loop over the service's tracked ports. */
  function CleanPort(st: State, m: Mapping, p: Port): State {
    var r := RouterFor(st, p);
    var st1 :=
      if r.None? then st
      else if m.domain != "" then SetRouter(st, p, RemoveRoute(r.value, m.domain, m.id))
      else SetRouter(st, p, RemoveFallback(r.value, m.id));
    ClosePortIfEmpty(st1, p)
  }

  function CleanPorts(st: State, m: Mapping, ps: seq<Port>): State {
    if ps == [] then st
    else CleanPort(CleanPorts(st, m, ps[..|ps| - 1]), m, ps[|ps| - 1])
  }

  function DropMainRoute(st: State, m: Mapping): State {
    if m.domain == "" then st else st.(main := RemoveRoute(st.main, m.domain, m.id))
  }

  /** cleanupMappingRoutes. */
  function Cleanup(st: State, m: Mapping): State {
    var st1 := DropMainRoute(st, m);
    var st2 := CleanPorts(st1.(svcPorts := st1.svcPorts - {m.id}), m, PortsOf(st1, m.id));
    ReleaseCrowdSec(RemoveRelay(st2, m.id), m.id)
  }

  // ---------- Setup ----------

  predicate ValidPort(p: int) {
    0 < p <= 65535
  }

  predicate TunnelPort(cfg: Config, p: int) {
    cfg.wireguardPort != 0 && p == cfg.wireguardPort
  }

  function SetupHttp(st: State, m: Mapping, env: Env): (State, bool) {
    if !m.hasPath then (st, true)
    else
      var st1 := st.(main := AddRoute(st.main, m.domain, Route(m.id, HttpRoute, "")));
      (ParseRestrictions(st1, m, env), env.authOk)
  }

  function SetupTcp(st: State, m: Mapping, env: Env): (State, bool) {
    if !ValidPort(m.listenPort) || m.l4Target == "" || TunnelPort(st.cfg, m.listenPort) then (st, false)
    else
      var (st1, ok) := OpenPort(st, m.listenPort, env.tcpListenOk);
      if !ok then (st1, false)
      else
        var st2 := ParseRestrictions(st1, m, env);
        var r := RouterFor(st2, m.listenPort);
        var st3 := if r.None? then st2
                   else SetRouter(st2, m.listenPort, SetFallback(r.value, Route(m.id, TcpRoute, m.l4Target)));
        (st3.(svcPorts := st3.svcPorts[m.id := [m.listenPort]]), true)
  }

  function SetupTls(st: State, m: Mapping, env: Env): (State, bool) {
    if !ValidPort(m.listenPort) || m.l4Target == "" || TunnelPort(st.cfg, m.listenPort) then (st, false)
    else
      var (st1, ok) := OpenPort(st, m.listenPort, env.tcpListenOk);
      if !ok then (st1, false)
      else
        var st2 := ParseRestrictions(st1, m, env);
        var r := RouterFor(st2, m.listenPort);
        var st3 := if r.None? then st2
                   else SetRouter(st2, m.listenPort,
                                  AddRoute(r.value, m.domain, Route(m.id, TcpRoute, m.l4Target)));
        (if m.listenPort != st.cfg.mainPort then st3.(svcPorts := st3.svcPorts[m.id := [m.listenPort]])
         else st3, true)
  }

  /** setupUDPMapping with addUDPRelay: an existing relay is closed before the new listen. */
  function SetupUdp(st: State, m: Mapping, env: Env): (State, bool) {
    if !ValidPort(m.listenPort) || m.l4Target == "" || TunnelPort(st.cfg, m.listenPort) then (st, false)
    else
      var st1 := RemoveRelay(st, m.id);
      if !env.udpListenOk then (st1, false)
      else
        var i := |st1.listeners|;
        var st2 := st1.(listeners := st1.listeners + [Listener(UdpListener(m.id, m.listenPort), 0)]);
        if !env.dialerOk then (st2.(listeners := CloseOnce(st2.listeners, i)), false)
        else
          var st3 := ParseRestrictions(st2, m, env);
          (st3.(udpRelays := st3.udpRelays[m.id := i]), true)
  }

  function Setup(st: State, m: Mapping, env: Env): (State, bool) {
    match m.mode
    case Tcp => SetupTcp(st, m, env)
    case Udp => SetupUdp(st, m, env)
    case Tls => SetupTls(st, m, env)
    case Http => SetupHttp(st, m, env)
  }

  // ---------- Updates ----------

  datatype UpdateKind = Created | Modified | Removed

  datatype Update = Update(kind: UpdateKind, mapping: Mapping)

  function Store(st: State, m: Mapping): State {
    st.(lastMappings := st.lastMappings[m.id := m])
  }

  function AddMapping(st: State, m: Mapping, env: Env): (State, bool) {
    if !env.peerOk then (st, false)
    else
      var (st1, ok) := Setup(st, m, env);
      if ok then (Store(st1, m), true) else (Cleanup(st1, m), false)
  }

  /** The mapping whose routes are torn down: the stored one if there is one. */
  function Known(st: State, m: Mapping): Mapping {
    if m.id in st.lastMappings then st.lastMappings[m.id] else m
  }

  function ModifyMapping(st: State, m: Mapping, env: Env): (State, bool) {
    var (st1, ok) := Setup(Cleanup(st, Known(st, m)), m, env);
    if ok then (Store(st1, m), true) else (Cleanup(st1, m), false)
  }

  function RemoveMapping(st: State, m: Mapping): State {
    Cleanup(st.(lastMappings := st.lastMappings - {m.id}), Known(st, m))
  }

  /** One turn of processMappings; the flag is false when an error is reported. */
  function Step(st: State, u: Update, env: Env): (State, bool) {
    match u.kind
    case Created => AddMapping(st, u.mapping, env)
    case Modified => ModifyMapping(st, u.mapping, env)
    case Removed => (RemoveMapping(st, u.mapping), true)
  }

  function Run(st: State, us: seq<Update>, envs: seq<Env>): State
    requires |us| == |envs|
  {
    if us == [] then st
    else Step(Run(st, us[..|us| - 1], envs[..|us| - 1]), us[|us| - 1], envs[|us| - 1]).0
  }
}
