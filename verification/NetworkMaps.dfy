/** Network maps over whole runs of the engine: which maps are applied, what the store holds
    afterwards, how the serial moves and which peers can be reached
    (client/internal/engine.go, updateNetworkMap). */
module NetworkMaps {
  import opened PeerState
  import opened NetLists
  import opened Reconciliation

  /** `configOk` says whether applying the peer configuration part succeeds; `lazyEnabled` is the
      remote feature flag, false when the map has no peer configuration; `forwardAddrs` are the
      texts of the translated addresses of the forwarding rules. */
  datatype NetworkMap = NetworkMap(
    serial: nat, configOk: bool, lazyEnabled: bool, remotePeers: seq<PeerConfig>, remotePeersIsEmpty: bool,
    forwardAddrs: set<string>)

  datatype EngineState = EngineState(serial: nat, own: Key, peers: Peers)

  function WithoutOwn(list: seq<PeerConfig>, own: Key): seq<PeerConfig> {
    if list == [] then []
    else
      var n := |list| - 1;
      WithoutOwn(list[..n], own) + (if list[n].key != own then [list[n]] else [])
  }

  lemma {:induction false} WithoutOwnMembers(list: seq<PeerConfig>, own: Key)
    ensures forall p :: p in WithoutOwn(list, own) <==> p in list && p.key != own
  {
    if list != [] {
      var n := |list| - 1;
      WithoutOwnMembers(list[..n], own);
      assert list == list[..n] + [list[n]];
    }
  }

  /** Our own key is dropped and the rest stays in order. */
  lemma {:induction false} WithoutOwnInOrder(a: seq<PeerConfig>, b: seq<PeerConfig>, own: Key)
    ensures WithoutOwn(a + b, own) == WithoutOwn(a, own) + WithoutOwn(b, own)
  {
    if b == [] {
      assert a + b == a;
    } else {
      var n := |b| - 1;
      assert (a + b)[..|a + b| - 1] == a + b[..n] && (a + b)[|a + b| - 1] == b[n];
      WithoutOwnInOrder(a, b[..n], own);
    }
  }

  /** toExcludedLazyPeers: peers one of whose allowed-IP texts is the text of a rule's address. */
  predicate NamesAddr(p: PeerConfig, addrs: set<string>) {
    exists a :: a in p.allowedIps && a in addrs
  }

  ghost function Excluded(list: seq<PeerConfig>, addrs: set<string>): set<Key> {
    set p | p in list && NamesAddr(p, addrs) :: p.key
  }

  ghost function UpdatePeers(ps: Peers, w: World, nm: NetworkMap, own: Key): (Peers, bool) {
    if nm.remotePeersIsEmpty then (ps.(mgr := RemoveKeys(ps.mgr, ps.mgr.store.Keys)), true)
    else Reconcile(ps, w, WithoutOwn(nm.remotePeers, own))
  }

  ghost function Update(e: EngineState, w: World, nm: NetworkMap): (EngineState, bool) {
    if !nm.configOk then (e, false)
    else if e.serial > nm.serial then (e, true)
    else
      var flagged := e.peers.(mgr := RemoteFlag(e.peers.mgr, nm.lazyEnabled));
      var (q, ok) := UpdatePeers(flagged, w, nm, e.own);
      if !ok then (e.(peers := q), false)
      else
        var ids := Excluded(WithoutOwn(nm.remotePeers, e.own), nm.forwardAddrs);
        (e.(peers := q.(mgr := SetExcludeList(q.mgr, ids)), serial := nm.serial), true)
  }

  /** The map was fully applied. */
  ghost predicate Applied(e: EngineState, w: World, nm: NetworkMap) {
    nm.configOk && e.serial <= nm.serial && Update(e, w, nm).1
  }

  // ---------- One map ----------

  /** Setting the exclude list changes neither the stored keys nor what the connections match. */
  lemma ExcludeKeepsMatching(m: Mgr, ids: set<Key>, parse: Parser)
    ensures SetExcludeList(m, ids).store.Keys == m.store.Keys
    ensures forall p :: Matching(SetExcludeList(m, ids).store, p, parse) <==> Matching(m.store, p, parse)
  {
  }

  lemma FlagKeepsWellMade(ps: Peers, enabled: bool)
    requires WellMade(ps)
    ensures WellMade(ps.(mgr := RemoteFlag(ps.mgr, enabled)))
  {
  }

  lemma UpdateKeepsWellMade(e: EngineState, w: World, nm: NetworkMap)
    requires WellMade(e.peers)
    ensures WellMade(Update(e, w, nm).0.peers)
  {
    var flagged := e.peers.(mgr := RemoteFlag(e.peers.mgr, nm.lazyEnabled));
    FlagKeepsWellMade(e.peers, nm.lazyEnabled);
    ReconcileKeepsWellMade(flagged, w, WithoutOwn(nm.remotePeers, e.own));
  }

  /** After a fully applied map the store holds exactly the listed peers minus our own, none when
      the map says so, and every connection is what a configuration of its key asks for; with
      distinct keys all configurations are met. */
  lemma AppliedMeansExact(e: EngineState, w: World, nm: NetworkMap)
    requires Applied(e, w, nm)
    ensures var store := Update(e, w, nm).0.peers.mgr.store;
            var list := nm.remotePeers;
            && (nm.remotePeersIsEmpty ==> store == map[])
            && (!nm.remotePeersIsEmpty ==>
                  && store.Keys == Keys(list) - {e.own}
                  && (forall k :: k in store ==> exists p :: p in list && p.key == k && Matching(store, p, w.parse))
                  && (DistinctKeys(list) ==>
                        forall p :: p in list && p.key != e.own ==> Matching(store, p, w.parse)))
  {
    var flagged := e.peers.(mgr := RemoteFlag(e.peers.mgr, nm.lazyEnabled));
    var list := WithoutOwn(nm.remotePeers, e.own);
    var (q, ok) := UpdatePeers(flagged, w, nm, e.own);
    var ids := Excluded(list, nm.forwardAddrs);
    assert Update(e, w, nm).0.peers.mgr == SetExcludeList(q.mgr, ids);
    ExcludeKeepsMatching(q.mgr, ids, w.parse);
    if !nm.remotePeersIsEmpty {
      ReconcileMeetsUpdate(flagged, w, list);
      MetMinusOwn(q.mgr.store, w, nm.remotePeers, e.own);
    }
  }

  /** From the filtered list back to the whole one. */
  lemma MetMinusOwn(store: map<Key, Conn>, w: World, list: seq<PeerConfig>, own: Key)
    requires store.Keys == Keys(WithoutOwn(list, own))
    requires forall k :: k in store ==>
               exists p :: p in WithoutOwn(list, own) && p.key == k && Matching(store, p, w.parse)
    requires DistinctKeys(WithoutOwn(list, own)) ==>
               forall p :: p in WithoutOwn(list, own) ==> Matching(store, p, w.parse)
    ensures store.Keys == Keys(list) - {own}
    ensures forall k :: k in store ==> exists p :: p in list && p.key == k && Matching(store, p, w.parse)
    ensures DistinctKeys(list) ==> forall p :: p in list && p.key != own ==> Matching(store, p, w.parse)
  {
    WithoutOwnMembers(list, own);
    KeysOf(list);
    KeysOf(WithoutOwn(list, own));
  }

  lemma AddKeepsMode(ps: Peers, w: World, list: seq<PeerConfig>)
    ensures var m := AddPeers(ps, w, list).0.mgr;
            m.lazy.Some? == ps.mgr.lazy.Some? && m.enabledLocally == ps.mgr.enabledLocally && m.rosenpass == ps.mgr.rosenpass
  {
    if list != [] {
      AddKeepsMode(ps, w, list[..|list| - 1]);
    }
  }

  /** After a fully applied map the lazy manager follows the map's flag, unless it is enabled locally
      or vetoed by rosenpass. */
  lemma AppliedSetsLazyMode(e: EngineState, w: World, nm: NetworkMap)
    requires Applied(e, w, nm) && (e.peers.mgr.rosenpass ==> e.peers.mgr.lazy.None?)
    ensures var m := Update(e, w, nm).0.peers.mgr;
            m.lazy.Some? <==>
            (if e.peers.mgr.enabledLocally then e.peers.mgr.lazy.Some? else nm.lazyEnabled && !e.peers.mgr.rosenpass)
  {
    UpdatePeersKeepsMode(e.peers.(mgr := RemoteFlag(e.peers.mgr, nm.lazyEnabled)), w, nm, e.own);
  }

  // ---------- The same map twice ----------

  /** The remote flag would change nothing any more. */
  predicate FlagSettled(m: Mgr, enabled: bool) {
    m.enabledLocally || (if enabled then m.lazy.Some? || m.rosenpass else m.lazy.None?)
  }

  lemma FlagSettles(m: Mgr, enabled: bool)
    ensures FlagSettled(RemoteFlag(m, enabled), enabled)
    ensures FlagSettled(m, enabled) ==> RemoteFlag(m, enabled) == m
  {
  }

  lemma UpdatePeersKeepsMode(ps: Peers, w: World, nm: NetworkMap, own: Key)
    ensures var m := UpdatePeers(ps, w, nm, own).0.mgr;
            m.lazy.Some? == ps.mgr.lazy.Some? && m.enabledLocally == ps.mgr.enabledLocally && m.rosenpass == ps.mgr.rosenpass
  {
    var list := WithoutOwn(nm.remotePeers, own);
    var one := RemovePeers(ps, list);
    var mod := Modified(one.mgr.store, list, w.parse);
    var two := one.(mgr := RemoveKeys(one.mgr, Keys(mod)));
    AddKeepsMode(two, w, mod);
    AddKeepsMode(AddPeers(two, w, mod).0, w, list);
  }

  /** Setting the same exclude list again changes nothing. */
  lemma ExcludeAgain(m: Mgr, ids: set<Key>)
    ensures SetExcludeList(SetExcludeList(m, ids), ids) == SetExcludeList(m, ids)
  {
    if m.lazy.Some? {
      var m1 := SetExcludeList(m, ids);
      var excludes := map k | k in ids && k in m1.store :: m1.store[k].id;
      assert excludes == m1.lazy.value.excludes;
      var (l, added) := ExcludePeer(m1.lazy.value, excludes);
      assert added == {};
      assert l.managed == m1.lazy.value.managed;
      assert OpenKeys(m1.store, added) == m1.store;
    }
  }

  /** What the second application of the map starts from. */
  lemma AfterApplied(e: EngineState, w: World, nm: NetworkMap) returns (q: Peers, ids: set<Key>)
    requires Applied(e, w, nm) && WellMade(e.peers)
    ensures ids == Excluded(WithoutOwn(nm.remotePeers, e.own), nm.forwardAddrs)
    ensures var e' := Update(e, w, nm).0;
            && e' == e.(peers := q.(mgr := SetExcludeList(q.mgr, ids)), serial := nm.serial)
            && RemoteFlag(e'.peers.mgr, nm.lazyEnabled) == e'.peers.mgr && WellMade(e'.peers)
            && q.mgr.store.Keys == e'.peers.mgr.store.Keys
            && (nm.remotePeersIsEmpty ==> q.mgr.store == map[])
            && (!nm.remotePeersIsEmpty ==>
                  (Met(e'.peers.mgr.store, WithoutOwn(nm.remotePeers, e.own), w.parse) <==>
                   Agreeing(WithoutOwn(nm.remotePeers, e.own), w.parse)))
  {
    var list := WithoutOwn(nm.remotePeers, e.own);
    var flagged := e.peers.(mgr := RemoteFlag(e.peers.mgr, nm.lazyEnabled));
    q := UpdatePeers(flagged, w, nm, e.own).0;
    ids := Excluded(list, nm.forwardAddrs);
    FlagSettles(e.peers.mgr, nm.lazyEnabled);
    UpdatePeersKeepsMode(flagged, w, nm, e.own);
    FlagSettles(SetExcludeList(q.mgr, ids), nm.lazyEnabled);
    UpdateKeepsWellMade(e, w, nm);
    ExcludeKeepsMatching(q.mgr, ids, w.parse);
    if !nm.remotePeersIsEmpty {
      MetExactly(flagged, w, list);
    }
  }

  /** A fully applied map that is sent again, with its flag and exclude list, changes nothing exactly
      when it is an empty one or its configurations of the same key ask for the same. */
  lemma SameMapTwiceExactly(e: EngineState, w: World, nm: NetworkMap)
    requires Applied(e, w, nm) && WellMade(e.peers)
    ensures var e' := Update(e, w, nm).0;
            Update(e', w, nm) == (e', true) <==>
            nm.remotePeersIsEmpty || Agreeing(WithoutOwn(nm.remotePeers, e.own), w.parse)
  {
    var e' := Update(e, w, nm).0;
    var list := WithoutOwn(nm.remotePeers, e.own);
    var q, ids := AfterApplied(e, w, nm);
    ExcludeAgain(q.mgr, ids);
    assert e'.peers.(mgr := e'.peers.mgr) == e'.peers;
    if nm.remotePeersIsEmpty {
      assert e'.peers.mgr.store == map[];
      RemoveNothing(e'.peers.mgr);
      assert e'.peers.mgr.store.Keys == {};
    } else {
      QuietExactly(e'.peers, w, list);
      if Update(e', w, nm) == (e', true) {
        QuietBeforeExclusion(e', w, nm);
      }
    }
  }

  lemma ExcludeKeepsObjects(m: Mgr, ids: set<Key>)
    ensures var store := SetExcludeList(m, ids).store;
            store.Keys == m.store.Keys && forall k :: k in store ==> store[k].id == m.store[k].id
  {
  }

  /** A reconciliation that ends with the objects it began with found every configuration met. */
  lemma SameObjectsMeanMet(ps: Peers, w: World, list: seq<PeerConfig>)
    requires WellMade(ps) && Reconcile(ps, w, list).1
    requires var store := Reconcile(ps, w, list).0.mgr.store;
             ps.mgr.store.Keys == store.Keys && forall k :: k in store ==> store[k].id == ps.mgr.store[k].id
    ensures Met(ps.mgr.store, list, w.parse)
  {
    ReconcileMeetsUpdate(ps, w, list);
    KeysOf(list);
    forall p | p in list ensures Matching(ps.mgr.store, p, w.parse) {
      SurvivorMatches(ps, w, list, p);
    }
  }

  /** An update that ends where it began left the peers alone before it set the exclude list. */
  lemma QuietBeforeExclusion(e: EngineState, w: World, nm: NetworkMap)
    requires WellMade(e.peers) && Applied(e, w, nm) && !nm.remotePeersIsEmpty && Update(e, w, nm).0 == e
    requires RemoteFlag(e.peers.mgr, nm.lazyEnabled) == e.peers.mgr
    ensures Met(e.peers.mgr.store, WithoutOwn(nm.remotePeers, e.own), w.parse)
  {
    var list := WithoutOwn(nm.remotePeers, e.own);
    assert e.peers.(mgr := e.peers.mgr) == e.peers;
    var q := Reconcile(e.peers, w, list).0;
    ExcludeKeepsObjects(q.mgr, Excluded(list, nm.forwardAddrs));
    SameObjectsMeanMet(e.peers, w, list);
  }

  // ---------- Serials over runs ----------

  ghost function RunMaps(e: EngineState, w: World, maps: seq<NetworkMap>): EngineState {
    if maps == [] then e
    else
      var n := |maps| - 1;
      Update(RunMaps(e, w, maps[..n]), w, maps[n]).0
  }

  /** The serials of the fully applied maps, in order. */
  ghost function AppliedSerials(e: EngineState, w: World, maps: seq<NetworkMap>): seq<nat> {
    if maps == [] then []
    else
      var n := |maps| - 1;
      AppliedSerials(e, w, maps[..n]) +
      (if Applied(RunMaps(e, w, maps[..n]), w, maps[n]) then [maps[n].serial] else [])
  }

  lemma UpdateSerial(e: EngineState, w: World, nm: NetworkMap)
    ensures Update(e, w, nm).0.serial == if Applied(e, w, nm) then nm.serial else e.serial
  {
  }

  /** The serial after some applied maps: the last of them, and at least as large as any. */
  ghost predicate SerialOf(start: nat, ss: seq<nat>, serial: nat) {
    && serial == (if ss == [] then start else ss[|ss| - 1])
    && (forall i, j :: 0 <= i <= j < |ss| ==> ss[i] <= ss[j])
    && (forall i :: 0 <= i < |ss| ==> start <= ss[i] <= serial)
    && start <= serial
  }

  lemma SerialOfNext(start: nat, ss: seq<nat>, serial: nat, next: nat)
    requires SerialOf(start, ss, serial) && serial <= next
    ensures SerialOf(start, ss + [next], next)
  {
  }

  /** Over any run, with failures partway: the serial is that of the last fully applied map, which
      is the largest of all fully applied ones, and the applied serials never decrease. */
  lemma {:induction false} SerialIsLastApplied(e: EngineState, w: World, maps: seq<NetworkMap>)
    ensures SerialOf(e.serial, AppliedSerials(e, w, maps), RunMaps(e, w, maps).serial)
  {
    if maps != [] {
      var n := |maps| - 1;
      SerialIsLastApplied(e, w, maps[..n]);
      var before := RunMaps(e, w, maps[..n]);
      UpdateSerial(before, w, maps[n]);
      if Applied(before, w, maps[n]) {
        SerialOfNext(e.serial, AppliedSerials(e, w, maps[..n]), before.serial, maps[n].serial);
      }
    }
  }

  lemma {:induction false} SerialNeverDrops(e: EngineState, w: World, maps: seq<NetworkMap>, i: nat)
    requires i <= |maps|
    ensures RunMaps(e, w, maps[..i]).serial <= RunMaps(e, w, maps).serial
    decreases |maps|
  {
    if i == |maps| {
      assert maps[..i] == maps;
    } else {
      var n := |maps| - 1;
      assert maps[..n][..i] == maps[..i];
      SerialNeverDrops(e, w, maps[..n], i);
      UpdateSerial(RunMaps(e, w, maps[..n]), w, maps[n]);
    }
  }

  /** A map that is older than one fully applied at any time before it changes nothing. */
  lemma SupersededChangesNothing(e: EngineState, w: World, maps: seq<NetworkMap>, i: nat, late: NetworkMap)
    requires i < |maps| && Applied(RunMaps(e, w, maps[..i]), w, maps[i]) && late.serial < maps[i].serial
    ensures RunMaps(e, w, maps + [late]) == RunMaps(e, w, maps)
  {
    assert (maps + [late])[..|maps|] == maps;
    assert maps[..i + 1][..i] == maps[..i];
    UpdateSerial(RunMaps(e, w, maps[..i]), w, maps[i]);
    SerialNeverDrops(e, w, maps, i + 1);
  }

  // ---------- Reachability over runs ----------

  /** Every stored peer is wakeable and nobody is excluded. */
  ghost predicate Reachable(m: Mgr) {
    Healthy(m) && (m.lazy.Some? ==> m.lazy.value.excludes == map[])
  }

  lemma RemoveKeepsReachable(m: Mgr, ks: set<Key>)
    requires Reachable(m)
    ensures Reachable(RemoveKeys(m, ks))
  {
    var m' := RemoveKeys(m, ks);
    forall k ensures Cared(m', k) && Wakeable(m', k) {
      assert Cared(m, k) && Wakeable(m, k);
    }
  }

  lemma StepKeepsReachable(m: Mgr, s: Step)
    requires Reachable(m) && !s.ExcludeStep?
    ensures Reachable(Apply(m, s))
  {
    HealthyExactly(m, s);
  }

  lemma {:induction false} AddKeepsReachable(ps: Peers, w: World, list: seq<PeerConfig>)
    requires Reachable(ps.mgr)
    ensures Reachable(AddPeers(ps, w, list).0.mgr)
  {
    if list != [] {
      var n := |list| - 1;
      AddKeepsReachable(ps, w, list[..n]);
      var (q, ok) := AddPeers(ps, w, list[..n]);
      var p := list[n];
      if ok && p.key !in q.mgr.store && Good(p, w.parse) {
        var conn := NewConn(p, q.nextId, w.parse);
        StepKeepsReachable(q.mgr, AddStep(p.key, conn,
          Welcome(w.supported(p.agentVersion), w.monitored(conn.id), w.groupAwake(conn.id))));
      }
    }
  }

  lemma ReconcileKeepsReachable(ps: Peers, w: World, list: seq<PeerConfig>)
    requires Reachable(ps.mgr)
    ensures Reachable(Reconcile(ps, w, list).0.mgr)
  {
    var one := RemovePeers(ps, list);
    RemoveKeepsReachable(ps.mgr, ps.mgr.store.Keys - Keys(list));
    var mod := Modified(one.mgr.store, list, w.parse);
    var two := one.(mgr := RemoveKeys(one.mgr, Keys(mod)));
    RemoveKeepsReachable(one.mgr, Keys(mod));
    AddKeepsReachable(two, w, mod);
    AddKeepsReachable(AddPeers(two, w, mod).0, w, list);
  }

  /** A rule's address is a bare address and no prefix, so no applied map with distinct keys ever
      excludes a peer from lazy connections. */
  lemma NobodyIsExcluded(e: EngineState, w: World, nm: NetworkMap)
    requires Applied(e, w, nm) && WellMade(e.peers) && DistinctKeys(nm.remotePeers) && !nm.remotePeersIsEmpty
    requires forall a :: a in nm.forwardAddrs ==> w.parse(a).None?
    ensures Excluded(WithoutOwn(nm.remotePeers, e.own), nm.forwardAddrs) == {}
  {
    var flagged := e.peers.(mgr := RemoteFlag(e.peers.mgr, nm.lazyEnabled));
    var list := WithoutOwn(nm.remotePeers, e.own);
    WithoutOwnMembers(nm.remotePeers, e.own);
    FlagKeepsWellMade(e.peers, nm.lazyEnabled);
    SucceedsExactly(flagged, w, list);
    forall p | p in list ensures !NamesAddr(p, nm.forwardAddrs) {
      assert Good(p, w.parse);
    }
  }

  lemma ExcludeNobody(m: Mgr, ids: set<Key>)
    requires Reachable(m) && ids * m.store.Keys == {}
    ensures Reachable(SetExcludeList(m, ids))
  {
    HealthyExactly(m, ExcludeStep(ids));
    if m.lazy.Some? {
      forall k | k in ids ensures k !in m.store.Keys {
        assert k !in ids * m.store.Keys;
      }
      assert SetExcludeList(m, ids).lazy.value.excludes == map[];
    }
  }

  /** The peers as they are when the map's own peers are looked at. */
  function Flagged(e: EngineState, nm: NetworkMap): Peers {
    e.peers.(mgr := RemoteFlag(e.peers.mgr, nm.lazyEnabled))
  }

  /** A map is fully applied exactly when its configuration part is, its serial is not outdated, and
      the first differing configuration of every key is good. */
  lemma AppliedExactly(e: EngineState, w: World, nm: NetworkMap)
    ensures Applied(e, w, nm) <==>
            && nm.configOk && e.serial <= nm.serial
            && (nm.remotePeersIsEmpty || AllAddable(Flagged(e, nm), w, WithoutOwn(nm.remotePeers, e.own)))
  {
    ReconcileExactly(Flagged(e, nm), w, WithoutOwn(nm.remotePeers, e.own));
  }

  /** A fully applied map that names a listed peer by a rule's address, with the lazy manager on. */
  ghost predicate ExcludesSomebody(e: EngineState, w: World, nm: NetworkMap) {
    && Applied(e, w, nm) && Flagged(e, nm).mgr.lazy.Some? && !nm.remotePeersIsEmpty
    && exists p :: p in nm.remotePeers && p.key != e.own && NamesAddr(p, nm.forwardAddrs)
  }

  lemma ExcludeSomebody(m: Mgr, ids: set<Key>)
    requires Reachable(m) && m.lazy.Some?
    ensures Reachable(SetExcludeList(m, ids)) <==> ids * m.store.Keys == {}
  {
    if ids * m.store.Keys == {} {
      ExcludeNobody(m, ids);
    } else {
      var k :| k in ids * m.store.Keys;
      assert k in SetExcludeList(m, ids).lazy.value.excludes;
    }
  }

  /** Who is excluded by a fully applied map: everybody it names is stored by then. */
  lemma NamedAreStored(e: EngineState, w: World, nm: NetworkMap)
    requires Applied(e, w, nm) && !nm.remotePeersIsEmpty
    ensures var ids := Excluded(WithoutOwn(nm.remotePeers, e.own), nm.forwardAddrs);
            var store := UpdatePeers(Flagged(e, nm), w, nm, e.own).0.mgr.store;
            ids * store.Keys == {} <==>
            !exists p :: p in nm.remotePeers && p.key != e.own && NamesAddr(p, nm.forwardAddrs)
  {
    var list := WithoutOwn(nm.remotePeers, e.own);
    WithoutOwnMembers(nm.remotePeers, e.own);
    ReconcileMeetsUpdate(Flagged(e, nm), w, list);
    KeysOf(list);
    var ids := Excluded(list, nm.forwardAddrs);
    var store := UpdatePeers(Flagged(e, nm), w, nm, e.own).0.mgr.store;
    if p :| p in nm.remotePeers && p.key != e.own && NamesAddr(p, nm.forwardAddrs) {
      assert p in list;
      assert p.key in ids * store.Keys;
    }
  }

  lemma UpdatePeersKeepsReachable(ps: Peers, w: World, nm: NetworkMap, own: Key)
    requires Reachable(ps.mgr)
    ensures Reachable(UpdatePeers(ps, w, nm, own).0.mgr)
  {
    RemoveKeepsReachable(ps.mgr, ps.mgr.store.Keys);
    ReconcileKeepsReachable(ps, w, WithoutOwn(nm.remotePeers, own));
  }

  /** Applying a map, failing or not and with any duplicates, keeps every stored peer wakeable and
      nobody excluded exactly when it does not name a listed peer by a rule's address. */
  lemma UpdateReachableExactly(e: EngineState, w: World, nm: NetworkMap)
    requires Reachable(e.peers.mgr)
    ensures Reachable(Update(e, w, nm).0.peers.mgr) <==> !ExcludesSomebody(e, w, nm)
  {
    if nm.configOk && e.serial <= nm.serial {
      StepKeepsReachable(e.peers.mgr, FlagStep(nm.lazyEnabled));
      UpdatePeersKeepsReachable(Flagged(e, nm), w, nm, e.own);
      UpdatePeersKeepsMode(Flagged(e, nm), w, nm, e.own);
      var (q, ok) := UpdatePeers(Flagged(e, nm), w, nm, e.own);
      var ids := Excluded(WithoutOwn(nm.remotePeers, e.own), nm.forwardAddrs);
      if ok && q.mgr.lazy.Some? {
        if !nm.remotePeersIsEmpty {
          NamedAreStored(e, w, nm);
        }
        ExcludeSomebody(q.mgr, ids);
      }
    }
  }

  /** A rule's address is a bare address and no prefix, so a map with distinct keys does not. */
  lemma UpdateKeepsReachable(e: EngineState, w: World, nm: NetworkMap)
    requires Reachable(e.peers.mgr) && WellMade(e.peers) && DistinctKeys(nm.remotePeers)
    requires forall a :: a in nm.forwardAddrs ==> w.parse(a).None?
    ensures Reachable(Update(e, w, nm).0.peers.mgr)
  {
    UpdateReachableExactly(e, w, nm);
    if ExcludesSomebody(e, w, nm) {
      NobodyIsExcluded(e, w, nm);
      NamedAreStored(e, w, nm);
    }
  }

  /** What happens to a running engine: a network map, or a peer that is woken, told that the remote
      side went idle, or put to sleep by the lazy manager. */
  datatype Event = MapEvent(nm: NetworkMap) | PeerEvent(step: Step)

  predicate Allowed(ev: Event, w: World) {
    match ev
    case MapEvent(nm) => (forall a :: a in nm.forwardAddrs ==> w.parse(a).None?)
    case PeerEvent(s) => Restless(s)
  }

  ghost function React(e: EngineState, w: World, ev: Event): EngineState {
    match ev
    case MapEvent(nm) => Update(e, w, nm).0
    case PeerEvent(s) => e.(peers := e.peers.(mgr := Apply(e.peers.mgr, s)))
  }

  ghost function RunEvents(e: EngineState, w: World, evs: seq<Event>): EngineState {
    if evs == [] then e
    else
      var n := |evs| - 1;
      React(RunEvents(e, w, evs[..n]), w, evs[n])
  }

  function NewEngine(own: Key, enabledLocally: bool, rosenpass: bool): EngineState {
    EngineState(0, own, Peers(Start(NewMgr(enabledLocally, rosenpass)), 0))
  }

  ghost predicate ReachableThroughout(e: EngineState, w: World, evs: seq<Event>) {
    Reachable(RunEvents(e, w, evs).peers.mgr) && (evs != [] ==> ReachableThroughout(e, w, evs[..|evs| - 1]))
  }

  ghost predicate NeverExcludes(e: EngineState, w: World, evs: seq<Event>) {
    evs == [] ||
    (var n := |evs| - 1;
     && NeverExcludes(e, w, evs[..n])
     && (evs[n].MapEvent? ==> !ExcludesSomebody(RunEvents(e, w, evs[..n]), w, evs[n].nm)))
  }

  /** In every run of the engine, with maps of any kind failing partway, peers waking and sleeping at
      any time: every stored peer stays open or asleep where traffic or a signal message wakes it,
      with nobody excluded, exactly when no map names a listed peer by a rule's address. */
  lemma {:induction false} RunReachableExactly(e: EngineState, w: World, evs: seq<Event>)
    requires Reachable(e.peers.mgr) && forall ev :: ev in evs && ev.PeerEvent? ==> Restless(ev.step)
    ensures ReachableThroughout(e, w, evs) <==> NeverExcludes(e, w, evs)
  {
    if evs != [] {
      var n := |evs| - 1;
      RunReachableExactly(e, w, evs[..n]);
      var e' := RunEvents(e, w, evs[..n]);
      assert evs[n] in evs;
      if Reachable(e'.peers.mgr) {
        match evs[n]
        case MapEvent(nm) => UpdateReachableExactly(e', w, nm);
        case PeerEvent(s) => StepKeepsReachable(e'.peers.mgr, s);
      }
    }
  }

  lemma RestlessKeepsWellMade(ps: Peers, s: Step)
    requires WellMade(ps) && Restless(s)
    ensures WellMade(ps.(mgr := Apply(ps.mgr, s)))
  {
    RestlessStep(ps.mgr, s);
  }

  lemma {:induction false} RunKeepsWellMade(e: EngineState, w: World, evs: seq<Event>)
    requires WellMade(e.peers) && forall ev :: ev in evs && ev.PeerEvent? ==> Restless(ev.step)
    ensures WellMade(RunEvents(e, w, evs).peers)
  {
    if evs != [] {
      var n := |evs| - 1;
      RunKeepsWellMade(e, w, evs[..n]);
      assert evs[n] in evs;
      var e' := RunEvents(e, w, evs[..n]);
      match evs[n]
      case MapEvent(nm) => UpdateKeepsWellMade(e', w, nm);
      case PeerEvent(s) => RestlessKeepsWellMade(e'.peers, s);
    }
  }

  /** Maps with distinct keys never do, so their runs keep every stored peer wakeable and the lazy
      manager with stored peers only. */
  lemma {:induction false} EngineKeepsPeersReachable(own: Key, enabledLocally: bool, rosenpass: bool, w: World, evs: seq<Event>)
    requires forall ev :: ev in evs ==> Allowed(ev, w) && (ev.MapEvent? ==> DistinctKeys(ev.nm.remotePeers))
    ensures ReachableThroughout(NewEngine(own, enabledLocally, rosenpass), w, evs)
  {
    var e0 := NewEngine(own, enabledLocally, rosenpass);
    if evs == [] {
      StepKeepsReachable(NewMgr(enabledLocally, rosenpass), StartStep);
    } else {
      var n := |evs| - 1;
      EngineKeepsPeersReachable(own, enabledLocally, rosenpass, w, evs[..n]);
      RunKeepsWellMade(e0, w, evs[..n]);
      var e := RunEvents(e0, w, evs[..n]);
      assert evs[n] in evs;
      match evs[n]
      case MapEvent(nm) => UpdateKeepsReachable(e, w, nm);
      case PeerEvent(s) => StepKeepsReachable(e.peers.mgr, s);
    }
  }

  // ---------- Nobody is stranded, for any map ----------

  lemma RemoveKeepsSafe(m: Mgr, ks: set<Key>)
    requires Safe(m)
    ensures Safe(RemoveKeys(m, ks))
  {
    forall k ensures Cared(RemoveKeys(m, ks), k) {
      assert Cared(m, k);
    }
  }

  lemma AddOneKeepsSafe(ps: Peers, w: World, p: PeerConfig)
    requires Safe(ps.mgr)
    ensures Safe(AddNewPeer(ps, w, p).0.mgr)
  {
    if p.key !in ps.mgr.store && Good(p, w.parse) {
      StepKeepsSafe(ps.mgr, Adding(ps, w, p));
    }
  }

  /** The step that adds a new peer. */
  function Adding(ps: Peers, w: World, p: PeerConfig): Step
    requires Good(p, w.parse)
  {
    AddStep(p.key, NewConn(p, ps.nextId, w.parse),
            Welcome(w.supported(p.agentVersion), w.monitored(ps.nextId), w.groupAwake(ps.nextId)))
  }

  lemma {:induction false} AddKeepsSafe(ps: Peers, w: World, list: seq<PeerConfig>)
    requires Safe(ps.mgr)
    ensures Safe(AddPeers(ps, w, list).0.mgr)
  {
    if list != [] {
      var n := |list| - 1;
      AddKeepsSafe(ps, w, list[..n]);
      AddOneKeepsSafe(AddPeers(ps, w, list[..n]).0, w, list[n]);
    }
  }

  lemma ReconcileKeepsSafe(ps: Peers, w: World, list: seq<PeerConfig>)
    requires Safe(ps.mgr)
    ensures Safe(Reconcile(ps, w, list).0.mgr)
  {
    var one := RemovePeers(ps, list);
    RemoveKeepsSafe(ps.mgr, ps.mgr.store.Keys - Keys(list));
    var mod := Modified(one.mgr.store, list, w.parse);
    var two := one.(mgr := RemoveKeys(one.mgr, Keys(mod)));
    RemoveKeepsSafe(one.mgr, Keys(mod));
    AddKeepsSafe(two, w, mod);
    AddKeepsSafe(AddPeers(two, w, mod).0, w, list);
  }

  /** Whatever the map: no stored peer is left closed without the manager holding it, rosenpass means
      no lazy manager, and managed and excluded peers stay apart. */
  lemma UpdateKeepsSafe(e: EngineState, w: World, nm: NetworkMap)
    requires Safe(e.peers.mgr)
    ensures Safe(Update(e, w, nm).0.peers.mgr)
  {
    if nm.configOk && e.serial <= nm.serial {
      StepKeepsSafe(e.peers.mgr, FlagStep(nm.lazyEnabled));
      RemoveKeepsSafe(Flagged(e, nm).mgr, Flagged(e, nm).mgr.store.Keys);
      ReconcileKeepsSafe(Flagged(e, nm), w, WithoutOwn(nm.remotePeers, e.own));
      var (q, ok) := UpdatePeers(Flagged(e, nm), w, nm, e.own);
      StepKeepsSafe(q.mgr, ExcludeStep(Excluded(WithoutOwn(nm.remotePeers, e.own), nm.forwardAddrs)));
    }
  }

  /** ... and whatever the run, with any maps and any other operations of the connection manager. */
  lemma {:induction false} EngineIsSafe(own: Key, enabledLocally: bool, rosenpass: bool, w: World, evs: seq<Event>)
    ensures Safe(RunEvents(NewEngine(own, enabledLocally, rosenpass), w, evs).peers.mgr)
  {
    if evs == [] {
      StepKeepsSafe(NewMgr(enabledLocally, rosenpass), StartStep);
    } else {
      var n := |evs| - 1;
      EngineIsSafe(own, enabledLocally, rosenpass, w, evs[..n]);
      var e := RunEvents(NewEngine(own, enabledLocally, rosenpass), w, evs[..n]);
      match evs[n]
      case MapEvent(nm) => UpdateKeepsSafe(e, w, nm);
      case PeerEvent(s) => StepKeepsSafe(e.peers.mgr, s);
    }
  }

  // ---------- Conservation over runs ----------

  /** Only what connections were told changed. */
  ghost predicate SameObjects(a: Mgr, b: Mgr) {
    && a.store.Keys == b.store.Keys && a.closed == b.closed
    && forall k :: k in a.store ==> a.store[k].id == b.store[k].id
  }

  lemma SameObjectsConserve(a: Peers, b: Peers)
    requires Conserving(a) && SameObjects(a.mgr, b.mgr) && a.nextId == b.nextId
    ensures Conserving(b)
  {
    forall i: nat | i < b.nextId ensures i in b.mgr.closed <==> !Stored(b.mgr.store, i) {
      if Stored(a.mgr.store, i) {
        var k :| k in a.mgr.store && a.mgr.store[k].id == i;
        assert k in b.mgr.store && b.mgr.store[k].id == i;
      }
    }
  }

  lemma UpdateConserves(e: EngineState, w: World, nm: NetworkMap)
    requires Conserving(e.peers)
    ensures Conserving(Update(e, w, nm).0.peers)
  {
    if nm.configOk && e.serial <= nm.serial {
      var flagged := e.peers.(mgr := RemoteFlag(e.peers.mgr, nm.lazyEnabled));
      SameObjectsConserve(e.peers, flagged);
      RemoveConserves(flagged, flagged.mgr.store.Keys);
      ReconcileConserves(flagged, w, WithoutOwn(nm.remotePeers, e.own));
      var (q, ok) := UpdatePeers(flagged, w, nm, e.own);
      if ok {
        var ids := Excluded(WithoutOwn(nm.remotePeers, e.own), nm.forwardAddrs);
        SameObjectsConserve(q, q.(mgr := SetExcludeList(q.mgr, ids)));
      }
    }
  }

  /** In every run of the engine each connection object ever made is stored under exactly one key or
      was closed, never both: no map, however it fails, leaks a connection. */
  lemma {:induction false} EngineConservesConnections(own: Key, enabledLocally: bool, rosenpass: bool, w: World, evs: seq<Event>)
    requires forall ev :: ev in evs ==> Allowed(ev, w)
    ensures Conserving(RunEvents(NewEngine(own, enabledLocally, rosenpass), w, evs).peers)
  {
    if evs != [] {
      var n := |evs| - 1;
      EngineConservesConnections(own, enabledLocally, rosenpass, w, evs[..n]);
      var e := RunEvents(NewEngine(own, enabledLocally, rosenpass), w, evs[..n]);
      assert evs[n] in evs;
      match evs[n]
      case MapEvent(nm) => UpdateConserves(e, w, nm);
      case PeerEvent(s) => SameObjectsConserve(e.peers, React(e, w, evs[n]).peers);
    }
  }
}
