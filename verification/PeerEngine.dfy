/** The connection manager and the engine as they run: fields updated in place under one lock,
    map keys visited in any order. Each method is proved against the functions of PeerState,
    Reconciliation and NetworkMaps. */
module PeerEngine {
  import opened Text
  import opened PeerState
  import opened NetLists
  import opened Reconciliation
  import opened NetworkMaps

  function Elems(ks: seq<Key>): set<Key> {
    set k | k in ks
  }

  /** The keys of a list of configurations, in order. */
  method KeyList(list: seq<PeerConfig>) returns (ks: seq<Key>)
    ensures Elems(ks) == Keys(list)
  {
    ks := [];
    for i := 0 to |list|
      invariant Elems(ks) == Keys(list[..i])
    {
      assert list[..i + 1] == list[..i] + [list[i]];
      assert Keys(list[..i + 1]) == Keys(list[..i]) + {list[i].key};
      assert Elems(ks + [list[i].key]) == Elems(ks) + {list[i].key};
      ks := ks + [list[i].key];
    }
    assert list[..|list|] == list;
  }

  /** The elements of a set, in any order. */
  method Listing(s: set<Key>) returns (r: seq<Key>)
    ensures forall k :: k in r <==> k in s
  {
    r := [];
    var todo := s;
    while todo != {}
      invariant todo <= s
      invariant forall k :: k in r <==> k in s - todo
      decreases |todo|
    {
      var k :| k in todo;
      r := r + [k];
      todo := todo - {k};
    }
  }

  class ConnMgr {
    const enabledLocally: bool
    const rosenpassEnabled: bool
    var store: map<Key, Conn>
    var lazyConnMgr: Option<Lazy>
    var lazyCtxCancel: bool
    ghost var closed: set<nat>

    ghost predicate Valid()
      reads this
    {
      lazyConnMgr.Some? ==> lazyCtxCancel
    }

    ghost function View(): Mgr
      reads this
    {
      Mgr(enabledLocally, rosenpassEnabled, store, lazyConnMgr, closed)
    }

    constructor (enabledLocally: bool, rosenpassEnabled: bool)
      ensures Valid() && View() == NewMgr(enabledLocally, rosenpassEnabled)
    {
      this.enabledLocally := enabledLocally;
      this.rosenpassEnabled := rosenpassEnabled;
      store := map[];
      lazyConnMgr := None;
      lazyCtxCancel := false;
      closed := {};
    }

    method Start()
      requires Valid()
      modifies this
      ensures Valid() && View() == PeerState.Start(old(View()))
    {
      if lazyConnMgr.Some? || !enabledLocally || rosenpassEnabled {
        return;
      }
      lazyConnMgr, lazyCtxCancel := Some(EMPTY_LAZY), true;
    }

    /** Tells every stored connection in the list to open. */
    method OpenAll(ks: seq<Key>)
      modifies this`store
      ensures store == OpenKeys(old(store), Elems(ks))
    {
      for i := 0 to |ks|
        invariant store == OpenKeys(old(store), Elems(ks[..i]))
      {
        assert ks[..i + 1] == ks[..i] + [ks[i]];
        if ks[i] in store {
          store := store[ks[i] := store[ks[i]].(open := true)];
        }
      }
      assert ks[..|ks|] == ks;
    }

    method AddPeersToLazyConnManager(start: Lazy) returns (l: Lazy)
      requires start == EMPTY_LAZY
      ensures l == EMPTY_LAZY.(managed := map k | k in store :: Managed(store[k].id, Inactivity))
    {
      l := start;
      var ks := Listing(store.Keys);
      for i := 0 to |ks|
        invariant l.excludes == map[]
        invariant l.managed == map k | k in store && k in ks[..i] :: Managed(store[k].id, Inactivity)
      {
        assert ks[..i + 1] == ks[..i] + [ks[i]];
        if ks[i] in store && ks[i] !in l.managed {
          l := l.(managed := l.managed[ks[i] := Managed(store[ks[i]].id, Inactivity)]);
        }
      }
      assert ks[..|ks|] == ks;
      assert l.managed == map k | k in store :: Managed(store[k].id, Inactivity);
    }

    method UpdatedRemoteFeatureFlag(enabled: bool)
      requires Valid()
      modifies this
      ensures Valid() && View() == RemoteFlag(old(View()), enabled)
    {
      if enabledLocally {
        return;
      }
      if enabled {
        if lazyConnMgr.Some? || rosenpassEnabled {
          return;
        }
        var l := AddPeersToLazyConnManager(EMPTY_LAZY);
        lazyConnMgr, lazyCtxCancel := Some(l), true;
      } else if lazyConnMgr.Some? {
        lazyConnMgr := None;
        var ks := Listing(store.Keys);
        OpenAll(ks);
        assert Elems(ks) == old(store).Keys;
      }
    }

    method SetExcludeList(ids: set<Key>)
      requires Valid()
      modifies this
      ensures Valid() && View() == PeerState.SetExcludeList(old(View()), ids)
    {
      if lazyConnMgr.None? {
        return;
      }
      var order := Listing(ids);
      var excludes: map<Key, nat> := map[];
      for i := 0 to |order|
        invariant excludes == map k | k in order[..i] && k in store :: store[k].id
      {
        assert order[..i + 1] == order[..i] + [order[i]];
        if order[i] in store {
          excludes := excludes[order[i] := store[order[i]].id];
        }
      }
      assert order[..|order|] == order;
      assert excludes == map k | k in ids && k in store :: store[k].id;
      var (l, added) := ExcludePeer(lazyConnMgr.value, excludes);
      lazyConnMgr := Some(l);
      var toOpen := Listing(added);
      OpenAll(toOpen);
      assert Elems(toOpen) == added;
    }

    method AddPeerConn(k: Key, conn: Conn, w: Welcome) returns (taken: bool)
      requires Valid()
      modifies this
      ensures Valid() && (View(), taken) == PeerState.AddPeerConn(old(View()), k, conn, w)
    {
      if k in store {
        return true;
      }
      taken := false;
      store := store[k := conn];
      if !(lazyConnMgr.Some? && lazyCtxCancel) || !w.supported || k in lazyConnMgr.value.excludes {
        store := store[k := conn.(open := true)];
        assert store == old(store)[k := conn.(open := true)];
        return;
      }
      var l := lazyConnMgr.value;
      if k in l.managed {
        return;
      }
      if !w.monitored {
        store := store[k := conn.(open := true)];
        assert store == old(store)[k := conn.(open := true)];
        return;
      }
      lazyConnMgr := Some(l.(managed := l.managed[k := Managed(conn.id, if w.groupAwake then Inactivity else Activity)]));
      if w.groupAwake {
        store := store[k := conn.(open := true)];
        assert store == old(store)[k := conn.(open := true)];
      }
    }

    method RemovePeerConn(k: Key)
      requires Valid()
      modifies this
      ensures Valid() && View() == PeerState.RemovePeerConn(old(View()), k)
    {
      if k !in store {
        return;
      }
      closed := closed + {store[k].id};
      store := store - {k};
      if lazyConnMgr.Some? && lazyCtxCancel {
        lazyConnMgr := Some(lazyConnMgr.value.(managed := lazyConnMgr.value.managed - {k}));
      }
    }

    /** Wakes a sleeping peer, the sleeping members of its HA groups one by one, and opens them. */
    method ActivatePeer(k: Key, group: set<Key>)
      requires Valid()
      modifies this
      ensures Valid() && View() == PeerState.ActivatePeer(old(View()), k, group)
    {
      if !(lazyConnMgr.Some? && lazyCtxCancel) || !Sleeping(lazyConnMgr.value, k) {
        return;
      }
      var l := lazyConnMgr.value;
      var peers := Listing(group);
      var woken := [k];
      for i := 0 to |peers|
        invariant Elems(woken) == Woken(l, Elems(peers[..i]) + {k})
      {
        assert peers[..i + 1] == peers[..i] + [peers[i]];
        assert Elems(woken + [peers[i]]) == Elems(woken) + {peers[i]};
        assert Elems(peers[..i + 1]) == Elems(peers[..i]) + {peers[i]};
        if Sleeping(l, peers[i]) && peers[i] !in woken {
          woken := woken + [peers[i]];
        }
      }
      assert peers[..|peers|] == peers;
      assert Elems(peers) == group;
      lazyConnMgr := Some(Watch(l, Elems(woken), Inactivity));
      OpenAll(woken);
    }

    method DeactivatePeer(k: Key)
      requires Valid()
      modifies this
      ensures Valid() && View() == PeerState.DeactivatePeer(old(View()), k)
    {
      if !(lazyConnMgr.Some? && lazyCtxCancel) || k !in store {
        return;
      }
      var l := lazyConnMgr.value;
      if k in l.managed && l.managed[k].connId == store[k].id && l.managed[k].watcher == Inactivity {
        store := IdleKeys(store, {k});
        lazyConnMgr := Some(Watch(l, {k}, Activity));
      }
    }

    method Close()
      requires Valid()
      modifies this
      ensures Valid() && View() == PeerState.Close(old(View()))
    {
      if lazyConnMgr.Some? && lazyCtxCancel {
        lazyConnMgr := None;
      }
    }
  }

  // ---------- Engine ----------

  /** Removing one more peer. */
  lemma RemoveKeysStep(m: Mgr, ks: set<Key>, k: Key)
    ensures PeerState.RemovePeerConn(RemoveKeys(m, ks), k) == RemoveKeys(m, ks + {k})
  {
    var a, b := PeerState.RemovePeerConn(RemoveKeys(m, ks), k), RemoveKeys(m, ks + {k});
    assert a.store == b.store;
    assert a.closed == b.closed;
    if m.lazy.Some? {
      assert a.lazy.value.managed == b.lazy.value.managed;
    }
  }

  class Engine {
    const own: Key
    const world: World
    const mgr: ConnMgr
    var networkSerial: nat
    var nextId: nat

    ghost predicate Valid()
      reads this, mgr
    {
      mgr.Valid()
    }

    ghost function PeersView(): Peers
      reads this, mgr
    {
      Peers(mgr.View(), nextId)
    }

    ghost function View(): EngineState
      reads this, mgr
    {
      EngineState(networkSerial, own, PeersView())
    }

    constructor (own: Key, world: World, enabledLocally: bool, rosenpass: bool)
      ensures Valid() && fresh(mgr) && View() == NewEngine(own, enabledLocally, rosenpass)
    {
      this.own := own;
      this.world := world;
      var m := new ConnMgr(enabledLocally, rosenpass);
      m.Start();
      mgr := m;
      networkSerial, nextId := 0, 0;
    }

    /** Removes the listed peers one by one. */
    method RemoveEach(ks: seq<Key>)
      requires Valid()
      modifies mgr
      ensures Valid() && mgr.View() == RemoveKeys(old(mgr.View()), Elems(ks))
    {
      RemoveNothing(mgr.View());
      assert Elems(ks[..0]) == {};
      for i := 0 to |ks|
        invariant Valid() && mgr.View() == RemoveKeys(old(mgr.View()), Elems(ks[..i]))
      {
        mgr.RemovePeerConn(ks[i]);
        RemoveKeysStep(old(mgr.View()), Elems(ks[..i]), ks[i]);
        assert ks[..i + 1] == ks[..i] + [ks[i]];
        assert Elems(ks[..i + 1]) == Elems(ks[..i]) + {ks[i]};
      }
      assert ks[..|ks|] == ks;
    }

    method RemoveAllPeers()
      requires Valid()
      modifies mgr
      ensures Valid() && mgr.View() == RemoveKeys(old(mgr.View()), old(mgr.store).Keys)
    {
      var ks := Listing(mgr.store.Keys);
      RemoveEach(ks);
      assert Elems(ks) == old(mgr.store).Keys;
    }

    method RemovePeers(list: seq<PeerConfig>)
      requires Valid()
      modifies mgr
      ensures Valid() && PeersView() == Reconciliation.RemovePeers(old(PeersView()), list)
    {
      var newPeers := KeyList(list);
      var current := Listing(mgr.store.Keys);
      var toRemove := SliceDiff(current, newPeers);
      RemoveEach(toRemove);
      assert forall k :: k in newPeers <==> k in Elems(newPeers);
      assert Elems(toRemove) == old(mgr.store).Keys - Keys(list);
    }

    method AddNewPeer(p: PeerConfig) returns (ok: bool)
      requires Valid()
      modifies this`nextId, mgr
      ensures Valid() && (PeersView(), ok) == Reconciliation.AddNewPeer(old(PeersView()), world, p)
    {
      if p.key in mgr.store {
        return true;
      }
      var ips: seq<Prefix> := [];
      for i := 0 to |p.allowedIps|
        invariant AllParse(p.allowedIps[..i], world.parse) && ips == Parsed(p.allowedIps[..i], world.parse)
      {
        var parsed := world.parse(p.allowedIps[i]);
        if parsed.None? {
          return false;
        }
        ips := ips + [parsed.value];
      }
      assert p.allowedIps[..|p.allowedIps|] == p.allowedIps;
      if ips == [] {
        return false;
      }
      var conn := Conn(nextId, p.agentVersion, ips, false);
      nextId := nextId + 1;
      var _ := mgr.AddPeerConn(p.key, conn,
        Welcome(world.supported(p.agentVersion), world.monitored(conn.id), world.groupAwake(conn.id)));
      return true;
    }

    method AddNewPeers(list: seq<PeerConfig>) returns (ok: bool)
      requires Valid()
      modifies this`nextId, mgr
      ensures Valid() && (PeersView(), ok) == AddPeers(old(PeersView()), world, list)
    {
      ok := true;
      for i := 0 to |list|
        invariant Valid() && ok && (PeersView(), true) == AddPeers(old(PeersView()), world, list[..i])
      {
        assert list[..i + 1][..i] == list[..i];
        ok := AddNewPeer(list[i]);
        if !ok {
          StopsAtError(old(PeersView()), world, list, i + 1);
          return;
        }
      }
      assert list[..|list|] == list;
    }

    /** The configurations of stored peers that differ from their connection. */
    method FindModified(list: seq<PeerConfig>) returns (modified: seq<PeerConfig>)
      ensures modified == Modified(mgr.store, list, world.parse)
    {
      modified := [];
      for i := 0 to |list|
        invariant modified == Modified(mgr.store, list[..i], world.parse)
      {
        assert list[..i + 1][..i] == list[..i];
        var p := list[i];
        if p.key in mgr.store {
          var conn := mgr.store[p.key];
          if conn.agentVersion != p.agentVersion {
            modified := modified + [p];
          } else {
            var same := CompareNetIPLists(conn.allowedIps, p.allowedIps, world.parse);
            if !same {
              modified := modified + [p];
            }
          }
        }
      }
      assert list[..|list|] == list;
    }

    method ModifyPeers(list: seq<PeerConfig>) returns (ok: bool)
      requires Valid()
      modifies this`nextId, mgr
      ensures Valid() && (PeersView(), ok) == Reconciliation.ModifyPeers(old(PeersView()), world, list)
    {
      var modified := FindModified(list);
      var ks := KeyList(modified);
      RemoveEach(ks);
      ok := AddNewPeers(modified);
    }

    method UpdateNetworkMap(nm: NetworkMap) returns (ok: bool)
      requires Valid()
      modifies this, mgr
      ensures Valid() && (View(), ok) == Update(old(View()), world, nm)
    {
      if !nm.configOk {
        return false;
      }
      if networkSerial > nm.serial {
        return true;
      }
      mgr.UpdatedRemoteFeatureFlag(nm.lazyEnabled);
      ghost var flagged := PeersView();
      var remotePeers := FilterOwn(nm.remotePeers, own);
      if nm.remotePeersIsEmpty {
        RemoveAllPeers();
      } else {
        RemovePeers(remotePeers);
        ok := ModifyPeers(remotePeers);
        if !ok {
          return;
        }
        ok := AddNewPeers(remotePeers);
        if !ok {
          return;
        }
      }
      var excluded := ToExcludedLazyPeers(nm.forwardAddrs, remotePeers);
      mgr.SetExcludeList(excluded);
      networkSerial := nm.serial;
      ok := true;
    }
  }

  lemma {:induction false} StopsAtError(ps: Peers, w: World, list: seq<PeerConfig>, n: nat)
    requires n <= |list| && !AddPeers(ps, w, list[..n]).1
    ensures AddPeers(ps, w, list) == AddPeers(ps, w, list[..n])
    decreases |list| - n
  {
    if n < |list| {
      assert list[..n + 1][..n] == list[..n];
      StopsAtError(ps, w, list, n + 1);
    } else {
      assert list[..n] == list;
    }
  }

  method FilterOwn(list: seq<PeerConfig>, own: Key) returns (remote: seq<PeerConfig>)
    ensures remote == WithoutOwn(list, own)
  {
    remote := [];
    for i := 0 to |list|
      invariant remote == WithoutOwn(list[..i], own)
    {
      assert list[..i + 1][..i] == list[..i];
      if list[i].key != own {
        remote := remote + [list[i]];
      }
    }
    assert list[..|list|] == list;
  }

  /** Loops over rules, peers and allowed-IP texts as the source does. */
  method ToExcludedLazyPeers(addrs: set<string>, list: seq<PeerConfig>) returns (excluded: set<Key>)
    ensures excluded == Excluded(list, addrs)
  {
    excluded := {};
    var todo := addrs;
    while todo != {}
      invariant todo <= addrs
      invariant excluded == Excluded(list, addrs - todo)
      decreases |todo|
    {
      var a :| a in todo;
      ghost var before := excluded;
      for i := 0 to |list|
        invariant excluded == before + (set p | p in list[..i] && a in p.allowedIps :: p.key)
      {
        assert list[..i + 1] == list[..i] + [list[i]];
        if a in list[i].allowedIps {
          excluded := excluded + {list[i].key};
        }
      }
      assert list[..|list|] == list;
      assert forall p: PeerConfig :: NamesAddr(p, addrs - (todo - {a})) <==> NamesAddr(p, addrs - todo) || a in p.allowedIps;
      todo := todo - {a};
    }
    assert addrs - todo == addrs;
  }
}
