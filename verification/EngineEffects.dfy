/** What a network map does to the engine in each of its outcomes, and over runs
    (client/internal/engine.go, updateNetworkMap). */
module EngineEffects {
  import opened Text
  import opened PeerState
  import opened PeerEffects
  import opened NetLists
  import opened Reconciliation
  import opened NetworkMaps

  // ---------- Outcomes of one map ----------

  /** The map never gets to its peers: its configuration part fails, or it is older than the last one
      applied. */
  predicate Dropped(e: EngineState, nm: NetworkMap) {
    !nm.configOk || nm.serial < e.serial
  }

  /** A map that is dropped changes nothing at all. An error is reported exactly when the configuration
      part fails, or when the map gets to its peers and the first differing configuration of some
      key is bad; and only then the serial stays behind. */
  lemma OutcomeExactly(e: EngineState, w: World, nm: NetworkMap)
    ensures Dropped(e, nm) ==> Update(e, w, nm).0 == e
    ensures Update(e, w, nm).1 <==>
            && nm.configOk
            && (nm.serial < e.serial || nm.remotePeersIsEmpty ||
                AllAddable(Flagged(e, nm), w, WithoutOwn(nm.remotePeers, e.own)))
    ensures Update(e, w, nm).0.own == e.own
    ensures Update(e, w, nm).0.serial == if Update(e, w, nm).1 && e.serial <= nm.serial then nm.serial else e.serial
  {
    ReconcileExactly(Flagged(e, nm), w, WithoutOwn(nm.remotePeers, e.own));
  }

  /** The map asks for this connection of a peer that is not ourselves. */
  ghost predicate MapWants(e: EngineState, w: World, nm: NetworkMap, k: Key)
    requires k in e.peers.mgr.store
  {
    && !nm.remotePeersIsEmpty && k != e.own && (exists p :: p in nm.remotePeers && p.key == k)
    && forall p :: p in nm.remotePeers && p.key == k ==> AsksFor(p, e.peers.mgr.store[k], w.parse)
  }

  lemma FlagKeepsConns(m: Mgr, enabled: bool)
    ensures var m' := RemoteFlag(m, enabled);
            && m'.store.Keys == m.store.Keys && m'.closed == m.closed
            && forall k :: k in m.store ==> m'.store[k] == m.store[k].(open := m'.store[k].open)
  {
  }

  lemma MapWantsExactly(e: EngineState, w: World, nm: NetworkMap, k: Key)
    requires k in e.peers.mgr.store && k in Flagged(e, nm).mgr.store && !nm.remotePeersIsEmpty
    ensures MapWants(e, w, nm, k) <==>
            Wanted(WithoutOwn(nm.remotePeers, e.own), k, Flagged(e, nm).mgr.store[k], w.parse)
  {
    WithoutOwnMembers(nm.remotePeers, e.own);
    FlagKeepsConns(e.peers.mgr, nm.lazyEnabled);
    var a, b := e.peers.mgr.store[k], Flagged(e, nm).mgr.store[k];
    assert forall p :: AsksFor(p, a, w.parse) <==> AsksFor(p, b, w.parse);
  }

  /** The connection object of a key is still the one it was. */
  predicate Stays(e: EngineState, e': EngineState, k: Key) {
    k in e.peers.mgr.store && k in e'.peers.mgr.store && e'.peers.mgr.store[k].id == e.peers.mgr.store[k].id
  }

  /** A map that gets to its peers, and may fail there: the connection objects that stay are exactly
      those it asks for. */
  lemma StaysExactly(e: EngineState, w: World, nm: NetworkMap, k: Key)
    requires WellMade(e.peers) && !Dropped(e, nm) && k in e.peers.mgr.store
    ensures Stays(e, Update(e, w, nm).0, k) <==> MapWants(e, w, nm, k)
  {
    var flagged, list := Flagged(e, nm), WithoutOwn(nm.remotePeers, e.own);
    FlagKeepsConns(e.peers.mgr, nm.lazyEnabled);
    FlagKeepsWellMade(e.peers, nm.lazyEnabled);
    var (q, ok) := UpdatePeers(flagged, w, nm, e.own);
    ExcludeKeepsConns(q.mgr, Excluded(list, nm.forwardAddrs));
    if nm.remotePeersIsEmpty {
      assert k !in q.mgr.store;
    } else {
      SurvivesExactly(flagged, w, list, k);
      MapWantsExactly(e, w, nm, k);
    }
  }

  lemma ExcludeKeepsConns(m: Mgr, ids: set<Key>)
    ensures var m' := SetExcludeList(m, ids);
            && m'.store.Keys == m.store.Keys && m'.closed == m.closed
            && forall k :: k in m.store ==> m'.store[k] == m.store[k].(open := m'.store[k].open)
  {
  }

  /** ... and exactly the others are closed, whether or not the map fails after that. */
  lemma MapClosesExactly(e: EngineState, w: World, nm: NetworkMap)
    requires !Dropped(e, nm)
    ensures Update(e, w, nm).0.peers.mgr.closed == e.peers.mgr.closed +
            (set k | k in e.peers.mgr.store && !MapWants(e, w, nm, k) :: e.peers.mgr.store[k].id)
  {
    var flagged, list := Flagged(e, nm), WithoutOwn(nm.remotePeers, e.own);
    FlagKeepsConns(e.peers.mgr, nm.lazyEnabled);
    var (q, ok) := UpdatePeers(flagged, w, nm, e.own);
    ExcludeKeepsConns(q.mgr, Excluded(list, nm.forwardAddrs));
    if !nm.remotePeersIsEmpty {
      ClosedExactly(flagged, w, list);
      forall k | k in e.peers.mgr.store
        ensures MapWants(e, w, nm, k) <==> Wanted(list, k, flagged.mgr.store[k], w.parse)
      {
        MapWantsExactly(e, w, nm, k);
      }
    }
  }

  // ---------- What a map leaves alone ----------

  lemma RemoveKeysSameAt(m: Mgr, ks: set<Key>, k: Key)
    requires k !in ks || k !in m.store
    ensures SameAt(m, RemoveKeys(m, ks), k)
  {
  }

  lemma RemoveKeysKeepsExclusion(m: Mgr, ks: set<Key>, k: Key)
    ensures ExcludedAt(RemoveKeys(m, ks), k) == ExcludedAt(m, k)
  {
  }

  lemma AddOneSameAt(ps: Peers, w: World, p: PeerConfig, k: Key)
    ensures k in ps.mgr.store || k != p.key ==> SameAt(ps.mgr, AddNewPeer(ps, w, p).0.mgr, k)
    ensures ExcludedAt(AddNewPeer(ps, w, p).0.mgr, k) == ExcludedAt(ps.mgr, k)
  {
    if p.key !in ps.mgr.store && Good(p, w.parse) {
      AddExactly(ps.mgr, p.key, NewConn(p, ps.nextId, w.parse), Adding(ps, w, p).welcome, k);
    }
  }

  lemma {:induction false} AddPeersSameAt(ps: Peers, w: World, list: seq<PeerConfig>, k: Key)
    ensures k in ps.mgr.store || k !in Keys(list) ==> SameAt(ps.mgr, AddPeers(ps, w, list).0.mgr, k)
    ensures ExcludedAt(AddPeers(ps, w, list).0.mgr, k) == ExcludedAt(ps.mgr, k)
  {
    if list != [] {
      var n := |list| - 1;
      assert list == list[..n] + [list[n]];
      KeysExtend(list[..n], list[n]);
      AddPeersSameAt(ps, w, list[..n], k);
      AddPeersEffect(ps, w, list[..n]);
      AddOneSameAt(AddPeers(ps, w, list[..n]).0, w, list[n], k);
    }
  }

  /** A peer whose connection stays is left alone altogether, and so is everybody's exclusion. */
  lemma ReconcileLeavesAlone(ps: Peers, w: World, list: seq<PeerConfig>, k: Key)
    ensures var q := Reconcile(ps, w, list).0;
            && ExcludedAt(q.mgr, k) == ExcludedAt(ps.mgr, k)
            && (k in ps.mgr.store && Wanted(list, k, ps.mgr.store[k], w.parse) ==> SameAt(ps.mgr, q.mgr, k))
            && (k !in ps.mgr.store && k !in Keys(list) ==> SameAt(ps.mgr, q.mgr, k))
  {
    var one := RemovePeers(ps, list);
    var gone := ps.mgr.store.Keys - Keys(list);
    var mod := Modified(one.mgr.store, list, w.parse);
    var two := one.(mgr := RemoveKeys(one.mgr, Keys(mod)));
    RemoveKeysKeepsExclusion(ps.mgr, gone, k);
    RemoveKeysKeepsExclusion(one.mgr, Keys(mod), k);
    AddPeersSameAt(two, w, mod, k);
    AddPeersSameAt(AddPeers(two, w, mod).0, w, list, k);
    AddPeersEffect(two, w, mod);
    FirstNewOfStored(one.mgr.store, list, k, w.parse);
    if k in ps.mgr.store && Wanted(list, k, ps.mgr.store[k], w.parse) {
      WantedExactly(ps.mgr.store, list, k, w.parse);
      KeysOf(list);
      ModifiedFrame(one.mgr.store, ps.mgr.store, list, w.parse);
      FirstNewOfStored(ps.mgr.store, list, k, w.parse);
      RemoveKeysSameAt(ps.mgr, gone, k);
      RemoveKeysSameAt(one.mgr, Keys(mod), k);
    } else if k !in ps.mgr.store && k !in Keys(list) {
      RemoveKeysSameAt(ps.mgr, gone, k);
      RemoveKeysSameAt(one.mgr, Keys(mod), k);
    }
  }

  /** A map that gets to its peers applies its flag, whether or not it fails there. */
  lemma ModeExactly(e: EngineState, w: World, nm: NetworkMap)
    requires !Dropped(e, nm) && (e.peers.mgr.rosenpass ==> e.peers.mgr.lazy.None?)
    ensures Update(e, w, nm).0.peers.mgr.lazy.Some? <==>
            if e.peers.mgr.enabledLocally then e.peers.mgr.lazy.Some? else nm.lazyEnabled && !e.peers.mgr.rosenpass
  {
    UpdatePeersKeepsMode(Flagged(e, nm), w, nm, e.own);
  }

  /** A map that fails at its peers has applied its flag and changed nobody's exclusion after that. */
  lemma FailedKeepsExclusions(e: EngineState, w: World, nm: NetworkMap, k: Key)
    requires !Dropped(e, nm) && !Update(e, w, nm).1
    ensures ExcludedAt(Update(e, w, nm).0.peers.mgr, k) == ExcludedAt(Apply(e.peers.mgr, FlagStep(nm.lazyEnabled)), k)
  {
    ReconcileLeavesAlone(Flagged(e, nm), w, WithoutOwn(nm.remotePeers, e.own), k);
  }

  // ---------- New peers and exclusions ----------

  /** A new peer of a map, exactly: whether it is opened at once and who watches it follows from the
      answers for its own version and its own connection. */
  lemma AddNewPeerExactly(ps: Peers, w: World, p: PeerConfig)
    requires p.key !in ps.mgr.store && AddNewPeer(ps, w, p).1
    ensures var q := AddNewPeer(ps, w, p).0;
            var welcome := Welcome(w.supported(p.agentVersion), w.monitored(ps.nextId), w.groupAwake(ps.nextId));
            && p.key in q.mgr.store && q.mgr.store[p.key].id == ps.nextId && q.nextId == ps.nextId + 1
            && q.mgr.store[p.key].agentVersion == p.agentVersion
            && (Open(q.mgr, p.key) <==> OpensAtOnce(ps.mgr, p.key, welcome))
            && (Takes(ps.mgr, p.key, welcome) ==>
                  ManagedAt(q.mgr, p.key) ==
                  Some(Managed(ps.nextId, if welcome.groupAwake then Inactivity else Activity)))
  {
    AddExactly(ps.mgr, p.key, NewConn(p, ps.nextId, w.parse), Adding(ps, w, p).welcome, p.key);
  }

  /** Who is excluded after a fully applied map with the lazy manager on: exactly the stored peers one
      of whose allowed-IP texts in the map is the text of a rule's address. */
  lemma AppliedExcludesExactly(e: EngineState, w: World, nm: NetworkMap, k: Key)
    requires Applied(e, w, nm) && Flagged(e, nm).mgr.lazy.Some?
    ensures ExcludedAt(Update(e, w, nm).0.peers.mgr, k).Some? <==>
            && !nm.remotePeersIsEmpty && k != e.own
            && exists p, t :: p in nm.remotePeers && p.key == k && t in p.allowedIps && t in nm.forwardAddrs
  {
    var list := WithoutOwn(nm.remotePeers, e.own);
    WithoutOwnMembers(nm.remotePeers, e.own);
    var (q, ok) := UpdatePeers(Flagged(e, nm), w, nm, e.own);
    var ids := Excluded(list, nm.forwardAddrs);
    UpdatePeersKeepsMode(Flagged(e, nm), w, nm, e.own);
    ExcludeExactly(q.mgr, ids, k);
    assert Update(e, w, nm).0.peers.mgr == Apply(q.mgr, ExcludeStep(ids));
    if !nm.remotePeersIsEmpty {
      ReconcileMeetsUpdate(Flagged(e, nm), w, list);
      KeysOf(list);
    }
    if p, t :| p in nm.remotePeers && p.key == k && t in p.allowedIps && t in nm.forwardAddrs {
      assert NamesAddr(p, nm.forwardAddrs);
    }
  }

  // ---------- Runs ----------

  /** The events without the maps that were dropped. */
  ghost function Effective(e: EngineState, w: World, evs: seq<Event>): seq<Event> {
    if evs == [] then []
    else
      var n := |evs| - 1;
      var dropped := evs[n].MapEvent? && Dropped(RunEvents(e, w, evs[..n]), evs[n].nm);
      Effective(e, w, evs[..n]) + (if dropped then [] else [evs[n]])
  }

  /** Over any run, maps whose configuration part fails and outdated maps might as well not have come. */
  lemma {:induction false} DroppedMapsDoNotMatter(e: EngineState, w: World, evs: seq<Event>)
    ensures RunEvents(e, w, Effective(e, w, evs)) == RunEvents(e, w, evs)
  {
    if evs != [] {
      var n := |evs| - 1;
      DroppedMapsDoNotMatter(e, w, evs[..n]);
      var front, before := Effective(e, w, evs[..n]), RunEvents(e, w, evs[..n]);
      if evs[n].MapEvent? && Dropped(before, evs[n].nm) {
        OutcomeExactly(before, w, evs[n].nm);
        assert Effective(e, w, evs) == front + [] == front;
      } else {
        var all := front + [evs[n]];
        assert Effective(e, w, evs) == all && all[..|all| - 1] == front && all[|all| - 1] == evs[n];
        assert RunEvents(e, w, all) == React(RunEvents(e, w, front), w, evs[n]);
      }
    }
  }

  /** No map of the run closes the connection object of the key. */
  ghost predicate NeverUnwanted(e: EngineState, w: World, evs: seq<Event>, k: Key) {
    evs == [] ||
    (var n := |evs| - 1;
     var before := RunEvents(e, w, evs[..n]);
     && NeverUnwanted(e, w, evs[..n], k)
     && (evs[n].MapEvent? && !Dropped(before, evs[n].nm) ==>
           k in before.peers.mgr.store && MapWants(before, w, evs[n].nm, k)))
  }

  lemma EventOldOrNew(e: EngineState, w: World, ev: Event, k: Key)
    requires ev.PeerEvent? ==> Restless(ev.step)
    ensures var e' := React(e, w, ev);
            && e.peers.nextId <= e'.peers.nextId
            && (k in e'.peers.mgr.store ==> Stays(e, e', k) || e.peers.nextId <= e'.peers.mgr.store[k].id)
            && (ev.PeerEvent? && k in e.peers.mgr.store ==> Stays(e, e', k))
  {
    match ev
    case PeerEvent(s) => RestlessStep(e.peers.mgr, s);
    case MapEvent(nm) =>
      OutcomeExactly(e, w, nm);
      FlagKeepsConns(e.peers.mgr, nm.lazyEnabled);
      OldOrNew(Flagged(e, nm), w, WithoutOwn(nm.remotePeers, e.own), k);
      ExcludeKeepsConns(UpdatePeers(Flagged(e, nm), w, nm, e.own).0.mgr,
                        Excluded(WithoutOwn(nm.remotePeers, e.own), nm.forwardAddrs));
  }

  lemma {:induction false} IdsGrow(e: EngineState, w: World, evs: seq<Event>)
    requires forall ev :: ev in evs && ev.PeerEvent? ==> Restless(ev.step)
    ensures e.peers.nextId <= RunEvents(e, w, evs).peers.nextId
  {
    if evs != [] {
      var n := |evs| - 1;
      IdsGrow(e, w, evs[..n]);
      assert evs[n] in evs;
      EventOldOrNew(RunEvents(e, w, evs[..n]), w, evs[n], "");
    }
  }

  /** What one more event means for an object that was there at the start. */
  lemma StayStep(e: EngineState, before: EngineState, w: World, ev: Event, k: Key)
    requires WellMade(e.peers) && WellMade(before.peers) && e.peers.nextId <= before.peers.nextId
    requires k in e.peers.mgr.store && (ev.PeerEvent? ==> Restless(ev.step))
    ensures Stays(e, React(before, w, ev), k) <==>
            Stays(e, before, k) &&
            (ev.MapEvent? && !Dropped(before, ev.nm) ==> MapWants(before, w, ev.nm, k))
  {
    EventOldOrNew(before, w, ev, k);
    if ev.MapEvent? {
      OutcomeExactly(before, w, ev.nm);
      if k in before.peers.mgr.store && !Dropped(before, ev.nm) {
        StaysExactly(before, w, ev.nm, k);
      }
    }
  }

  /** Over any run, failing maps included, a connection object stays throughout exactly when every map
      that gets to its peers asks for it. */
  lemma {:induction false} StaysThroughoutExactly(e: EngineState, w: World, evs: seq<Event>, k: Key)
    requires WellMade(e.peers) && k in e.peers.mgr.store
    requires forall ev :: ev in evs && ev.PeerEvent? ==> Restless(ev.step)
    ensures Stays(e, RunEvents(e, w, evs), k) <==> NeverUnwanted(e, w, evs, k)
  {
    if evs != [] {
      var n := |evs| - 1;
      StaysThroughoutExactly(e, w, evs[..n], k);
      RunKeepsWellMade(e, w, evs[..n]);
      IdsGrow(e, w, evs[..n]);
      assert evs[n] in evs;
      StayStep(e, RunEvents(e, w, evs[..n]), w, evs[n], k);
    }
  }
}
