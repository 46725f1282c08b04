/** Exactly which network maps leave a stored peer that nothing wakes: the engine adds a peer that
    the lazy manager still holds as awake (client/internal/engine.go, updateNetworkMap). */
module Stranding {
  import opened Text
  import opened PeerState
  import opened NetLists
  import opened Reconciliation
  import opened NetworkMaps

  // ---------- Adding peers ----------

  /** The first configuration of the key is reached, and its version supports lazy connections, while
      the manager already holds the key as awake. */
  ghost predicate AddStrands(ps: Peers, w: World, list: seq<PeerConfig>, k: Key) {
    && HeldAbsent(ps.mgr, k) && Reached(ps.mgr.store, list, k, w.parse)
    && First(list, k).Some? && w.supported(First(list, k).value.agentVersion)
  }

  /** One more configuration strands its key exactly when it is the first one and gets added. */
  lemma AddStrandsStep(ps: Peers, w: World, front: seq<PeerConfig>, p: PeerConfig, k: Key)
    ensures AddStrands(ps, w, front + [p], k) <==>
            || AddStrands(ps, w, front, k)
            || (p.key == k && HeldAbsent(ps.mgr, k) && k !in Keys(front) && w.supported(p.agentVersion) &&
                AllGoodFirst(ps.mgr.store, front + [p], w.parse))
  {
    ReachedStep(ps.mgr.store, front, p, k, w.parse);
    FirstExtends(front, p, k);
    AllGoodFirstStep(ps.mgr.store, front, p, w.parse);
    if AllGoodFirst(ps.mgr.store, front, w.parse) {
      ReachedAll(ps.mgr.store, front, k, w.parse);
    }
    if Reached(ps.mgr.store, front, k, w.parse) {
      ReachedIsListed(ps.mgr.store, front, k, w.parse);
    }
  }

  /** What adding a list to a safe manager means for a key. */
  ghost predicate AddedByKey(ps: Peers, q: Peers, w: World, list: seq<PeerConfig>, k: Key) {
    && (Wakeable(q.mgr, k) <==> Wakeable(ps.mgr, k) && !AddStrands(ps, w, list, k))
    && (HeldAbsent(q.mgr, k) <==> HeldAbsent(ps.mgr, k) && k !in q.mgr.store)
  }

  /** The configuration adds a connection. */
  lemma AddedNew(ps: Peers, q: Peers, w: World, front: seq<PeerConfig>, p: PeerConfig, k: Key)
    requires AddedByKey(ps, q, w, front, k) && Safe(q.mgr) && p.key !in q.mgr.store && Good(p, w.parse)
    requires AllGoodFirst(ps.mgr.store, front, w.parse) && q.mgr.store.Keys == ps.mgr.store.Keys + Keys(front)
    ensures AddedByKey(ps, AddNewPeer(q, w, p).0, w, front + [p], k)
  {
    AddStrandsStep(ps, w, front, p, k);
    AllGoodFirstStep(ps.mgr.store, front, p, w.parse);
    var conn := NewConn(p, q.nextId, w.parse);
    var step := Adding(q, w, p);
    AddStepByKey(q.mgr, p.key, conn, step.welcome, k);
    assert AddNewPeer(q, w, p).0.mgr == AddPeerConn(q.mgr, p.key, conn, step.welcome).0;
    if p.key == k {
      assert Wakeable(ps.mgr, k) && HeldAbsent(q.mgr, k) == HeldAbsent(ps.mgr, k);
    }
  }

  /** The configuration adds nothing. */
  lemma AddedNothing(ps: Peers, q: Peers, w: World, front: seq<PeerConfig>, p: PeerConfig, k: Key)
    requires AddedByKey(ps, q, w, front, k)
    requires || p.key in ps.mgr.store || p.key in Keys(front)
             || !AllGoodFirst(ps.mgr.store, front + [p], w.parse)
    ensures AddedByKey(ps, q, w, front + [p], k)
  {
    AddStrandsStep(ps, w, front, p, k);
  }

  /** Adding a list, failing or not, leaves a key unwakeable exactly when it strands it. */
  lemma {:induction false} AddStrandsExactly(ps: Peers, w: World, list: seq<PeerConfig>, k: Key)
    requires Safe(ps.mgr)
    ensures AddedByKey(ps, AddPeers(ps, w, list).0, w, list, k)
  {
    if list != [] {
      var n := |list| - 1;
      var front, p := list[..n], list[n];
      assert list == front + [p];
      AddStrandsExactly(ps, w, front, k);
      AddKeepsSafe(ps, w, front);
      AddPeersEffect(ps, w, front);
      AllGoodFirstStep(ps.mgr.store, front, p, w.parse);
      var (q, ok) := AddPeers(ps, w, front);
      if ok && p.key !in q.mgr.store && Good(p, w.parse) {
        AddedNew(ps, q, w, front, p, k);
      } else {
        AddedNothing(ps, q, w, front, p, k);
      }
    }
  }

  lemma {:induction false} AddKeepsExcludedOpen(ps: Peers, w: World, list: seq<PeerConfig>)
    requires ExcludedOpen(ps.mgr)
    ensures ExcludedOpen(AddPeers(ps, w, list).0.mgr)
  {
    if list != [] {
      var n := |list| - 1;
      AddKeepsExcludedOpen(ps, w, list[..n]);
      var q := AddPeers(ps, w, list[..n]).0;
      if list[n].key !in q.mgr.store && Good(list[n], w.parse) {
        AddStepByKey(q.mgr, list[n].key, NewConn(list[n], q.nextId, w.parse), Adding(q, w, list[n]).welcome, "");
      }
    }
  }

  // ---------- Reconciliation ----------

  /** Removing peers strands nobody. */
  lemma RemoveKeepsAttended(m: Mgr, ks: set<Key>)
    requires Attended(m)
    ensures Attended(RemoveKeys(m, ks)) && forall k :: HeldAbsent(RemoveKeys(m, ks), k) <==> HeldAbsent(m, k)
  {
    RemoveKeepsSafe(m, ks);
    forall k ensures Wakeable(RemoveKeys(m, ks), k) {
      assert Wakeable(m, k);
    }
  }

  /** The changed peers can all be added again, and adding the list strands the key. */
  ghost predicate ReconcileStrands(ps: Peers, w: World, list: seq<PeerConfig>, k: Key) {
    && (forall j :: j in ps.mgr.store ==> AddableKey(ps.mgr.store, list, w.parse, j))
    && AddStrands(ps, w, list, k)
  }

  /** The modify phase strands nobody: the peers it adds were stored before. */
  lemma ModifyKeepsAttended(ps: Peers, w: World, list: seq<PeerConfig>)
    requires Attended(ps.mgr)
    ensures var q := ModifyPeers(RemovePeers(ps, list), w, list).0;
            && Attended(q.mgr) && (forall k :: HeldAbsent(q.mgr, k) <==> HeldAbsent(ps.mgr, k))
  {
    var one := RemovePeers(ps, list);
    RemoveKeepsAttended(ps.mgr, ps.mgr.store.Keys - Keys(list));
    var mod := Modified(one.mgr.store, list, w.parse);
    var two := one.(mgr := RemoveKeys(one.mgr, Keys(mod)));
    RemoveKeepsAttended(one.mgr, Keys(mod));
    var q := AddPeers(two, w, mod).0;
    AddKeepsSafe(two, w, mod);
    AddKeepsExcludedOpen(two, w, mod);
    AddPeersEffect(two, w, mod);
    forall k ensures Wakeable(q.mgr, k) && (HeldAbsent(q.mgr, k) <==> HeldAbsent(ps.mgr, k)) {
      AddStrandsExactly(two, w, mod, k);
      assert Wakeable(two.mgr, k);
      FirstNewOfStored(one.mgr.store, list, k, w.parse);
      if k in q.mgr.store && k !in two.mgr.store {
        assert FreshFor(two, q, w, mod, k);
      }
    }
  }

  /** Reconciliation, failing or not, leaves a key unwakeable exactly when it strands it. */
  lemma ReconcileStrandsExactly(ps: Peers, w: World, list: seq<PeerConfig>, k: Key)
    requires Attended(ps.mgr)
    ensures Wakeable(Reconcile(ps, w, list).0.mgr, k) <==> !ReconcileStrands(ps, w, list, k)
  {
    ModifyKeepsAttended(ps, w, list);
    var mod, mid := BeforeAdding(ps, w, list);
    ModifyPhase(ps, w, list, mod, mid);
    AddPeersEffect(mid, w, mod);
    var (q, ok) := ModifyPeers(RemovePeers(ps, list), w, list);
    assert Wakeable(q.mgr, k);
    if ok {
      AddStrandsExactly(q, w, list, k);
      ReachedFrame(q.mgr.store, ps.mgr.store, list, k, w.parse);
    }
  }

  lemma ReconcileKeepsExcludedOpen(ps: Peers, w: World, list: seq<PeerConfig>)
    requires Attended(ps.mgr)
    ensures ExcludedOpen(Reconcile(ps, w, list).0.mgr)
  {
    ModifyKeepsAttended(ps, w, list);
    AddKeepsExcludedOpen(ModifyPeers(RemovePeers(ps, list), w, list).0, w, list);
  }

  // ---------- Whole maps ----------

  /** Renewing the exclude list costs nobody anything, and opens the peers it names. */
  lemma ExcludeByKey(m: Mgr, ids: set<Key>, k: Key)
    requires Safe(m) && ExcludedOpen(m)
    ensures Wakeable(SetExcludeList(m, ids), k) <==> Wakeable(m, k) || k in ids
    ensures ExcludedOpen(SetExcludeList(m, ids))
  {
    assert Cared(m, k);
  }

  /** The map gets to its peers, adding them strands the key, and the map does not go on to exclude
      that key, which would open it. */
  ghost predicate MapStrands(e: EngineState, w: World, nm: NetworkMap, k: Key) {
    var list := WithoutOwn(nm.remotePeers, e.own);
    && nm.configOk && e.serial <= nm.serial && !nm.remotePeersIsEmpty
    && ReconcileStrands(Flagged(e, nm), w, list, k)
    && !(AllAddable(Flagged(e, nm), w, list) && k in Excluded(list, nm.forwardAddrs))
  }

  /** Applying any map, failing or not, leaves a key unwakeable exactly when it strands it. */
  lemma MapStrandsExactly(e: EngineState, w: World, nm: NetworkMap, k: Key)
    requires Attended(e.peers.mgr)
    ensures Wakeable(Update(e, w, nm).0.peers.mgr, k) <==> !MapStrands(e, w, nm, k)
    ensures ExcludedOpen(Update(e, w, nm).0.peers.mgr)
  {
    assert Wakeable(e.peers.mgr, k);
    if nm.configOk && e.serial <= nm.serial {
      var flagged, list := Flagged(e, nm), WithoutOwn(nm.remotePeers, e.own);
      AttendedExactly(e.peers.mgr, FlagStep(nm.lazyEnabled));
      RemoveKeepsAttended(flagged.mgr, flagged.mgr.store.Keys);
      ReconcileStrandsExactly(flagged, w, list, k);
      ReconcileKeepsExcludedOpen(flagged, w, list);
      ReconcileKeepsSafe(flagged, w, list);
      ReconcileExactly(flagged, w, list);
      ExcludeByKey(UpdatePeers(flagged, w, nm, e.own).0.mgr, Excluded(list, nm.forwardAddrs), k);
    }
  }

  lemma UpdateAttendedExactly(e: EngineState, w: World, nm: NetworkMap)
    requires Attended(e.peers.mgr)
    ensures Attended(Update(e, w, nm).0.peers.mgr) <==> forall k :: !MapStrands(e, w, nm, k)
  {
    UpdateKeepsSafe(e, w, nm);
    forall k ensures Wakeable(Update(e, w, nm).0.peers.mgr, k) <==> !MapStrands(e, w, nm, k) {
      MapStrandsExactly(e, w, nm, k);
    }
    MapStrandsExactly(e, w, nm, "");
  }

  ghost predicate EngineAttendedThroughout(e: EngineState, w: World, evs: seq<Event>) {
    Attended(RunEvents(e, w, evs).peers.mgr) && (evs != [] ==> EngineAttendedThroughout(e, w, evs[..|evs| - 1]))
  }

  ghost predicate NoMapStrands(e: EngineState, w: World, evs: seq<Event>) {
    evs == [] ||
    (var n := |evs| - 1;
     && NoMapStrands(e, w, evs[..n])
     && (evs[n].MapEvent? ==> forall k :: !MapStrands(RunEvents(e, w, evs[..n]), w, evs[n].nm, k)))
  }

  /** Over every run of maps of any kind and peer events: every stored peer can be woken throughout
      exactly when no map adds a peer that the manager already holds as awake. */
  lemma {:induction false} EngineAttendedExactly(e: EngineState, w: World, evs: seq<Event>)
    requires Attended(e.peers.mgr) && forall ev :: ev in evs && ev.PeerEvent? ==> Restless(ev.step)
    ensures EngineAttendedThroughout(e, w, evs) <==> NoMapStrands(e, w, evs)
  {
    if evs != [] {
      var n := |evs| - 1;
      EngineAttendedExactly(e, w, evs[..n]);
      var e' := RunEvents(e, w, evs[..n]);
      assert evs[n] in evs;
      if Attended(e'.peers.mgr) {
        match evs[n]
        case MapEvent(nm) => UpdateAttendedExactly(e', w, nm);
        case PeerEvent(s) => AttendedExactly(e'.peers.mgr, s);
      }
    }
  }

  // ---------- A run that strands a peer ----------

  const PREFIX := "10.0.0.1/32"
  const ADDR := "10.0.0.1"
  const ONCE := PeerConfig("k", "v", [PREFIX])
  const AGAIN := PeerConfig("k", "v", [ADDR])

  function OnlyPrefix(s: string): Option<Prefix> {
    if s == PREFIX then Some(s) else None
  }

  const LAB := World(OnlyPrefix, _ => true, _ => true, _ => false)

  const DOUBLED := NetworkMap(1, true, false, [ONCE, AGAIN], false, {ADDR})
  const EMPTIED := NetworkMap(2, true, false, [], true, {ADDR})
  const SINGLE := NetworkMap(3, true, false, [ONCE], false, {ADDR})

  lemma {:induction false} NothingStoredNothingModified(list: seq<PeerConfig>, parse: Parser)
    ensures Modified(map[], list, parse) == []
  {
    if list != [] {
      NothingStoredNothingModified(list[..|list| - 1], parse);
    }
  }

  /** From an empty store reconciliation only adds. */
  lemma ReconcileEmpty(ps: Peers, w: World, list: seq<PeerConfig>)
    requires ps.mgr.store == map[]
    ensures Reconcile(ps, w, list) == AddPeers(ps, w, list)
  {
    RemoveNothing(ps.mgr);
    assert ps.mgr.store.Keys - Keys(list) == {};
    NothingStoredNothingModified(list, w.parse);
    assert Keys([]) == {};
  }

  lemma DoubledIsAddedOnce(ps: Peers)
    requires ps.mgr == Start(NewMgr(true, false)) && ps.nextId == 0
    ensures var (q, ok) := AddPeers(ps, LAB, [ONCE, AGAIN]);
            && ok && q.mgr == ps.mgr.(store := q.mgr.store, lazy := q.mgr.lazy) && q.mgr.store.Keys == {"k"}
            && q.mgr.lazy == Some(Lazy(map["k" := Managed(0, Activity)], map[]))
  {
    assert [ONCE, AGAIN][..1] == [ONCE] && [ONCE][..0] == [];
    assert AddPeers(ps, LAB, []) == (ps, true);
    assert AddPeers(ps, LAB, [ONCE]) == AddNewPeer(ps, LAB, ONCE);
    var q := AddNewPeer(ps, LAB, ONCE).0;
    assert "k" in q.mgr.store;
    assert AddPeers(ps, LAB, [ONCE, AGAIN]) == AddNewPeer(q, LAB, AGAIN) == (q, true);
  }

  lemma NobodyIsOwn(list: seq<PeerConfig>)
    requires list == [] || list == [ONCE] || list == [ONCE, AGAIN]
    ensures WithoutOwn(list, "own") == list
  {
    assert [ONCE, AGAIN][..1] == [ONCE] && [ONCE][..0] == [];
    assert WithoutOwn([], "own") == [] && WithoutOwn([ONCE], "own") == [ONCE];
    assert WithoutOwn([ONCE, AGAIN], "own") == WithoutOwn([ONCE], "own") + [AGAIN];
  }

  /** The key listed twice, once with a rule's bare address: the peer is added once and excluded. */
  lemma DoubledExcludes(e: EngineState)
    requires e == NewEngine("own", true, false)
    ensures var (e', ok) := Update(e, LAB, DOUBLED);
            && ok && e'.serial == 1 && e'.own == "own" && e'.peers.mgr.store.Keys == {"k"}
            && e'.peers.mgr.enabledLocally && !e'.peers.mgr.rosenpass && e'.peers.mgr.lazy.Some?
            && e'.peers.mgr.lazy.value.managed == map[] && e'.peers.mgr.lazy.value.excludes.Keys == {"k"}
  {
    NobodyIsOwn([ONCE, AGAIN]);
    ReconcileEmpty(e.peers, LAB, [ONCE, AGAIN]);
    DoubledIsAddedOnce(e.peers);
    var q := AddPeers(e.peers, LAB, [ONCE, AGAIN]).0;
    var ids := Excluded([ONCE, AGAIN], {ADDR});
    assert ADDR in AGAIN.allowedIps && NamesAddr(AGAIN, {ADDR}) && AGAIN in [ONCE, AGAIN];
    assert ids == {"k"};
    assert Update(e, LAB, DOUBLED).0.peers.mgr == SetExcludeList(q.mgr, ids);
    assert SetExcludeList(q.mgr, ids).lazy.value.managed.Keys == {};
  }

  /** An empty map then removes the peer and hands its key to the manager as awake. */
  lemma EmptiedHolds(e: EngineState)
    requires e.serial == 1 && e.own == "own" && e.peers.mgr.enabledLocally && !e.peers.mgr.rosenpass
    requires e.peers.mgr.lazy.Some? && e.peers.mgr.lazy.value.managed == map[]
    requires e.peers.mgr.lazy.value.excludes.Keys == {"k"} == e.peers.mgr.store.Keys
    ensures var (e', ok) := Update(e, LAB, EMPTIED);
            && ok && e'.serial == 2 && e'.own == "own" && Attended(e'.peers.mgr)
            && e'.peers.mgr.enabledLocally && e'.peers.mgr.store == map[] && HeldAbsent(e'.peers.mgr, "k")
  {
    NobodyIsOwn([]);
    assert Excluded([], {ADDR}) == {};
    var m := RemoveKeys(e.peers.mgr, e.peers.mgr.store.Keys);
    assert m.store == map[];
    var m' := SetExcludeList(m, {});
    assert Update(e, LAB, EMPTIED).0.peers.mgr == m';
    assert m'.store == map[];
    assert m'.lazy.value.excludes == map[];
    assert "k" in m.lazy.value.excludes;
  }

  /** A third map that lists the key once stores a connection that is never opened and that nothing
      wakes. */
  lemma SingleStrands(e: EngineState)
    requires e.serial == 2 && e.own == "own" && Attended(e.peers.mgr) && e.peers.mgr.enabledLocally
    requires e.peers.mgr.store == map[] && HeldAbsent(e.peers.mgr, "k")
    ensures Update(e, LAB, SINGLE).1 && !Wakeable(Update(e, LAB, SINGLE).0.peers.mgr, "k")
  {
    NobodyIsOwn([ONCE]);
    assert Flagged(e, SINGLE) == e.peers;
    assert ONCE in [ONCE] && "k" in Keys([ONCE]);
    assert forall k :: First([ONCE], k).Some? ==> First([ONCE], k).value == ONCE;
    assert [ONCE][..1] == [ONCE];
    assert AllGoodFirst(map[], [ONCE], OnlyPrefix);
    ReachedAll(map[], [ONCE], "k", OnlyPrefix);
    assert Excluded([ONCE], {ADDR}) == {};
    assert MapStrands(e, LAB, SINGLE, "k");
    MapStrandsExactly(e, LAB, SINGLE, "k");
    ReconcileEmpty(e.peers, LAB, [ONCE]);
    AddPeersEffect(e.peers, LAB, [ONCE]);
  }

  /** Three maps, all fully applied, after which a listed peer can no longer be reached. */
  lemma DoubledKeyStrands()
    ensures var e0 := NewEngine("own", true, false);
            var (e1, ok1) := Update(e0, LAB, DOUBLED);
            var (e2, ok2) := Update(e1, LAB, EMPTIED);
            var (e3, ok3) := Update(e2, LAB, SINGLE);
            && ok1 && ok2 && ok3 && e1.serial == 1 && e2.serial == 2 && e3.serial == 3
            && "k" in e3.peers.mgr.store && !Wakeable(e3.peers.mgr, "k")
  {
    var e0 := NewEngine("own", true, false);
    DoubledExcludes(e0);
    EmptiedHolds(Update(e0, LAB, DOUBLED).0);
    var e2 := Update(Update(e0, LAB, DOUBLED).0, LAB, EMPTIED).0;
    SingleStrands(e2);
    UpdateSerial(e2, LAB, SINGLE);
  }
}
