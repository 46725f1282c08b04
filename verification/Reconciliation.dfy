/** Reconciliation of the peer store with a network map: remove, modify, add
    (client/internal/engine.go). */
module Reconciliation {
  import opened Text
  import opened PeerState
  import opened NetLists

  /** A remote peer as the management server describes it. */
  datatype PeerConfig = PeerConfig(key: Key, agentVersion: string, allowedIps: seq<string>)

  /** The answers of code outside the model: the prefix parser, the version check, and, per new
      connection, whether its activity can be monitored and whether its HA group is awake. */
  datatype World = World(parse: Parser, supported: string -> bool, monitored: nat -> bool, groupAwake: nat -> bool)

  /** The connection manager and the identity of the next connection object. */
  datatype Peers = Peers(mgr: Mgr, nextId: nat)

  ghost function Keys(list: seq<PeerConfig>): set<Key> {
    set p | p in list :: p.key
  }

  lemma KeysOf(list: seq<PeerConfig>)
    ensures forall p :: p in list ==> p.key in Keys(list)
    ensures forall k :: k in Keys(list) ==> exists p :: p in list && p.key == k
  {
  }

  /** The configuration can be turned into a connection. */
  predicate Good(p: PeerConfig, parse: Parser) {
    p.allowedIps != [] && AllParse(p.allowedIps, parse)
  }

  // ---------- The three phases ----------

  function IdsOf(store: map<Key, Conn>, ks: set<Key>): set<nat> {
    set k | k in ks && k in store :: store[k].id
  }

  /** Removing a set of peers, in any order. */
  function RemoveKeys(m: Mgr, ks: set<Key>): Mgr {
    m.(store := m.store - ks,
       closed := m.closed + IdsOf(m.store, ks),
       lazy := if m.lazy.None? then None
               else Some(m.lazy.value.(managed := m.lazy.value.managed - (ks * m.store.Keys))))
  }

  function NewConn(p: PeerConfig, id: nat, parse: Parser): Conn
    requires Good(p, parse)
  {
    Conn(id, p.agentVersion, Parsed(p.allowedIps, parse), false)
  }

  /** addNewPeer: an existing peer is left alone; a bad configuration is an error. */
  function AddNewPeer(ps: Peers, w: World, p: PeerConfig): (Peers, bool) {
    if p.key in ps.mgr.store then (ps, true)
    else if !Good(p, w.parse) then (ps, false)
    else
      var conn := NewConn(p, ps.nextId, w.parse);
      var welcome := Welcome(w.supported(p.agentVersion), w.monitored(conn.id), w.groupAwake(conn.id));
      (Peers(AddPeerConn(ps.mgr, p.key, conn, welcome).0, ps.nextId + 1), true)
  }

  /** addNewPeers stops at the first error. */
  function AddPeers(ps: Peers, w: World, list: seq<PeerConfig>): (Peers, bool) {
    if list == [] then (ps, true)
    else
      var n := |list| - 1;
      var (q, ok) := AddPeers(ps, w, list[..n]);
      if ok then AddNewPeer(q, w, list[n]) else (q, false)
  }

  /** The stored connection is what the configuration asks for. */
  ghost predicate Matches(conn: Conn, p: PeerConfig, parse: Parser) {
    conn.agentVersion == p.agentVersion && SamePrefixes(conn.allowedIps, p.allowedIps, parse)
  }

  ghost predicate Matching(store: map<Key, Conn>, p: PeerConfig, parse: Parser) {
    p.key in store && Matches(store[p.key], p, parse)
  }

  /** The configurations of stored peers that differ from their connection, in order. */
  ghost function Modified(store: map<Key, Conn>, list: seq<PeerConfig>, parse: Parser): seq<PeerConfig> {
    if list == [] then []
    else
      var n := |list| - 1;
      Modified(store, list[..n], parse) +
      (if list[n].key in store && !Matching(store, list[n], parse) then [list[n]] else [])
  }

  ghost function RemovePeers(ps: Peers, list: seq<PeerConfig>): Peers {
    ps.(mgr := RemoveKeys(ps.mgr, ps.mgr.store.Keys - Keys(list)))
  }

  ghost function ModifyPeers(ps: Peers, w: World, list: seq<PeerConfig>): (Peers, bool) {
    var mod := Modified(ps.mgr.store, list, w.parse);
    AddPeers(ps.(mgr := RemoveKeys(ps.mgr, Keys(mod))), w, mod)
  }

  ghost function Reconcile(ps: Peers, w: World, list: seq<PeerConfig>): (Peers, bool) {
    var (q, ok) := ModifyPeers(RemovePeers(ps, list), w, list);
    if ok then AddPeers(q, w, list) else (q, false)
  }

  // ---------- What adding does ----------

  /** The first configuration in the list for a key. */
  ghost function First(list: seq<PeerConfig>, k: Key): (r: Option<PeerConfig>)
    ensures r.Some? <==> k in Keys(list)
    ensures r.Some? ==> r.value in list && r.value.key == k
  {
    if list == [] then None
    else
      var n := |list| - 1;
      assert list == list[..n] + [list[n]];
      var r := First(list[..n], k);
      if r.Some? then r else if list[n].key == k then Some(list[n]) else None
  }

  lemma FirstExtends(list: seq<PeerConfig>, p: PeerConfig, k: Key)
    ensures First(list + [p], k) ==
            if First(list, k).Some? then First(list, k) else if p.key == k then Some(p) else None
  {
    assert (list + [p])[..|list|] == list;
  }

  /** The connection was made from the configuration. */
  predicate MadeFrom(conn: Conn, p: PeerConfig, parse: Parser) {
    && Good(p, parse) && conn.agentVersion == p.agentVersion
    && conn.allowedIps == Parsed(p.allowedIps, parse)
  }

  /** The first configuration of the key, if it has to be added, is good. */
  ghost predicate GoodFirst(store: map<Key, Conn>, list: seq<PeerConfig>, k: Key, parse: Parser) {
    k !in store && First(list, k).Some? ==> Good(First(list, k).value, parse)
  }

  /** `q` is `ps` plus one fresh connection, made from the first configuration of its key, for
      every key of the store that was not there before. */
  ghost predicate Grown(ps: Peers, q: Peers, w: World, list: seq<PeerConfig>) {
    && ps.mgr.store.Keys <= q.mgr.store.Keys
    && (forall k :: k in ps.mgr.store ==> q.mgr.store[k] == ps.mgr.store[k])
    && (forall k :: k in q.mgr.store && k !in ps.mgr.store ==> FreshFor(ps, q, w, list, k))
    && q.mgr.closed == ps.mgr.closed && ps.nextId <= q.nextId
    && (q.nextId == ps.nextId <==> q.mgr.store.Keys == ps.mgr.store.Keys)
  }

  ghost predicate FreshFor(ps: Peers, q: Peers, w: World, list: seq<PeerConfig>, k: Key)
    requires k in q.mgr.store
  {
    && First(list, k).Some? && MadeFrom(q.mgr.store[k], First(list, k).value, w.parse)
    && ps.nextId <= q.mgr.store[k].id < q.nextId
  }

  lemma AddNewPeerEffect(ps: Peers, w: World, p: PeerConfig)
    requires p.key !in ps.mgr.store && Good(p, w.parse)
    ensures var q := AddNewPeer(ps, w, p).0;
            && q.mgr.store.Keys == ps.mgr.store.Keys + {p.key} && q.nextId == ps.nextId + 1
            && MadeFrom(q.mgr.store[p.key], p, w.parse) && q.mgr.store[p.key].id == ps.nextId
            && (forall k :: k in ps.mgr.store ==> q.mgr.store[k] == ps.mgr.store[k])
            && q.mgr.closed == ps.mgr.closed
  {
  }

  lemma GrowthStep(ps: Peers, q: Peers, w: World, list: seq<PeerConfig>, p: PeerConfig)
    requires Grown(ps, q, w, list) && Keys(list) <= q.mgr.store.Keys
    ensures Grown(ps, AddNewPeer(q, w, p).0, w, list + [p])
    ensures AddNewPeer(q, w, p).1 ==>
              AddNewPeer(q, w, p).0.mgr.store.Keys == q.mgr.store.Keys + {p.key}
    ensures AddNewPeer(q, w, p).1 <==> p.key in q.mgr.store || Good(p, w.parse)
  {
    var q' := AddNewPeer(q, w, p).0;
    if p.key !in q.mgr.store && Good(p, w.parse) {
      AddNewPeerEffect(q, w, p);
    }
    forall k | k in q'.mgr.store && k !in ps.mgr.store ensures FreshFor(ps, q', w, list + [p], k) {
      FirstExtends(list, p, k);
      if k in q.mgr.store {
        assert FreshFor(ps, q, w, list, k);
      }
    }
  }

  /** A list that grows keeps what was grown from its front. */
  lemma GrownLonger(ps: Peers, q: Peers, w: World, list: seq<PeerConfig>, p: PeerConfig)
    requires Grown(ps, q, w, list)
    ensures Grown(ps, q, w, list + [p])
  {
    forall k | k in q.mgr.store && k !in ps.mgr.store ensures FreshFor(ps, q, w, list + [p], k) {
      assert FreshFor(ps, q, w, list, k);
      FirstExtends(list, p, k);
    }
  }

  ghost predicate AllGoodFirst(store: map<Key, Conn>, list: seq<PeerConfig>, parse: Parser) {
    forall k :: GoodFirst(store, list, k, parse)
  }

  /** One more configuration matters only when it is the first of a key that has to be added. */
  lemma AllGoodFirstStep(store: map<Key, Conn>, list: seq<PeerConfig>, p: PeerConfig, parse: Parser)
    ensures AllGoodFirst(store, list + [p], parse) <==>
            AllGoodFirst(store, list, parse) && (p.key !in store && p.key !in Keys(list) ==> Good(p, parse))
  {
    forall k ensures GoodFirst(store, list + [p], k, parse) <==>
                     GoodFirst(store, list, k, parse) &&
                     (k == p.key && k !in store && k !in Keys(list) ==> Good(p, parse))
    {
      FirstExtends(list, p, k);
    }
    if AllGoodFirst(store, list + [p], parse) {
      assert GoodFirst(store, list + [p], p.key, parse);
    }
  }

  lemma KeysExtend(list: seq<PeerConfig>, p: PeerConfig)
    ensures Keys(list + [p]) == Keys(list) + {p.key}
  {
  }

  /** Adding a list keeps stored connections as they are, creates a connection for each other key
      from the first configuration of that key, and succeeds exactly when those are good. */
  lemma {:induction false} AddPeersEffect(ps: Peers, w: World, list: seq<PeerConfig>)
    ensures var (q, ok) := AddPeers(ps, w, list);
            && Grown(ps, q, w, list)
            && (ok <==> AllGoodFirst(ps.mgr.store, list, w.parse))
            && (ok ==> q.mgr.store.Keys == ps.mgr.store.Keys + Keys(list))
  {
    if list != [] {
      var n := |list| - 1;
      var front, p := list[..n], list[n];
      assert list == front + [p];
      AddPeersEffect(ps, w, front);
      var (q, ok) := AddPeers(ps, w, front);
      KeysExtend(front, p);
      AllGoodFirstStep(ps.mgr.store, front, p, w.parse);
      if ok {
        GrowthStep(ps, q, w, front, p);
      } else {
        GrownLonger(ps, q, w, front, p);
      }
    }
  }

  /** Adding the list gets as far as its i-th configuration, which is one of the key. */
  ghost predicate ReachedAt(store: map<Key, Conn>, list: seq<PeerConfig>, i: nat, k: Key, parse: Parser) {
    i < |list| && list[i].key == k && AllGoodFirst(store, list[..i + 1], parse)
  }

  ghost predicate Reached(store: map<Key, Conn>, list: seq<PeerConfig>, k: Key, parse: Parser) {
    exists i :: ReachedAt(store, list, i, k, parse)
  }

  lemma ReachedAtStep(store: map<Key, Conn>, list: seq<PeerConfig>, p: PeerConfig, i: nat, k: Key, parse: Parser)
    ensures ReachedAt(store, list + [p], i, k, parse) <==>
            || ReachedAt(store, list, i, k, parse)
            || (i == |list| && p.key == k && AllGoodFirst(store, list + [p], parse))
  {
    if i < |list| {
      assert (list + [p])[..i + 1] == list[..i + 1];
    } else if i == |list| {
      assert (list + [p])[..i + 1] == list + [p];
    }
  }

  lemma ReachedStep(store: map<Key, Conn>, list: seq<PeerConfig>, p: PeerConfig, k: Key, parse: Parser)
    ensures Reached(store, list + [p], k, parse) <==>
            Reached(store, list, k, parse) || (p.key == k && AllGoodFirst(store, list + [p], parse))
  {
    if i :| ReachedAt(store, list + [p], i, k, parse) {
      ReachedAtStep(store, list, p, i, k, parse);
    }
    if i :| ReachedAt(store, list, i, k, parse) {
      ReachedAtStep(store, list, p, i, k, parse);
    }
    ReachedAtStep(store, list, p, |list|, k, parse);
  }

  lemma {:induction false} ReachedAll(store: map<Key, Conn>, list: seq<PeerConfig>, k: Key, parse: Parser)
    requires AllGoodFirst(store, list, parse)
    ensures Reached(store, list, k, parse) <==> k in Keys(list)
  {
    if list != [] {
      var front, p := list[..|list| - 1], list[|list| - 1];
      assert list == front + [p];
      AllGoodFirstStep(store, front, p, parse);
      ReachedAll(store, front, k, parse);
      ReachedStep(store, front, p, k, parse);
      KeysExtend(front, p);
    }
  }

  lemma ReachedIsListed(store: map<Key, Conn>, list: seq<PeerConfig>, k: Key, parse: Parser)
    requires Reached(store, list, k, parse)
    ensures k in Keys(list)
  {
    KeysOf(list);
    var i: nat :| ReachedAt(store, list, i, k, parse);
    assert list[i] in list;
  }

  lemma {:induction false} AllGoodFirstFrame(a: map<Key, Conn>, b: map<Key, Conn>, list: seq<PeerConfig>, parse: Parser)
    requires forall k :: k in Keys(list) ==> (k in a <==> k in b)
    ensures AllGoodFirst(a, list, parse) <==> AllGoodFirst(b, list, parse)
  {
    assert forall k :: GoodFirst(a, list, k, parse) <==> GoodFirst(b, list, k, parse);
  }

  lemma ReachedFrame(a: map<Key, Conn>, b: map<Key, Conn>, list: seq<PeerConfig>, k: Key, parse: Parser)
    requires forall j :: j in Keys(list) ==> (j in a <==> j in b)
    ensures Reached(a, list, k, parse) <==> Reached(b, list, k, parse)
  {
    forall i: nat ensures ReachedAt(a, list, i, k, parse) <==> ReachedAt(b, list, i, k, parse) {
      if i < |list| {
        assert Keys(list[..i + 1]) <= Keys(list);
        AllGoodFirstFrame(a, b, list[..i + 1], parse);
      }
    }
  }

  /** Adding a list, failing or not, stores exactly what was stored and the keys it reaches. */
  lemma {:induction false} AddedKeysExactly(ps: Peers, w: World, list: seq<PeerConfig>, k: Key)
    ensures k in AddPeers(ps, w, list).0.mgr.store <==>
            k in ps.mgr.store || Reached(ps.mgr.store, list, k, w.parse)
  {
    if list != [] {
      var n := |list| - 1;
      var front, p := list[..n], list[n];
      assert list == front + [p];
      AddedKeysExactly(ps, w, front, k);
      AddPeersEffect(ps, w, front);
      ReachedStep(ps.mgr.store, front, p, k, w.parse);
      AllGoodFirstStep(ps.mgr.store, front, p, w.parse);
      var (q, ok) := AddPeers(ps, w, front);
      if ok && p.key !in q.mgr.store && Good(p, w.parse) {
        AddNewPeerEffect(q, w, p);
      }
    }
  }

  // ---------- The whole reconciliation, in closed form ----------

  /** The first configuration in the list for a key that does not match the store. */
  ghost function FirstNew(store: map<Key, Conn>, list: seq<PeerConfig>, k: Key, parse: Parser): (r: Option<PeerConfig>)
    ensures r.Some? ==> r.value in list && r.value.key == k && !Matching(store, r.value, parse)
    ensures r.None? ==> forall p :: p in list && p.key == k ==> Matching(store, p, parse)
  {
    if list == [] then None
    else
      var n := |list| - 1;
      assert list == list[..n] + [list[n]];
      var r := FirstNew(store, list[..n], k, parse);
      if r.Some? then r
      else if list[n].key == k && !Matching(store, list[n], parse) then Some(list[n])
      else None
  }

  lemma {:induction false} FirstNewOfAbsent(store: map<Key, Conn>, list: seq<PeerConfig>, k: Key, parse: Parser)
    requires k !in store
    ensures FirstNew(store, list, k, parse) == First(list, k)
  {
    if list != [] {
      FirstNewOfAbsent(store, list[..|list| - 1], k, parse);
    }
  }

  lemma {:induction false} FirstNewOfStored(store: map<Key, Conn>, list: seq<PeerConfig>, k: Key, parse: Parser)
    ensures First(Modified(store, list, parse), k) == if k in store then FirstNew(store, list, k, parse) else None
  {
    if list != [] {
      var n := |list| - 1;
      FirstNewOfStored(store, list[..n], k, parse);
      var front := Modified(store, list[..n], parse);
      FirstExtends(front, list[n], k);
      assert front + [] == front;
    }
  }

  lemma {:induction false} ModifiedFrame(a: map<Key, Conn>, b: map<Key, Conn>, list: seq<PeerConfig>, parse: Parser)
    requires forall p :: p in list ==> (p.key in a <==> p.key in b) && (p.key in a ==> a[p.key] == b[p.key])
    ensures Modified(a, list, parse) == Modified(b, list, parse)
  {
    if list != [] {
      ModifiedFrame(a, b, list[..|list| - 1], parse);
    }
  }

  /** The key has a configuration that does not match the store. */
  ghost predicate Outdated(store: map<Key, Conn>, list: seq<PeerConfig>, parse: Parser, k: Key) {
    FirstNew(store, list, k, parse).Some?
  }

  /** What a successful reconciliation leaves: exactly the listed keys; the very same connection
      where every configuration of the key matched it; otherwise a fresh one made from the first
      configuration that did not. */
  ghost predicate Reconciled(ps: Peers, q: Peers, w: World, list: seq<PeerConfig>) {
    && q.mgr.store.Keys == Keys(list)
    && (forall k :: k in q.mgr.store ==> Settled(ps, q, w, list, k))
    && q.mgr.closed == ps.mgr.closed + (set k | k in ps.mgr.store &&
                         (k !in Keys(list) || Outdated(ps.mgr.store, list, w.parse, k)) :: ps.mgr.store[k].id)
    && ps.nextId <= q.nextId
  }

  ghost predicate Settled(ps: Peers, q: Peers, w: World, list: seq<PeerConfig>, k: Key)
    requires k in q.mgr.store
  {
    var first := FirstNew(ps.mgr.store, list, k, w.parse);
    if first.None? then k in ps.mgr.store && q.mgr.store[k] == ps.mgr.store[k]
    else MadeFrom(q.mgr.store[k], first.value, w.parse) && ps.nextId <= q.mgr.store[k].id < q.nextId
  }

  /** The keys that keep their connection are what is left before anything is added. */
  lemma BeforeAdding(ps: Peers, w: World, list: seq<PeerConfig>) returns (mod: seq<PeerConfig>, mid: Peers)
    ensures mod == Modified(ps.mgr.store, list, w.parse)
    ensures ModifyPeers(RemovePeers(ps, list), w, list) == AddPeers(mid, w, mod) && mid.nextId == ps.nextId
    ensures forall k :: k in mid.mgr.store <==>
              k in ps.mgr.store && k in Keys(list) && !Outdated(ps.mgr.store, list, w.parse, k)
    ensures forall k :: k in mid.mgr.store ==> mid.mgr.store[k] == ps.mgr.store[k]
    ensures forall k :: k in Keys(mod) <==> k in ps.mgr.store && Outdated(ps.mgr.store, list, w.parse, k)
    ensures mid.mgr.closed == ps.mgr.closed + (set k | k in ps.mgr.store &&
              (k !in Keys(list) || Outdated(ps.mgr.store, list, w.parse, k)) :: ps.mgr.store[k].id)
  {
    var one := RemovePeers(ps, list);
    KeysOf(list);
    ModifiedFrame(one.mgr.store, ps.mgr.store, list, w.parse);
    mod := Modified(ps.mgr.store, list, w.parse);
    mid := one.(mgr := RemoveKeys(one.mgr, Keys(mod)));
    forall k ensures k in Keys(mod) <==> k in ps.mgr.store && Outdated(ps.mgr.store, list, w.parse, k) {
      FirstNewOfStored(ps.mgr.store, list, k, w.parse);
    }
  }

  /** Everything that has to be added can be. */
  ghost predicate AllAddable(ps: Peers, w: World, list: seq<PeerConfig>) {
    forall k :: AddableKey(ps.mgr.store, list, w.parse, k)
  }

  ghost predicate AddableKey(store: map<Key, Conn>, list: seq<PeerConfig>, parse: Parser, k: Key) {
    FirstNew(store, list, k, parse).Some? ==> Good(FirstNew(store, list, k, parse).value, parse)
  }

  /** The modify phase succeeds exactly when the changed peers can be added again. */
  lemma ModifyPhase(ps: Peers, w: World, list: seq<PeerConfig>, mod: seq<PeerConfig>, mid: Peers)
    requires mod == Modified(ps.mgr.store, list, w.parse)
    requires forall k :: k in mid.mgr.store ==> k !in Keys(mod)
    ensures AddPeers(mid, w, mod).1 <==>
            forall k :: k in ps.mgr.store ==> AddableKey(ps.mgr.store, list, w.parse, k)
  {
    AddPeersEffect(mid, w, mod);
    forall k ensures GoodFirst(mid.mgr.store, mod, k, w.parse) <==>
                     (k in ps.mgr.store ==> AddableKey(ps.mgr.store, list, w.parse, k))
    {
      FirstNewOfStored(ps.mgr.store, list, k, w.parse);
    }
  }

  /** The add phase succeeds exactly when the peers new to the store can be added. */
  lemma AddPhase(ps: Peers, w: World, list: seq<PeerConfig>, q: Peers)
    requires forall k :: k in Keys(list) ==> (k in q.mgr.store <==> k in ps.mgr.store)
    ensures AddPeers(q, w, list).1 <==>
            forall k :: k !in ps.mgr.store ==> AddableKey(ps.mgr.store, list, w.parse, k)
  {
    AddPeersEffect(q, w, list);
    forall k ensures GoodFirst(q.mgr.store, list, k, w.parse) <==>
                     (k !in ps.mgr.store ==> AddableKey(ps.mgr.store, list, w.parse, k))
    {
      if k !in ps.mgr.store {
        FirstNewOfAbsent(ps.mgr.store, list, k, w.parse);
      }
    }
  }

  lemma SettledKey(ps: Peers, w: World, list: seq<PeerConfig>, mod: seq<PeerConfig>, mid: Peers, q1: Peers, q2: Peers, k: Key)
    requires mod == Modified(ps.mgr.store, list, w.parse) && mid.nextId == ps.nextId
    requires forall j :: j in mid.mgr.store <==>
               j in ps.mgr.store && j in Keys(list) && !Outdated(ps.mgr.store, list, w.parse, j)
    requires forall j :: j in mid.mgr.store ==> mid.mgr.store[j] == ps.mgr.store[j]
    requires Grown(mid, q1, w, mod) && Grown(q1, q2, w, list) && k in q2.mgr.store
    requires k in ps.mgr.store && k in Keys(list) ==> k in q1.mgr.store
    ensures Settled(ps, q2, w, list, k)
  {
    FirstNewOfStored(ps.mgr.store, list, k, w.parse);
    if k !in ps.mgr.store {
      FirstNewOfAbsent(ps.mgr.store, list, k, w.parse);
    }
    if k in mid.mgr.store {
    } else if k in q1.mgr.store {
      assert FreshFor(mid, q1, w, mod, k);
    } else {
      assert FreshFor(q1, q2, w, list, k);
    }
  }

  /** For any store and any list of configurations, duplicates and unparseable ones included:
      reconciliation succeeds exactly when the first differing configuration of every key is
      good, and then it leaves exactly what `Reconciled` says. */
  lemma ReconcileExactly(ps: Peers, w: World, list: seq<PeerConfig>)
    ensures Reconcile(ps, w, list).1 <==> AllAddable(ps, w, list)
    ensures Reconcile(ps, w, list).1 ==> Reconciled(ps, Reconcile(ps, w, list).0, w, list)
  {
    var mod, mid := BeforeAdding(ps, w, list);
    ModifyPhase(ps, w, list, mod, mid);
    AddPeersEffect(mid, w, mod);
    var (q1, ok1) := AddPeers(mid, w, mod);
    if ok1 {
      AddPhase(ps, w, list, q1);
      AddPeersEffect(q1, w, list);
      var (q2, ok2) := AddPeers(q1, w, list);
      if ok2 {
        forall k | k in q2.mgr.store ensures Settled(ps, q2, w, list, k) {
          SettledKey(ps, w, list, mod, mid, q1, q2, k);
        }
      }
    }
  }

  // ---------- Exactness, churn and idempotence ----------

  ghost predicate DistinctKeys(list: seq<PeerConfig>) {
    forall p, q :: p in list && q in list && p.key == q.key ==> p == q
  }

  /** Identities in use were handed out before, and no connection is without allowed IPs. */
  ghost predicate WellMade(ps: Peers) {
    forall k :: k in ps.mgr.store ==> ps.mgr.store[k].id < ps.nextId && ps.mgr.store[k].allowedIps != []
  }

  lemma MadeFromMatches(conn: Conn, p: PeerConfig, parse: Parser)
    requires MadeFrom(conn, p, parse)
    ensures Matches(conn, p, parse) && conn.allowedIps != []
  {
  }

  lemma ReconcileKeepsWellMade(ps: Peers, w: World, list: seq<PeerConfig>)
    requires WellMade(ps)
    ensures WellMade(Reconcile(ps, w, list).0)
  {
    var mod, mid := BeforeAdding(ps, w, list);
    AddPeersEffect(mid, w, mod);
    var q1 := AddPeers(mid, w, mod).0;
    AddPeersEffect(q1, w, list);
    var q2 := AddPeers(q1, w, list).0;
    forall k | k in q1.mgr.store ensures q1.mgr.store[k].id < q1.nextId && q1.mgr.store[k].allowedIps != [] {
      assert k !in mid.mgr.store ==> FreshFor(mid, q1, w, mod, k);
    }
    forall k | k in q2.mgr.store ensures q2.mgr.store[k].id < q2.nextId && q2.mgr.store[k].allowedIps != [] {
      assert k !in q1.mgr.store ==> FreshFor(q1, q2, w, list, k);
    }
  }

  /** Success or not, no peer outside the update stays in the store. */
  lemma NoForeignPeerStays(ps: Peers, w: World, list: seq<PeerConfig>)
    ensures Reconcile(ps, w, list).0.mgr.store.Keys <= Keys(list)
  {
    var mod, mid := BeforeAdding(ps, w, list);
    AddPeersEffect(mid, w, mod);
    var q1 := AddPeers(mid, w, mod).0;
    AddPeersEffect(q1, w, list);
    var q2 := AddPeers(q1, w, list).0;
    forall k | k in q2.mgr.store ensures k in Keys(list) {
      if k !in q1.mgr.store {
        assert FreshFor(q1, q2, w, list, k);
      } else if k !in mid.mgr.store {
        assert FreshFor(mid, q1, w, mod, k);
        FirstNewOfStored(ps.mgr.store, list, k, w.parse);
      }
    }
  }

  /** After success every connection is what some configuration of its key asks for; with
      distinct keys every configuration is met. */
  lemma ReconcileMeetsUpdate(ps: Peers, w: World, list: seq<PeerConfig>)
    requires Reconcile(ps, w, list).1
    ensures var q := Reconcile(ps, w, list).0;
            && q.mgr.store.Keys == Keys(list)
            && (forall k :: k in q.mgr.store ==> exists p :: p in list && p.key == k && Matching(q.mgr.store, p, w.parse))
            && (DistinctKeys(list) ==> forall p :: p in list ==> Matching(q.mgr.store, p, w.parse))
  {
    ReconcileExactly(ps, w, list);
    var q := Reconcile(ps, w, list).0;
    KeysOf(list);
    forall k | k in q.mgr.store ensures exists p :: p in list && p.key == k && Matching(q.mgr.store, p, w.parse) {
      assert Settled(ps, q, w, list, k);
      var first := FirstNew(ps.mgr.store, list, k, w.parse);
      if first.Some? {
        MadeFromMatches(q.mgr.store[k], first.value, w.parse);
        assert Matching(q.mgr.store, first.value, w.parse);
      } else {
        var p :| p in list && p.key == k;
        assert Matching(ps.mgr.store, p, w.parse);
        assert Matching(q.mgr.store, p, w.parse);
      }
    }
  }

  /** What is in the store after any update, failing or not, is settled. */
  lemma SettledAlways(ps: Peers, w: World, list: seq<PeerConfig>, k: Key)
    ensures var q := Reconcile(ps, w, list).0;
            && (k in q.mgr.store ==> Settled(ps, q, w, list, k))
            && (k in ps.mgr.store && k in Keys(list) && !Outdated(ps.mgr.store, list, w.parse, k) ==> k in q.mgr.store)
  {
    var mod, mid := BeforeAdding(ps, w, list);
    AddPeersEffect(mid, w, mod);
    var (q1, ok1) := AddPeers(mid, w, mod);
    FirstNewOfStored(ps.mgr.store, list, k, w.parse);
    if ok1 {
      AddPeersEffect(q1, w, list);
      var q2 := AddPeers(q1, w, list).0;
      if k in q2.mgr.store {
        SettledKey(ps, w, list, mod, mid, q1, q2, k);
      }
    } else if k in q1.mgr.store && k !in mid.mgr.store {
      assert FreshFor(mid, q1, w, mod, k);
    }
  }

  /** A stored connection is the one it was or carries a new identity. */
  lemma OldOrNew(ps: Peers, w: World, list: seq<PeerConfig>, k: Key)
    ensures var q := Reconcile(ps, w, list).0;
            && ps.nextId <= q.nextId
            && (k in q.mgr.store ==>
                  (k in ps.mgr.store && q.mgr.store[k] == ps.mgr.store[k]) || ps.nextId <= q.mgr.store[k].id)
  {
    SettledAlways(ps, w, list, k);
    var mod, mid := BeforeAdding(ps, w, list);
    AddPeersEffect(mid, w, mod);
    AddPeersEffect(AddPeers(mid, w, mod).0, w, list);
  }

  /** The configuration asks for this very version, and its texts all parse to these very prefixes,
      counted with multiplicity. */
  ghost predicate AsksFor(p: PeerConfig, conn: Conn, parse: Parser) {
    && p.agentVersion == conn.agentVersion && (forall t :: t in p.allowedIps ==> parse(t).Some?)
    && multiset(conn.allowedIps) ==
       multiset(seq(|p.allowedIps|, i requires 0 <= i < |p.allowedIps| =>
                      if parse(p.allowedIps[i]).Some? then parse(p.allowedIps[i]).value else ""))
  }

  lemma AsksForMatches(p: PeerConfig, conn: Conn, parse: Parser)
    ensures AsksFor(p, conn, parse) <==> Matches(conn, p, parse)
  {
    var ps := seq(|p.allowedIps|, i requires 0 <= i < |p.allowedIps| =>
                    if parse(p.allowedIps[i]).Some? then parse(p.allowedIps[i]).value else "");
    if AllParse(p.allowedIps, parse) {
      assert ps == Parsed(p.allowedIps, parse);
    }
  }

  /** The key is listed and every configuration of it asks for this connection. */
  ghost predicate Wanted(list: seq<PeerConfig>, k: Key, conn: Conn, parse: Parser) {
    (exists p :: p in list && p.key == k) && forall p :: p in list && p.key == k ==> AsksFor(p, conn, parse)
  }

  lemma WantedExactly(store: map<Key, Conn>, list: seq<PeerConfig>, k: Key, parse: Parser)
    requires k in store
    ensures Wanted(list, k, store[k], parse) <==> k in Keys(list) && !Outdated(store, list, parse, k)
  {
    KeysOf(list);
    forall p | p in list && p.key == k ensures AsksFor(p, store[k], parse) <==> Matching(store, p, parse) {
      AsksForMatches(p, store[k], parse);
    }
  }

  /** A connection object survives an update, failing or not, exactly when its key is still listed and
      every configuration of the key asks for it. */
  lemma SurvivesExactly(ps: Peers, w: World, list: seq<PeerConfig>, k: Key)
    requires WellMade(ps) && k in ps.mgr.store
    ensures var q := Reconcile(ps, w, list).0;
            && ((k in q.mgr.store && q.mgr.store[k].id == ps.mgr.store[k].id) <==>
                Wanted(list, k, ps.mgr.store[k], w.parse))
            && (Wanted(list, k, ps.mgr.store[k], w.parse) ==> q.mgr.store[k] == ps.mgr.store[k])
  {
    SettledAlways(ps, w, list, k);
    WantedExactly(ps.mgr.store, list, k, w.parse);
    NoForeignPeerStays(ps, w, list);
  }

  lemma SurvivorMatches(ps: Peers, w: World, list: seq<PeerConfig>, p: PeerConfig)
    requires WellMade(ps) && p in list && p.key in ps.mgr.store && p.key in Reconcile(ps, w, list).0.mgr.store
    requires Reconcile(ps, w, list).0.mgr.store[p.key].id == ps.mgr.store[p.key].id
    ensures Matching(ps.mgr.store, p, w.parse)
  {
    SurvivesExactly(ps, w, list, p.key);
    AsksForMatches(p, ps.mgr.store[p.key], w.parse);
  }

  /** ... and exactly the others are closed. */
  lemma ClosedExactly(ps: Peers, w: World, list: seq<PeerConfig>)
    ensures Reconcile(ps, w, list).0.mgr.closed == ps.mgr.closed +
            (set k | k in ps.mgr.store && !Wanted(list, k, ps.mgr.store[k], w.parse) :: ps.mgr.store[k].id)
  {
    var mod, mid := BeforeAdding(ps, w, list);
    AddPeersEffect(mid, w, mod);
    AddPeersEffect(AddPeers(mid, w, mod).0, w, list);
    UnwantedIds(ps.mgr.store, list, w.parse);
  }

  lemma UnwantedIds(store: map<Key, Conn>, list: seq<PeerConfig>, parse: Parser)
    ensures (set k | k in store && !Wanted(list, k, store[k], parse) :: store[k].id) ==
            (set k | k in store && (k !in Keys(list) || Outdated(store, list, parse, k)) :: store[k].id)
  {
    forall k | k in store
      ensures Wanted(list, k, store[k], parse) <==> k in Keys(list) && !Outdated(store, list, parse, k)
    {
      WantedExactly(store, list, k, parse);
    }
  }

  /** The connections that stay. */
  ghost function Survivors(ps: Peers, w: World, list: seq<PeerConfig>): map<Key, Conn> {
    map k | k in ps.mgr.store && k in Keys(list) && !Outdated(ps.mgr.store, list, w.parse, k) :: ps.mgr.store[k]
  }

  /** The keys in the store after any update, failing or not: the survivors; the changed peers, as far
      as adding them again gets; and, if that gets to its end, the new peers, as far as adding the
      list gets. */
  lemma StoredExactly(ps: Peers, w: World, list: seq<PeerConfig>, k: Key)
    ensures var changed := Modified(ps.mgr.store, list, w.parse);
            k in Reconcile(ps, w, list).0.mgr.store <==>
            || k in Survivors(ps, w, list)
            || Reached(Survivors(ps, w, list), changed, k, w.parse)
            || (AllGoodFirst(Survivors(ps, w, list), changed, w.parse) &&
                k !in ps.mgr.store && Reached(ps.mgr.store, list, k, w.parse))
  {
    var mod, mid := BeforeAdding(ps, w, list);
    assert mid.mgr.store == Survivors(ps, w, list);
    AddPeersEffect(mid, w, mod);
    AddedKeysExactly(mid, w, mod, k);
    var (q1, ok1) := AddPeers(mid, w, mod);
    if ok1 {
      AddedKeysExactly(q1, w, list, k);
      ReachedFrame(q1.mgr.store, ps.mgr.store, list, k, w.parse);
      if Reached(ps.mgr.store, list, k, w.parse) {
        ReachedIsListed(ps.mgr.store, list, k, w.parse);
      }
    }
  }

  lemma {:induction false} NothingModified(store: map<Key, Conn>, list: seq<PeerConfig>, parse: Parser)
    requires forall p :: p in list ==> Matching(store, p, parse)
    ensures Modified(store, list, parse) == []
  {
    if list != [] {
      NothingModified(store, list[..|list| - 1], parse);
    }
  }

  lemma {:induction false} NothingAdded(ps: Peers, w: World, list: seq<PeerConfig>)
    requires forall p :: p in list ==> p.key in ps.mgr.store
    ensures AddPeers(ps, w, list) == (ps, true)
  {
    if list != [] {
      NothingAdded(ps, w, list[..|list| - 1]);
    }
  }

  /** The store holds exactly the listed keys and meets every configuration. */
  ghost predicate Met(store: map<Key, Conn>, list: seq<PeerConfig>, parse: Parser) {
    store.Keys == Keys(list) && forall p :: p in list ==> Matching(store, p, parse)
  }

  /** Applying a list changes nothing at all exactly when the store holds the listed keys and no
      others and every configuration is met. */
  lemma QuietExactly(ps: Peers, w: World, list: seq<PeerConfig>)
    requires WellMade(ps)
    ensures Reconcile(ps, w, list) == (ps, true) <==> Met(ps.mgr.store, list, w.parse)
  {
    KeysOf(list);
    if Met(ps.mgr.store, list, w.parse) {
      assert ps.mgr.store.Keys - Keys(list) == {};
      RemoveNothing(ps.mgr);
      assert RemovePeers(ps, list) == ps;
      NothingModified(ps.mgr.store, list, w.parse);
      assert Keys([]) == {};
      NothingAdded(ps, w, list);
    } else if Reconcile(ps, w, list) == (ps, true) {
      ReconcileMeetsUpdate(ps, w, list);
      forall p | p in list ensures Matching(ps.mgr.store, p, w.parse) {
        SurvivorMatches(ps, w, list, p);
      }
    }
  }

  lemma RemoveNothing(m: Mgr)
    ensures RemoveKeys(m, {}) == m
  {
    assert m.store - {} == m.store;
    assert IdsOf(m.store, {}) == {};
    if m.lazy.Some? {
      assert m.lazy.value.managed - ({} * m.store.Keys) == m.lazy.value.managed;
    }
  }

  /** Both configurations parse and ask for the same version and allowed-IP multiset. */
  ghost predicate Agree(p: PeerConfig, q: PeerConfig, parse: Parser) {
    && p.agentVersion == q.agentVersion && AllParse(p.allowedIps, parse)
    && SamePrefixes(Parsed(p.allowedIps, parse), q.allowedIps, parse)
  }

  /** Configurations of the same key ask for the same. */
  ghost predicate Agreeing(list: seq<PeerConfig>, parse: Parser) {
    forall p, q :: p in list && q in list && p.key == q.key ==> Agree(p, q, parse)
  }

  /** A successful update leaves every configuration met exactly when those of the same key ask for
      the same. */
  lemma MetExactly(ps: Peers, w: World, list: seq<PeerConfig>)
    requires Reconcile(ps, w, list).1
    ensures Met(Reconcile(ps, w, list).0.mgr.store, list, w.parse) <==> Agreeing(list, w.parse)
  {
    var store := Reconcile(ps, w, list).0.mgr.store;
    ReconcileMeetsUpdate(ps, w, list);
    KeysOf(list);
    if Agreeing(list, w.parse) {
      forall p | p in list ensures Matching(store, p, w.parse) {
        var q :| q in list && q.key == p.key && Matching(store, q, w.parse);
        assert Agree(p, q, w.parse);
      }
    }
    if Met(store, list, w.parse) {
      forall p, q | p in list && q in list && p.key == q.key ensures Agree(p, q, w.parse) {
        assert Matching(store, p, w.parse) && Matching(store, q, w.parse);
      }
    }
  }

  /** A second application of the same list creates and closes nothing exactly when configurations of
      the same key ask for the same. */
  lemma SecondTimeIsQuiet(ps: Peers, w: World, list: seq<PeerConfig>)
    requires WellMade(ps) && Reconcile(ps, w, list).1
    ensures var q := Reconcile(ps, w, list).0; Reconcile(q, w, list) == (q, true) <==> Agreeing(list, w.parse)
  {
    MetExactly(ps, w, list);
    ReconcileKeepsWellMade(ps, w, list);
    QuietExactly(Reconcile(ps, w, list).0, w, list);
  }

  /** With distinct keys an update succeeds exactly when all its configurations have allowed IPs
      and all of them parse. */
  lemma SucceedsExactly(ps: Peers, w: World, list: seq<PeerConfig>)
    requires WellMade(ps) && DistinctKeys(list)
    ensures Reconcile(ps, w, list).1 <==>
            forall p :: p in list ==> p.allowedIps != [] && forall t :: t in p.allowedIps ==> w.parse(t).Some?
  {
    assert forall p :: Good(p, w.parse) <==> p.allowedIps != [] && forall t :: t in p.allowedIps ==> w.parse(t).Some?;
    ReconcileExactly(ps, w, list);
    KeysOf(list);
    if AllAddable(ps, w, list) {
      forall p | p in list ensures Good(p, w.parse) {
        assert AddableKey(ps.mgr.store, list, w.parse, p.key);
        if FirstNew(ps.mgr.store, list, p.key, w.parse).None? {
          assert Matching(ps.mgr.store, p, w.parse);
          assert |multiset(Parsed(p.allowedIps, w.parse))| == |multiset(ps.mgr.store[p.key].allowedIps)|;
        }
      }
    }
  }

  // ---------- Conservation of connection objects ----------

  ghost predicate Stored(store: map<Key, Conn>, i: nat) {
    exists k :: k in store && store[k].id == i
  }

  /** Every connection object ever made is stored under exactly one key or was closed, never both. */
  ghost predicate Conserving(ps: Peers) {
    && (forall k :: k in ps.mgr.store ==> ps.mgr.store[k].id < ps.nextId)
    && (forall k, l | k in ps.mgr.store && l in ps.mgr.store :: ps.mgr.store[k].id == ps.mgr.store[l].id ==> k == l)
    && (forall i :: i in ps.mgr.closed ==> i < ps.nextId)
    && (forall i: nat :: i < ps.nextId ==> (i in ps.mgr.closed <==> !Stored(ps.mgr.store, i)))
  }

  lemma RemoveConserves(ps: Peers, ks: set<Key>)
    requires Conserving(ps)
    ensures Conserving(ps.(mgr := RemoveKeys(ps.mgr, ks)))
  {
    var q := ps.(mgr := RemoveKeys(ps.mgr, ks));
    forall i: nat | i < ps.nextId ensures i in q.mgr.closed <==> !Stored(q.mgr.store, i) {
      if Stored(ps.mgr.store, i) {
        var k :| k in ps.mgr.store && ps.mgr.store[k].id == i;
        assert k in ks ==> i in IdsOf(ps.mgr.store, ks);
        assert k !in ks ==> k in q.mgr.store && q.mgr.store[k].id == i;
      }
    }
  }

  lemma AddOneConserves(ps: Peers, w: World, p: PeerConfig)
    requires Conserving(ps)
    ensures Conserving(AddNewPeer(ps, w, p).0)
  {
    if p.key !in ps.mgr.store && Good(p, w.parse) {
      AddNewPeerEffect(ps, w, p);
      var q := AddNewPeer(ps, w, p).0;
      forall i: nat | i < q.nextId ensures i in q.mgr.closed <==> !Stored(q.mgr.store, i) {
        if i < ps.nextId && Stored(ps.mgr.store, i) {
          var k :| k in ps.mgr.store && ps.mgr.store[k].id == i;
          assert k in q.mgr.store && q.mgr.store[k].id == i;
        } else if i == ps.nextId {
          assert q.mgr.store[p.key].id == i;
        }
      }
    }
  }

  lemma {:induction false} AddConserves(ps: Peers, w: World, list: seq<PeerConfig>)
    requires Conserving(ps)
    ensures Conserving(AddPeers(ps, w, list).0)
  {
    if list != [] {
      var n := |list| - 1;
      AddConserves(ps, w, list[..n]);
      AddOneConserves(AddPeers(ps, w, list[..n]).0, w, list[n]);
    }
  }

  /** Reconciliation, failing or not, loses no connection object and reuses none. */
  lemma ReconcileConserves(ps: Peers, w: World, list: seq<PeerConfig>)
    requires Conserving(ps)
    ensures Conserving(Reconcile(ps, w, list).0)
  {
    var one := RemovePeers(ps, list);
    RemoveConserves(ps, ps.mgr.store.Keys - Keys(list));
    var mod := Modified(one.mgr.store, list, w.parse);
    var two := one.(mgr := RemoveKeys(one.mgr, Keys(mod)));
    RemoveConserves(one, Keys(mod));
    AddConserves(two, w, mod);
    AddConserves(AddPeers(two, w, mod).0, w, list);
  }
}
