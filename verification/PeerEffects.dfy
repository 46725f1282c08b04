/** What each operation of the connection manager does to each peer, key by key
    (client/internal/conn_mgr.go, client/internal/lazyconn/manager/manager.go). */
module PeerEffects {
  import opened Text
  import opened PeerState

  // ---------- Views of one key ----------

  predicate Open(m: Mgr, k: Key) {
    k in m.store && m.store[k].open
  }

  /** The manager holds the peer and watches for its inactivity. */
  predicate Awake(m: Mgr, k: Key) {
    m.lazy.Some? && k in m.lazy.value.managed && m.lazy.value.managed[k].watcher == Inactivity
  }

  predicate Asleep(m: Mgr, k: Key) {
    m.lazy.Some? && k in m.lazy.value.managed && m.lazy.value.managed[k].watcher == Activity
  }

  /** The entry of a key in a map, if there is one. */
  function At<V>(entries: map<Key, V>, k: Key): Option<V> {
    if k in entries then Some(entries[k]) else None
  }

  function ManagedAt(m: Mgr, k: Key): Option<Managed> {
    if m.lazy.Some? then At(m.lazy.value.managed, k) else None
  }

  /** The connection under which the peer is excluded. */
  function ExcludedAt(m: Mgr, k: Key): Option<nat> {
    if m.lazy.Some? then At(m.lazy.value.excludes, k) else None
  }

  /** Nothing that concerns the key changed. */
  predicate SameAt(a: Mgr, b: Mgr, k: Key) {
    && At(a.store, k) == At(b.store, k) && ManagedAt(a, k) == ManagedAt(b, k) && ExcludedAt(a, k) == ExcludedAt(b, k)
  }

  /** At most what the connection was told changed. */
  predicate SameConnAt(a: Mgr, b: Mgr, k: Key) {
    && (k in a.store <==> k in b.store)
    && (k in a.store ==> b.store[k] == a.store[k].(open := b.store[k].open))
  }

  /** At most the watcher changed. */
  predicate SameHolderAt(a: Mgr, b: Mgr, k: Key) {
    && ManagedAt(a, k).Some? == ManagedAt(b, k).Some?
    && (ManagedAt(a, k).Some? ==> ManagedAt(a, k).value.connId == ManagedAt(b, k).value.connId)
  }

  predicate SameRest(a: Mgr, b: Mgr) {
    a.enabledLocally == b.enabledLocally && a.rosenpass == b.rosenpass && a.closed == b.closed
  }

  // ---------- Adding and removing ----------

  /** A new peer is opened at once when nobody can watch it: without a lazy manager, with a version that
      does not support it, when it is excluded, or, unless the manager holds the key already, when
      it cannot be monitored; and when its group is awake. */
  predicate OpensAtOnce(m: Mgr, k: Key, w: Welcome) {
    || m.lazy.None? || !w.supported || ExcludedAt(m, k).Some?
    || (ManagedAt(m, k).None? && (!w.monitored || w.groupAwake))
  }

  /** The manager takes a new peer that it does not hold yet. */
  predicate Takes(m: Mgr, k: Key, w: Welcome) {
    m.lazy.Some? && w.supported && ExcludedAt(m, k).None? && ManagedAt(m, k).None? && w.monitored
  }

  /** Adding a peer, exactly. */
  lemma AddExactly(m: Mgr, k: Key, conn: Conn, w: Welcome, j: Key)
    ensures var (m', taken) := AddPeerConn(m, k, conn, w);
            && m' == Apply(m, AddStep(k, conn, w)) && taken == (k in m.store) && (taken ==> m' == m)
            && SameRest(m, m') && m.lazy.Some? == m'.lazy.Some? && (j != k ==> SameAt(m, m', j))
            && (!taken ==>
                  && At(m'.store, k) == Some(conn.(open := conn.open || OpensAtOnce(m, k, w)))
                  && ExcludedAt(m', k) == ExcludedAt(m, k)
                  && ManagedAt(m', k) ==
                     if Takes(m, k, w) then Some(Managed(conn.id, if w.groupAwake then Inactivity else Activity))
                     else ManagedAt(m, k))
  {
  }

  /** Removing a peer, exactly; its exclusion stays. */
  lemma RemoveExactly(m: Mgr, k: Key, j: Key)
    ensures var m' := Apply(m, RemoveStep(k));
            && (k !in m.store ==> m' == m) && (j != k ==> SameAt(m, m', j))
            && m'.enabledLocally == m.enabledLocally && m'.rosenpass == m.rosenpass && m.lazy.Some? == m'.lazy.Some?
            && (k in m.store ==>
                  && k !in m'.store && ManagedAt(m', k).None? && ExcludedAt(m', k) == ExcludedAt(m, k)
                  && m'.closed == m.closed + {m.store[k].id})
  {
  }

  // ---------- Waking and sleeping ----------

  /** A signal message or traffic, exactly: if the peer is asleep, it and the sleeping members of its
      groups wake up and open, and nobody else is concerned. */
  lemma WakeExactly(m: Mgr, k: Key, group: set<Key>, j: Key)
    ensures var m' := Apply(m, WakeStep(k, group));
            var woken := Asleep(m, k) && Asleep(m, j) && (j == k || j in group);
            && SameRest(m, m') && SameConnAt(m, m', j) && SameHolderAt(m, m', j) && ExcludedAt(m, j) == ExcludedAt(m', j)
            && m.lazy.Some? == m'.lazy.Some?
            && (Awake(m', j) <==> Awake(m, j) || woken)
            && (Open(m', j) <==> Open(m, j) || (woken && j in m.store))
  {
  }

  /** The remote side going idle, exactly: the peer goes to sleep if it is awake under its current
      connection, and nobody else is concerned. */
  lemma SleepExactly(m: Mgr, k: Key, j: Key)
    ensures var m' := Apply(m, SleepStep(k));
            var tired := j == k && Awake(m, k) && k in m.store && ManagedAt(m, k).value.connId == m.store[k].id;
            && SameRest(m, m') && SameConnAt(m, m', j) && SameHolderAt(m, m', j) && ExcludedAt(m, j) == ExcludedAt(m', j)
            && m.lazy.Some? == m'.lazy.Some?
            && (Awake(m', j) <==> Awake(m, j) && !tired)
            && (Open(m', j) <==> Open(m, j) && !tired)
  {
  }

  /** The manager's time-out, exactly: of the given peers those awake go to sleep. */
  lemma TimeOutExactly(m: Mgr, ks: set<Key>, j: Key)
    ensures var m' := Apply(m, TimeOutStep(ks));
            var tired := j in ks && Awake(m, j);
            && SameRest(m, m') && SameConnAt(m, m', j) && SameHolderAt(m, m', j) && ExcludedAt(m, j) == ExcludedAt(m', j)
            && m.lazy.Some? == m'.lazy.Some?
            && (Awake(m', j) <==> Awake(m, j) && !tired)
            && (Open(m', j) <==> Open(m, j) && !tired)
  {
  }

  // ---------- Modes ----------

  /** Setting the exclude list, exactly: the stored peers of the list are excluded under their current
      connection; those newly excluded are opened and no longer managed; those no longer excluded
      are managed as awake under the connection they were excluded with. */
  lemma ExcludeExactly(m: Mgr, ids: set<Key>, j: Key)
    ensures var m' := Apply(m, ExcludeStep(ids));
            var now := j in ids && j in m.store;
            var before := ExcludedAt(m, j);
            && SameRest(m, m') && SameConnAt(m, m', j) && m.lazy.Some? == m'.lazy.Some?
            && (m.lazy.None? ==> m' == m)
            && (m.lazy.Some? ==>
                  && ExcludedAt(m', j) == (if now then Some(m.store[j].id) else None)
                  && (Open(m', j) <==> Open(m, j) || (now && before.None?))
                  && ManagedAt(m', j) ==
                     if now && before.None? then None
                     else if ManagedAt(m, j).None? && before.Some? && !now then Some(Managed(before.value, Inactivity))
                     else ManagedAt(m, j))
  {
  }

  /** The remote flag and the start, exactly: without local enablement and rosenpass the flag turns the
      manager on over all stored peers as awake ones, or off with all of them opened; local
      enablement starts it empty. */
  lemma FlagExactly(m: Mgr, enabled: bool, j: Key)
    ensures var m' := Apply(m, FlagStep(enabled));
            var on := !m.enabledLocally && enabled && m.lazy.None? && !m.rosenpass;
            var off := !m.enabledLocally && !enabled && m.lazy.Some?;
            && SameRest(m, m') && SameConnAt(m, m', j)
            && (!on && !off ==> m' == m)
            && (on ==> m'.lazy.Some? && At(m'.store, j) == At(m.store, j) && ExcludedAt(m', j).None? &&
                       ManagedAt(m', j) == if j in m.store then Some(Managed(m.store[j].id, Inactivity)) else None)
            && (off ==> m'.lazy.None? && (j in m.store ==> Open(m', j)))
    ensures var m' := Apply(m, StartStep);
            var starts := m.lazy.None? && m.enabledLocally && !m.rosenpass;
            && SameRest(m, m') && m'.store == m.store
            && (!starts ==> m' == m)
            && (starts ==> m'.lazy.Some? && ManagedAt(m', j).None? && ExcludedAt(m', j).None?)
  {
  }

  /** Close, exactly: the lazy manager goes and nothing else. Every stored peer can still be reached
      exactly when each was open, so that whoever is asleep then stays closed. */
  lemma CloseExactly(m: Mgr)
    ensures var m' := Close(m);
            && SameRest(m, m') && m'.store == m.store && m'.lazy.None?
            && (Attended(m') <==> forall k :: k in m.store ==> Open(m, k))
  {
    if Attended(Close(m)) {
      forall k | k in m.store ensures Open(m, k) {
        assert Wakeable(Close(m), k);
      }
    }
  }
}
