/** The drain of a backend over the Redis store, without interference. */
module DrainManager {
  import opened Basics
  import opened Assignments
  import opened StoreSpec
  import RedisStore

  /** drain, inside the transition lock: delete the backend's users, then take it out of the active set. */
  method Drain(store: RedisStore.RedisStore, backend: string, scan: seq<string>) returns (users: seq<string>)
    requires Elems(scan) == store.assignments.Keys
    modifies store
    ensures Elems(users) == set k | k in old(store.assignments) && old(store.assignments)[k].backend == backend
    ensures store.assignments == map k | k in old(store.assignments) && old(store.assignments)[k].backend != backend ::
            old(store.assignments)[k]
    ensures store.active == old(store.active) - {backend}
    ensures SameDrift(old(store.State()), store.State()) <==>
            !RedisStore.ListedTwice(old(store.assignments), scan, backend)
  {
    hide Repeats, Load, ReadWeight, RedisStore.ListedTwice;
    ghost var s := store.State();
    users := store.GetBackendUsers(backend, scan);
    if |users| > 0 {
      store.BulkDeleteAssignments(users);
    } else {
      NothingDeleted(s);
    }
    ghost var s1 := store.State();
    BulkDeleteIndexIff(s, users, s1);
    DrainedTable(s.table, backend, users);
    store.RemoveBackend(backend);
    DriftIgnoresActive(s, s1, store.State());
  }

  lemma DrainedTable(t: Table, backend: string, users: seq<string>)
    requires Elems(users) == set k | k in t && t[k].backend == backend
    ensures t - Elems(users) == map k | k in t && t[k].backend != backend :: t[k]
  {
  }

  lemma DriftIgnoresActive(s: Store, s1: Store, s2: Store)
    requires s2.table == s1.table && s2.counts == s1.counts
    ensures SameDrift(s, s1) <==> SameDrift(s, s2)
  {
    hide Load;
    assert forall b :: Drift(s2, b) == Drift(s1, b);
  }
}
