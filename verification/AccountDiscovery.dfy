/** Account discovery: one reconciliation pass over the Redis store. */
module AccountDiscovery {
  import opened Basics
  import opened Sums
  import opened Assignments
  import opened StoreSpec
  import opened SortedStrings
  import RedisStore

  datatype Account = Account(id: string, weight: int)

  ghost predicate DistinctIds(accounts: seq<Account>) {
    forall i, j :: 0 <= i < j < |accounts| ==> accounts[i].id != accounts[j].id
  }

  /** Assigned, but to a backend that is no longer active. */
  predicate Stale(s: Store, id: string) {
    id in s.table && s.table[id].backend !in s.active
  }

  predicate Needy(s: Store, id: string) {
    id !in s.table || s.table[id].backend !in s.active
  }

  function Ids(accounts: seq<Account>): set<string> {
    set a | a in accounts :: a.id
  }

  function Unassigned(s: Store, accounts: seq<Account>): (u: seq<Account>)
    ensures forall a :: a in u <==> a in accounts && Needy(s, a.id)
  {
    if accounts == [] then [] else
      var u, last := Unassigned(s, accounts[..|accounts| - 1]), accounts[|accounts| - 1];
      if Needy(s, last.id) then u + [last] else u
  }

  function StaleKeys(s: Store, accounts: seq<Account>): (keys: seq<string>)
    ensures forall k :: k in keys <==> k in Ids(accounts) && Stale(s, k)
  {
    if accounts == [] then [] else
      var before, last := accounts[..|accounts| - 1], accounts[|accounts| - 1];
      assert accounts == before + [last];
      assert Ids(accounts) == Ids(before) + {last.id};
      if Stale(s, last.id) then StaleKeys(s, before) + [last.id] else StaleKeys(s, before)
  }

  /** The accounts to place are the needy ones; stale assignments belong to some of them. */
  lemma UnassignedIds(s: Store, accounts: seq<Account>)
    ensures Ids(Unassigned(s, accounts)) == set k | k in Ids(accounts) && Needy(s, k)
    ensures Elems(StaleKeys(s, accounts)) <= Ids(Unassigned(s, accounts))
    ensures forall k :: k in Ids(Unassigned(s, accounts)) && k in s.table ==> k in Elems(StaleKeys(s, accounts))
  {
    forall k | k in Ids(accounts) && Needy(s, k) ensures k in Ids(Unassigned(s, accounts)) {
      var a :| a in accounts && a.id == k;
      assert a in Unassigned(s, accounts);
    }
  }

  lemma {:induction false} FiltersDistinct(s: Store, accounts: seq<Account>)
    requires DistinctIds(accounts)
    ensures DistinctIds(Unassigned(s, accounts))
    ensures forall i, j :: 0 <= i < j < |StaleKeys(s, accounts)| ==>
            StaleKeys(s, accounts)[i] != StaleKeys(s, accounts)[j]
  {
    if accounts != [] {
      var before, last := accounts[..|accounts| - 1], accounts[|accounts| - 1];
      FiltersDistinct(s, before);
      forall a | a in before ensures a.id != last.id {
        var i :| 0 <= i < |before| && before[i] == a;
        assert accounts[i] == a;
      }
      forall a | a in Unassigned(s, before) ensures a.id != last.id {
        assert a in before;
      }
      forall k | k in StaleKeys(s, before) ensures k != last.id {
        assert k in Ids(before);
        var a :| a in before && a.id == k;
      }
    }
  }

  /** No later account has the same id. */
  ghost predicate LastOf(u: seq<Account>, i: nat)
    requires i < |u|
  {
    forall j :: i < j < |u| ==> u[j].id != u[i].id
  }

  /** Round-robin entries for the accounts to place; of an id listed twice the last one counts. */
  ghost predicate RoundRobin(u: seq<Account>, backends: seq<string>, entries: map<string, BulkAssignEntry>)
    requires backends != []
  {
    && entries.Keys == Ids(u)
    && (forall i :: 0 <= i < |u| && LastOf(u, i) ==>
          u[i].id in entries && entries[u[i].id] == BulkAssignEntry(backends[i % |backends|], u[i].weight))
  }

  lemma AllLast(u: seq<Account>)
    requires DistinctIds(u)
    ensures forall i :: 0 <= i < |u| ==> LastOf(u, i)
  {
  }

  lemma {:induction false} LastIndex(u: seq<Account>, k: string) returns (i: nat)
    requires k in Ids(u)
    ensures i < |u| && LastOf(u, i) && u[i].id == k
  {
    var before, last := u[..|u| - 1], u[|u| - 1];
    assert u == before + [last];
    if last.id == k {
      i := |before|;
    } else {
      i := LastIndex(before, k);
      assert forall j :: i < j < |before| ==> u[j] == before[j];
    }
  }

  lemma RoundRobinNext(u: seq<Account>, n: nat, backends: seq<string>, entries: map<string, BulkAssignEntry>)
    requires backends != [] && n < |u| && RoundRobin(u[..n], backends, entries)
    ensures RoundRobin(u[..n + 1], backends, entries[u[n].id := BulkAssignEntry(backends[n % |backends|], u[n].weight)])
  {
    hide LastOf, Ids;
    IdsNext(u, n);
    forall i | 0 <= i < n && LastOf(u[..n + 1], i) ensures LastOf(u[..n], i) && u[i].id != u[n].id {
      LastBefore(u, n, i);
    }
  }

  lemma IdsNext(u: seq<Account>, n: nat)
    requires n < |u|
    ensures Ids(u[..n + 1]) == Ids(u[..n]) + {u[n].id}
  {
    assert u[..n + 1] == u[..n] + [u[n]];
  }

  lemma LastBefore(u: seq<Account>, n: nat, i: nat)
    requires i < n < |u| && LastOf(u[..n + 1], i)
    ensures LastOf(u[..n], i) && u[i].id != u[n].id
  {
    assert u[..n + 1][n] == u[n];
    assert forall j :: i < j < n ==> u[..n + 1][j] == u[j];
  }

  /** One pass of reconcile, without interference. */
  ghost predicate Reconciled(s: Store, accounts: seq<Account>, now: int, s': Store) {
    if s.active == {} then s' == s
    else
      exists s1, backends, entries ::
        && Enumerates(backends, s.active) && backends != []
        && BulkDeleted(s, StaleKeys(s, accounts), s1)
        && RoundRobin(Unassigned(s, accounts), backends, entries)
        && BulkAssigned(s1, entries, now, s')
  }

  /** The loop that sorts accounts into stale and unassigned ones. */
  method Classify(s: Store, accounts: seq<Account>) returns (unassigned: seq<Account>, staleKeys: seq<string>)
    ensures unassigned == Unassigned(s, accounts) && staleKeys == StaleKeys(s, accounts)
  {
    unassigned, staleKeys := [], [];
    for i := 0 to |accounts|
      invariant unassigned == Unassigned(s, accounts[..i]) && staleKeys == StaleKeys(s, accounts[..i])
    {
      var acct := accounts[i];
      assert accounts[..i + 1][..|accounts[..i + 1]| - 1] == accounts[..i];
      if acct.id !in s.table {
        unassigned := unassigned + [acct];
      } else if s.table[acct.id].backend !in s.active {
        staleKeys := staleKeys + [acct.id];
        unassigned := unassigned + [acct];
      }
    }
    assert accounts[..|accounts|] == accounts;
  }

  method Spread(u: seq<Account>, backends: seq<string>) returns (entries: map<string, BulkAssignEntry>)
    requires backends != []
    ensures RoundRobin(u, backends, entries)
  {
    entries := map[];
    assert RoundRobin(u[..0], backends, entries);
    hide RoundRobin;
    for i := 0 to |u|
      invariant RoundRobin(u[..i], backends, entries)
    {
      RoundRobinNext(u, i, backends, entries);
      entries := entries[u[i].id := BulkAssignEntry(backends[i % |backends|], u[i].weight)];
    }
    assert u[..|u|] == u;
  }

  lemma ReconciledBy(s: Store, accounts: seq<Account>, now: int, s': Store, s1: Store, backends: seq<string>,
                     entries: map<string, BulkAssignEntry>)
    requires Enumerates(backends, s.active) && backends != []
    requires BulkDeleted(s, StaleKeys(s, accounts), s1)
    requires RoundRobin(Unassigned(s, accounts), backends, entries)
    requires BulkAssigned(s1, entries, now, s')
    ensures Reconciled(s, accounts, now, s')
  {
    hide BulkDeleted, RoundRobin, BulkAssigned;
    assert backends[0] in backends;
  }

  method Reconcile(store: RedisStore.RedisStore, accounts: seq<Account>, now: int)
    modifies store
    ensures Reconciled(old(store.State()), accounts, now, store.State())
  {
    var list := List(store.active);
    if |list| == 0 {
      assert forall b :: b in store.active ==> b in list;
      return;
    }
    var backends := Sort(list);
    SortEnumerates(list, store.active);
    hide Enumerates, RoundRobin, Reconciled, BulkAssigned, Unassigned, StaleKeys;
    var current := Store(store.assignments, store.counts, store.active);
    var unassigned, staleKeys := Classify(current, accounts);
    if |staleKeys| > 0 {
      store.BulkDeleteAssignments(staleKeys);
    } else {
      NothingDeleted(current);
    }
    ghost var s1 := store.State();
    var entries: map<string, BulkAssignEntry> := map[];
    if |unassigned| == 0 {
      NothingAssigned(s1, now);
      NothingSpread(backends);
    } else {
      entries := Spread(unassigned, backends);
      var placed := store.BulkAssign(entries, now);
    }
    ReconciledBy(current, accounts, now, store.State(), s1, backends, entries);
  }

  lemma NothingSpread(backends: seq<string>)
    requires backends != []
    ensures RoundRobin([], backends, map[])
  {
  }

  lemma NothingAssigned(s: Store, now: int)
    ensures BulkAssigned(s, map[], now, s)
  {
    hide Load;
    assert Won(s.table, map[], now) == map[];
    assert s.table + map[] == s.table;
    forall b ensures Load(View(map[]), b) == 0 {
      LoadEmpty(b);
      assert View(map[]) == map[];
    }
  }

  // -- What a pass achieves -------------------------------------------------------------------

  /** The accounts of `u` sit round-robin on `backends`; every other key is as in `t`. */
  ghost predicate PlacedOn(t: Table, u: seq<Account>, backends: seq<string>, t': Table)
    requires backends != []
  {
    && t'.Keys == t.Keys + Ids(u)
    && (forall k :: k in t && k !in Ids(u) ==> t'[k] == t[k])
    && (forall i :: 0 <= i < |u| && LastOf(u, i) ==>
          u[i].id in t' && View(t')[u[i].id] == Slot(backends[i % |backends|], Normal(u[i].weight)))
  }

  /** Delete the stale keys, then set the entries: all of them are absent by then. */
  lemma DeleteThenPlace(t: Table, stale: set<string>, u: seq<Account>, backends: seq<string>,
                        entries: map<string, BulkAssignEntry>, now: int, t': Table)
    requires backends != [] && RoundRobin(u, backends, entries)
    requires stale <= Ids(u) && forall k :: k in Ids(u) && k in t ==> k in stale
    requires t' == (t - stale) + Won(t - stale, entries, now)
    ensures PlacedOn(t, u, backends, t')
  {
    hide Won, Ids, View, LastOf;
    var t1 := t - stale;
    assert t'.Keys == t.Keys + Ids(u);
    forall i | 0 <= i < |u| && LastOf(u, i)
      ensures u[i].id in t' && View(t')[u[i].id] == Slot(backends[i % |backends|], Normal(u[i].weight))
    {
      SetEntry(t1, entries, now, u[i].id);
    }
  }

  lemma SetEntry(t: Table, entries: map<string, BulkAssignEntry>, now: int, k: string)
    requires k in entries && k !in t
    ensures k in t + Won(t, entries, now)
    ensures View(t + Won(t, entries, now))[k] == Slot(entries[k].backend, Normal(entries[k].weight))
  {
  }

  /** What a pass does to the table; the index keeps step if and only if no stale account is listed twice. */
  lemma ReconciledTable(s: Store, accounts: seq<Account>, now: int, s': Store)
    returns (backends: seq<string>)
    requires s.active != {} && Reconciled(s, accounts, now, s')
    ensures Enumerates(backends, s.active) && backends != [] && s'.active == s.active
    ensures PlacedOn(s.table, Unassigned(s, accounts), backends, s'.table)
    ensures SameDrift(s, s') <==> !Repeats(View(s.table), StaleKeys(s, accounts))
  {
    hide Drift, ReadWeight, Load, Enumerates, Unassigned, StaleKeys, RoundRobin, PlacedOn, Ids, Repeats, Won, View;
    var s1, entries;
    s1, backends, entries :|
      && Enumerates(backends, s.active) && backends != []
      && BulkDeleted(s, StaleKeys(s, accounts), s1)
      && RoundRobin(Unassigned(s, accounts), backends, entries)
      && BulkAssigned(s1, entries, now, s');
    BulkDeleteIndexIff(s, StaleKeys(s, accounts), s1);
    BulkAssignKeepsDrift(s1, entries, now, s');
    UnassignedIds(s, accounts);
    DeleteThenPlace(s.table, Elems(StaleKeys(s, accounts)), Unassigned(s, accounts), backends, entries, now, s'.table);
  }

  lemma StaleOnce(s: Store, accounts: seq<Account>)
    requires DistinctIds(accounts)
    ensures !Repeats(View(s.table), StaleKeys(s, accounts))
  {
    FiltersDistinct(s, accounts);
  }

  /** Whoever was placed sits on one of the backends. */
  lemma PlacedBackend(t: Table, u: seq<Account>, backends: seq<string>, t': Table, k: string)
    requires backends != [] && PlacedOn(t, u, backends, t') && k in Ids(u)
    ensures k in t' && t'[k].backend in backends
  {
    var i := LastIndex(u, k);
    assert View(t')[u[i].id].backend == backends[i % |backends|];
    assert backends[i % |backends|] in backends;
  }

  lemma PlacedOthers(t: Table, u: seq<Account>, backends: seq<string>, t': Table)
    requires backends != [] && PlacedOn(t, u, backends, t')
    ensures t'.Keys == t.Keys + Ids(u)
    ensures forall k :: k in t && k !in Ids(u) ==> k in t' && t'[k] == t[k]
  {
  }

  /** Every account ends on an active backend, and valid assignments and other keys are untouched. */
  lemma EveryAccountPlaced(s: Store, accounts: seq<Account>, now: int, s': Store)
    requires s.active != {} && Reconciled(s, accounts, now, s')
    ensures forall k :: k in Ids(accounts) ==> k in s'.table && s'.table[k].backend in s.active
    ensures forall k :: k in s.table && (s.table[k].backend in s.active || k !in Ids(accounts)) ==>
                        k in s'.table && s'.table[k] == s.table[k]
    ensures s'.table.Keys == s.table.Keys + Ids(accounts) && s'.active == s.active
    ensures SameDrift(s, s') <==> !Repeats(View(s.table), StaleKeys(s, accounts))
    ensures DistinctIds(accounts) ==> SameDrift(s, s')
  {
    hide Drift, Reconciled, Unassigned, StaleKeys, PlacedOn, Ids, DistinctIds, Repeats, View;
    if DistinctIds(accounts) {
      StaleOnce(s, accounts);
    }
    var backends := ReconciledTable(s, accounts, now, s');
    var u := Unassigned(s, accounts);
    UnassignedIds(s, accounts);
    PlacedOthers(s.table, u, backends, s'.table);
    forall k | k in Ids(u) ensures k in s'.table && s'.table[k].backend in s.active {
      PlacedBackend(s.table, u, backends, s'.table, k);
    }
  }

  lemma {:induction false} NobodyNeedy(s: Store, accounts: seq<Account>)
    requires forall a :: a in accounts ==> !Needy(s, a.id)
    ensures Unassigned(s, accounts) == [] && StaleKeys(s, accounts) == []
  {
    if accounts != [] {
      NobodyNeedy(s, accounts[..|accounts| - 1]);
    }
  }

  /** A second pass changes nothing. */
  lemma SecondPassIdle(s: Store, accounts: seq<Account>, now: int, s1: Store, later: int, s2: Store)
    requires Reconciled(s, accounts, now, s1) && Reconciled(s1, accounts, later, s2)
    ensures s2.table == s1.table && s2.active == s1.active && SameDrift(s1, s2)
  {
    if s.active != {} {
      hide Reconciled, Drift, Unassigned, StaleKeys;
      hide PlacedOn;
      EveryAccountPlaced(s, accounts, now, s1);
      var backends := ReconciledTable(s1, accounts, later, s2);
      forall a | a in accounts ensures !Needy(s1, a.id) {
        assert a.id in Ids(accounts);
      }
      NobodyNeedy(s1, accounts);
      NobodyPlaced(s1.table, backends, s2.table);
    } else {
      IdleWithoutBackends(s, accounts, now, s1);
      IdleWithoutBackends(s1, accounts, later, s2);
    }
  }

  lemma NobodyPlaced(t: Table, backends: seq<string>, t': Table)
    requires backends != [] && PlacedOn(t, [], backends, t')
    ensures t' == t
  {
    assert Ids([]) == {};
    assert t'.Keys == t.Keys;
  }

  lemma IdleWithoutBackends(s: Store, accounts: seq<Account>, now: int, s': Store)
    requires s.active == {} && Reconciled(s, accounts, now, s')
    ensures s' == s
  {
  }

  // -- Fairness of the round robin -----------------------------------------------------------------

  /** The accounts given to backend number `j`. */
  ghost function GivenTo(u: seq<Account>, n: nat, j: nat): set<string>
    requires n > 0
  {
    set i | 0 <= i < |u| && i % n == j :: u[i].id
  }

  lemma {:induction false} FairShare(u: seq<Account>, n: nat, j: nat)
    requires n > 0 && j < n && DistinctIds(u)
    ensures |GivenTo(u, n, j)| == |u| / n + if j < |u| % n then 1 else 0
  {
    if u == [] {
      assert GivenTo(u, n, j) == {};
      Quotient(0, n);
    } else {
      var before, last := u[..|u| - 1], u[|u| - 1];
      FairShare(before, n, j);
      Quotient(|before|, n);
      if |before| % n == j {
        assert GivenTo(u, n, j) == GivenTo(before, n, j) + {last.id};
        assert last.id !in GivenTo(before, n, j);
      } else {
        assert GivenTo(u, n, j) == GivenTo(before, n, j);
      }
    }
  }

  /** Each active backend receives floor or ceiling of k / n of the k newly placed accounts. */
  lemma RoundRobinIsFair(s: Store, accounts: seq<Account>, now: int, s': Store, b: string)
    requires DistinctIds(accounts) && s.active != {} && Reconciled(s, accounts, now, s') && b in s.active
    ensures var u, n := Unassigned(s, accounts), |s.active|;
            var given := set a | a in u && a.id in s'.table && s'.table[a.id].backend == b :: a.id;
            n > 0 && |u| / n <= |given| <= |u| / n + (if |u| % n == 0 then 0 else 1)
  {
    hide Drift, Reconciled, Repeats, StaleKeys, Unassigned, View, GivenTo, DistinctIds, Ids, LastOf;
    var backends := ReconciledTable(s, accounts, now, s');
    var u := Unassigned(s, accounts);
    FiltersDistinct(s, accounts);
    EnumerationSize(backends, s.active);
    var n := |backends|;
    assert b in backends;
    var j :| 0 <= j < n && backends[j] == b;
    StrictIsDistinct(backends);
    var given := set a | a in u && a.id in s'.table && s'.table[a.id].backend == b :: a.id;
    assert given == GivenTo(u, n, j) by {
      AllLast(u);
      GivenMatches(s'.table, u, backends, j, given);
    }
    FairShare(u, n, j);
  }

  lemma GivenMatches(t: Table, u: seq<Account>, backends: seq<string>, j: nat, given: set<string>)
    requires j < |backends| && Distinct(backends)
    requires forall i :: 0 <= i < |u| ==>
             u[i].id in t && View(t)[u[i].id] == Slot(backends[i % |backends|], Normal(u[i].weight))
    requires given == set a | a in u && a.id in t && t[a.id].backend == backends[j] :: a.id
    ensures given == GivenTo(u, |backends|, j)
  {
    var n := |backends|;
    forall k | k in given ensures k in GivenTo(u, n, j) {
      var a :| a in u && a.id == k && t[a.id].backend == backends[j];
      var i :| 0 <= i < |u| && u[i] == a;
      assert View(t)[u[i].id].backend == backends[i % n];
      assert i % n == j;
    }
    forall k | k in GivenTo(u, n, j) ensures k in given {
      var i :| 0 <= i < |u| && i % n == j && u[i].id == k;
      assert u[i] in u;
      assert View(t)[u[i].id].backend == backends[j];
    }
  }

  lemma EnumerationSize(s: seq<string>, elems: set<string>)
    requires Enumerates(s, elems)
    ensures |s| == |elems|
  {
    StrictIsDistinct(s);
    DistinctMultiset(s);
    assert (set x | x in s) == elems;
    assert |s| == |multiset(s)| == |multiset(elems)|;
  }
}
