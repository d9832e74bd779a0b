/** Rebalancer.rebalance over the Redis store, without interference: delete, then bulk assign. */
module Rebalancer {
  import opened Basics
  import opened Sums
  import opened Assignments
  import opened StoreSpec
  import opened SortedStrings
  import opened LeastLoadedPlan
  import opened LeastLoadedTheorems
  import LeastLoadedPlanner
  import HashPlacement
  import RedisStore

  datatype Strategy = LeastLoaded | ConsistentHash(hash: HashPlacement.Hash)

  /** Moves of distinct keys of the table. */
  ghost predicate MovesOf(p: Placement, moves: seq<Move>) {
    && (forall m :: m in moves ==> m.key in p)
    && (forall i, j :: 0 <= i < j < |moves| ==> moves[i].key != moves[j].key)
  }

  /** How many of the moves name no target. */
  function Unrouted(moves: seq<Move>): (n: nat)
    ensures n <= |moves|
  {
    if moves == [] then 0
    else Unrouted(moves[..|moves| - 1]) + if moves[|moves| - 1].to == "" then 1 else 0
  }

  /** A move without a target goes round-robin over the active backends. */
  function Destination(moves: seq<Move>, active: seq<string>, i: nat): string
    requires i < |moves| && active != []
  {
    if moves[i].to != "" then moves[i].to else active[Unrouted(moves[..i]) % |active|]
  }

  ghost function Routed(moves: seq<Move>, active: seq<string>): (r: seq<Move>)
    requires active != []
    ensures |r| == |moves|
    ensures forall i :: 0 <= i < |moves| ==> r[i] == moves[i].(to := Destination(moves, active, i))
  {
    seq(|moves|, i requires 0 <= i < |moves| => moves[i].(to := Destination(moves, active, i)))
  }

  lemma RoutedNamed(moves: seq<Move>, active: seq<string>)
    requires active != [] && forall m :: m in moves ==> m.to != ""
    ensures Routed(moves, active) == moves
  {
    forall i | 0 <= i < |moves| ensures Routed(moves, active)[i] == moves[i] {
      assert moves[i] in moves;
    }
  }

  /** The bulk-assign entry of move `i`, with the weight the table holds for its key. */
  function EntryOf(t: Table, moves: seq<Move>, active: seq<string>, i: nat): BulkAssignEntry
    requires i < |moves| && active != [] && moves[i].key in t
  {
    BulkAssignEntry(Destination(moves, active, i), t[moves[i].key].weight)
  }

  /** `entries` holds the entries of the moves whose index satisfies the respective bound. */
  ghost predicate Holds(t: Table, moves: seq<Move>, active: seq<string>, entries: map<string, BulkAssignEntry>, n: nat,
                        u: nat)
    requires active != [] && n <= |moves| && forall m :: m in moves ==> m.key in t
  {
    && (forall i :: 0 <= i < n && (moves[i].to != "" || Unrouted(moves[..i]) < u) ==>
          moves[i].key in entries && entries[moves[i].key] == EntryOf(t, moves, active, i))
    && (forall k :: k in entries ==> k in KeysOf(moves[..n]))
  }

  lemma {:induction false} UnroutedMonotone(moves: seq<Move>, i: nat, j: nat)
    requires i < j <= |moves|
    ensures Unrouted(moves[..i]) + (if moves[i].to == "" then 1 else 0) <= Unrouted(moves[..j])
  {
    if i + 1 == j {
      assert moves[..j][..|moves[..j]| - 1] == moves[..i];
    } else {
      UnroutedMonotone(moves, i, j - 1);
      assert moves[..j][..|moves[..j]| - 1] == moves[..j - 1];
    }
  }

  lemma UnroutedStrict(moves: seq<Move>)
    ensures forall i, j :: 0 <= i < j < |moves| && moves[i].to == "" ==> Unrouted(moves[..i]) < Unrouted(moves[..j])
  {
    forall i, j | 0 <= i < j < |moves| && moves[i].to == "" ensures Unrouted(moves[..i]) < Unrouted(moves[..j]) {
      UnroutedMonotone(moves, i, j);
    }
  }

  /** The moves without a target whose turn is backend number `j` of `n`. */
  ghost function Turns(moves: seq<Move>, n: nat, j: nat): set<int>
    requires n > 0
  {
    set i | 0 <= i < |moves| && moves[i].to == "" && IsTurn(Unrouted(moves[..i]), n, j)
  }

  predicate IsTurn(u: nat, n: nat, j: nat)
    requires n > 0
  {
    u % n == j
  }

  lemma TurnsNext(moves: seq<Move>, n: nat, j: nat)
    requires n > 0 && moves != []
    ensures var before, last := moves[..|moves| - 1], moves[|moves| - 1];
            && |Turns(moves, n, j)| == |Turns(before, n, j)| +
                 (if last.to == "" && IsTurn(Unrouted(before), n, j) then 1 else 0)
            && Unrouted(moves) == Unrouted(before) + if last.to == "" then 1 else 0
  {
    hide IsTurn;
    var last: int := |moves| - 1;
    var before := moves[..last];
    assert forall i :: 0 <= i < last ==> before[..i] == moves[..i];
    assert Turns(moves, n, j) ==
      Turns(before, n, j) + if moves[last].to == "" && IsTurn(Unrouted(before), n, j) then {last} else {};
  }

  /** How many of `u` turns fall to number `j` of `n`. */
  function Share(u: nat, n: nat, j: nat): nat
    requires n > 0
  {
    u / n + if j < u % n then 1 else 0
  }

  lemma ShareNext(u: nat, n: nat, j: nat)
    requires n > 0 && j < n
    ensures Share(0, n, j) == 0 && Share(u + 1, n, j) == Share(u, n, j) + if IsTurn(u, n, j) then 1 else 0
  {
    Quotient(u, n);
  }

  lemma {:induction false} TurnsShared(moves: seq<Move>, n: nat, j: nat)
    requires n > 0 && j < n
    ensures |Turns(moves, n, j)| == Share(Unrouted(moves), n, j)
  {
    hide Share, IsTurn;
    if moves == [] {
      assert Turns(moves, n, j) == {};
      ShareNext(0, n, j);
    } else {
      hide Turns, Unrouted;
      var before := moves[..|moves| - 1];
      TurnsNext(moves, n, j);
      TurnsShared(before, n, j);
      ShareNext(Unrouted(before), n, j);
    }
  }

  /** Each active backend receives floor or ceiling of u / n of the u moves without a target. */
  lemma UnroutedFair(moves: seq<Move>, active: seq<string>, j: nat)
    requires j < |active| && Distinct(active)
    ensures |set i | 0 <= i < |moves| && moves[i].to == "" && Destination(moves, active, i) == active[j]|
            == Unrouted(moves) / |active| + if j < Unrouted(moves) % |active| then 1 else 0
  {
    TurnsShared(moves, |active|, j);
    var given := set i | 0 <= i < |moves| && moves[i].to == "" && Destination(moves, active, i) == active[j];
    assert given == Turns(moves, |active|, j);
  }

  /** The keys without a target, in plan order. */
  ghost predicate Waiting(moves: seq<Move>, unrouted: seq<string>, n: nat)
    requires n <= |moves|
  {
    && |unrouted| == Unrouted(moves[..n])
    && forall i :: 0 <= i < n && moves[i].to == "" ==>
      Unrouted(moves[..i]) < |unrouted| && unrouted[Unrouted(moves[..i])] == moves[i].key
  }

  lemma PrefixNext(moves: seq<Move>, n: nat)
    requires n < |moves|
    ensures KeysOf(moves[..n + 1]) == KeysOf(moves[..n]) + {moves[n].key}
    ensures Unrouted(moves[..n + 1]) == Unrouted(moves[..n]) + if moves[n].to == "" then 1 else 0
  {
    assert moves[..n + 1][..|moves[..n + 1]| - 1] == moves[..n];
    assert moves[..n + 1] == moves[..n] + [moves[n]];
  }

  lemma NextHeld(t: Table, moves: seq<Move>, active: seq<string>, entries: map<string, BulkAssignEntry>, n: nat)
    requires active != [] && n < |moves| && MovesOf(View(t), moves)
    requires Holds(t, moves, active, entries, n, 0)
    ensures Holds(t, moves, active, if moves[n].to == "" then entries
            else entries[moves[n].key := EntryOf(t, moves, active, n)], n + 1, 0)
  {
    hide Unrouted, EntryOf;
    PrefixNext(moves, n);
  }

  lemma NextUnheld(moves: seq<Move>, unrouted: seq<string>, n: nat)
    requires n < |moves| && Waiting(moves, unrouted, n)
    ensures Waiting(moves, if moves[n].to == "" then unrouted + [moves[n].key] else unrouted, n + 1)
  {
    hide Unrouted;
    PrefixNext(moves, n);
  }

  lemma NextWaiting(t: Table, moves: seq<Move>, active: seq<string>, entries: map<string, BulkAssignEntry>,
                    unrouted: seq<string>, u: nat)
    returns (i: nat)
    requires active != [] && MovesOf(View(t), moves)
    requires Holds(t, moves, active, entries, |moves|, u) && Waiting(moves, unrouted, |moves|) && u < |unrouted|
    ensures i < |moves| && moves[i].to == "" && Unrouted(moves[..i]) == u && unrouted[u] == moves[i].key
    ensures Holds(t, moves, active, entries[moves[i].key := EntryOf(t, moves, active, i)], |moves|, u + 1)
  {
    hide EntryOf, Unrouted, Holds;
    i := FindUnrouted(moves, |moves|, u);
    UnroutedStrict(moves);
    HoldsOneMore(t, moves, active, entries, i, u);
  }

  lemma HoldsOneMore(t: Table, moves: seq<Move>, active: seq<string>, entries: map<string, BulkAssignEntry>, i: nat,
                     u: nat)
    requires active != [] && MovesOf(View(t), moves) && Holds(t, moves, active, entries, |moves|, u)
    requires i < |moves| && moves[i].to == "" && Unrouted(moves[..i]) == u
    requires forall j, k :: 0 <= j < k < |moves| && moves[j].to == "" ==> Unrouted(moves[..j]) < Unrouted(moves[..k])
    ensures Holds(t, moves, active, entries[moves[i].key := EntryOf(t, moves, active, i)], |moves|, u + 1)
  {
    hide EntryOf, Unrouted;
    assert moves[..|moves|] == moves;
    assert moves[i] in moves && moves[i].key in KeysOf(moves);
    forall j | 0 <= j < |moves| && j != i ensures moves[j].key != moves[i].key {
    }
  }

  lemma {:induction false} FindUnrouted(moves: seq<Move>, n: nat, u: nat) returns (i: nat)
    requires n <= |moves| && u < Unrouted(moves[..n])
    ensures i < n && moves[i].to == "" && Unrouted(moves[..i]) == u
  {
    assert moves[..n][..|moves[..n]| - 1] == moves[..n - 1];
    if u < Unrouted(moves[..n - 1]) {
      i := FindUnrouted(moves, n - 1, u);
    } else {
      i := n - 1;
    }
  }

  /** Step 3 of the rebalance: new assignments with preserved weights. */
  method NewAssignments(t: Table, moves: seq<Move>, active: seq<string>) returns (entries: map<string, BulkAssignEntry>)
    requires active != [] && MovesOf(View(t), moves)
    ensures entries.Keys == KeysOf(moves)
    ensures forall i :: 0 <= i < |moves| ==>
            moves[i].key in entries && entries[moves[i].key] == EntryOf(t, moves, active, i)
  {
    hide Destination;
    entries := map[];
    var unrouted: seq<string> := [];
    assert Holds(t, moves, active, entries, 0, 0) && Waiting(moves, unrouted, 0);
    hide Holds, Waiting, Unrouted, KeysOf;
    for n := 0 to |moves|
      invariant Holds(t, moves, active, entries, n, 0)
      invariant Waiting(moves, unrouted, n)
    {
      var m := moves[n];
      NextHeld(t, moves, active, entries, n);
      NextUnheld(moves, unrouted, n);
      if m.to != "" {
        TargetNamed(moves, active, n);
        entries := entries[m.key := BulkAssignEntry(m.to, t[m.key].weight)];
      } else {
        unrouted := unrouted + [m.key];
      }
    }
    for u := 0 to |unrouted|
      invariant Holds(t, moves, active, entries, |moves|, u)
    {
      var key := unrouted[u];
      ghost var i := NextWaiting(t, moves, active, entries, unrouted, u);
      TargetWaiting(moves, active, i);
      entries := entries[key := BulkAssignEntry(active[u % |active|], t[key].weight)];
    }
    AllHeld(t, moves, active, entries, unrouted);
  }

  lemma TargetNamed(moves: seq<Move>, active: seq<string>, i: nat)
    requires i < |moves| && active != [] && moves[i].to != ""
    ensures Destination(moves, active, i) == moves[i].to
  {
  }

  lemma TargetWaiting(moves: seq<Move>, active: seq<string>, i: nat)
    requires i < |moves| && active != [] && moves[i].to == ""
    ensures Destination(moves, active, i) == active[Unrouted(moves[..i]) % |active|]
  {
  }

  lemma AllHeld(t: Table, moves: seq<Move>, active: seq<string>, entries: map<string, BulkAssignEntry>,
                unrouted: seq<string>)
    requires active != [] && MovesOf(View(t), moves)
    requires Holds(t, moves, active, entries, |moves|, |unrouted|) && Waiting(moves, unrouted, |moves|)
    ensures entries.Keys == KeysOf(moves)
    ensures forall i :: 0 <= i < |moves| ==>
            moves[i].key in entries && entries[moves[i].key] == EntryOf(t, moves, active, i)
  {
    hide EntryOf, Unrouted;
    assert moves[..|moves|] == moves;
  }

  ghost predicate Entries(t: Table, moves: seq<Move>, active: seq<string>, entries: map<string, BulkAssignEntry>)
    requires active != [] && MovesOf(View(t), moves)
  {
    && entries.Keys == KeysOf(moves)
    && forall i :: 0 <= i < |moves| ==> moves[i].key in entries && entries[moves[i].key] == EntryOf(t, moves, active, i)
  }

  /** The table between the delete and the assign, and after. */
  ghost predicate Reassigns(t: Table, moves: seq<Move>, entries: map<string, BulkAssignEntry>, now: int, t2: Table) {
    var t1 := t - KeysOf(moves);
    t2 == t1 + Won(t1, entries, now)
  }

  lemma ReassignView(t: Table, moves: seq<Move>, active: seq<string>, entries: map<string, BulkAssignEntry>, now: int,
                     t2: Table)
    requires active != [] && MovesOf(View(t), moves) && Entries(t, moves, active, entries)
    requires Reassigns(t, moves, entries, now, t2)
    ensures View(t2) == Apply(View(t), Routed(moves, active))
  {
    hide Destination, Apply, Entries, Routed, KeysOf, MovesOf, Reassigns, View;
    var p, r := View(t), Routed(moves, active);
    RoutedMoves(p, moves, active);
    RoutedApplied(p, r);
    EntriesKeys(t, moves, active, entries);
    UntouchedKeys(t, moves, entries, now, t2);
    forall k | k in p ensures View(t2)[k] == Apply(p, r)[k] {
      if k in KeysOf(moves) {
        ReassignedKey(t, moves, active, entries, now, t2, k);
      }
    }
  }

  lemma RoutedApplied(p: Placement, r: seq<Move>)
    requires MovesOf(p, r)
    ensures forall m :: m in r ==> m.key in p && Apply(p, r)[m.key] == p[m.key].(backend := m.to)
    ensures forall k :: k in p && k !in KeysOf(r) ==> Apply(p, r)[k] == p[k]
  {
    hide Apply;
    HashPlacement.ApplyDistinct(p, r);
    UnmovedKept(p, r);
  }

  lemma UntouchedKeys(t: Table, moves: seq<Move>, entries: map<string, BulkAssignEntry>, now: int, t2: Table)
    requires entries.Keys == KeysOf(moves) <= t.Keys && Reassigns(t, moves, entries, now, t2)
    ensures t2.Keys == t.Keys
    ensures forall k :: k in t && k !in KeysOf(moves) ==> View(t2)[k] == View(t)[k]
  {
    hide KeysOf;
  }

  lemma EntriesKeys(t: Table, moves: seq<Move>, active: seq<string>, entries: map<string, BulkAssignEntry>)
    requires active != [] && MovesOf(View(t), moves) && Entries(t, moves, active, entries)
    ensures entries.Keys == KeysOf(moves) <= t.Keys
  {
  }

  lemma ReassignedKey(t: Table, moves: seq<Move>, active: seq<string>, entries: map<string, BulkAssignEntry>, now: int,
                      t2: Table, k: string)
    requires active != [] && MovesOf(View(t), moves) && Entries(t, moves, active, entries)
    requires Reassigns(t, moves, entries, now, t2) && k in KeysOf(moves)
    ensures k in t2
    ensures exists m :: m in Routed(moves, active) && m.key == k && View(t2)[k] == View(t)[k].(backend := m.to)
  {
    hide Destination;
    var m :| m in moves && m.key == k;
    var i :| 0 <= i < |moves| && moves[i] == m;
    assert Routed(moves, active)[i] in Routed(moves, active);
    assert entries[k] == EntryOf(t, moves, active, i);
  }

  /** Delete-then-assign moves the keys to their targets and leaves everything else, including every weight. */
  lemma DeleteThenAssign(s: Store, moves: seq<Move>, active: seq<string>, keys: seq<string>,
                         entries: map<string, BulkAssignEntry>, now: int, s1: Store, s2: Store)
    requires active != [] && MovesOf(View(s.table), moves) && Entries(s.table, moves, active, entries)
    requires |keys| == |moves| && forall i :: 0 <= i < |keys| ==> keys[i] == moves[i].key
    requires BulkDeleted(s, keys, s1) && BulkAssigned(s1, entries, now, s2)
    ensures View(s2.table) == Apply(View(s.table), Routed(moves, active))
    ensures SameDrift(s, s2) && s2.active == s.active
  {
    hide Drift, ReadWeight, Apply, Entries, Routed, View, Won;
    BulkDeleteIndexIff(s, keys, s1);
    BulkAssignKeepsDrift(s1, entries, now, s2);
    KeysMatch(moves, keys);
    ReassignView(s.table, moves, active, entries, now, s2.table);
  }

  lemma KeysMatch(moves: seq<Move>, keys: seq<string>)
    requires |keys| == |moves| && forall i :: 0 <= i < |keys| ==> keys[i] == moves[i].key
    ensures Elems(keys) == KeysOf(moves)
  {
    forall k | k in KeysOf(moves) ensures k in keys {
      var m :| m in moves && m.key == k;
      var i :| 0 <= i < |moves| && moves[i] == m;
      assert keys[i] == k;
    }
    forall k | k in keys ensures k in KeysOf(moves) {
      var i :| 0 <= i < |keys| && keys[i] == k;
      assert moves[i] in moves;
    }
  }

  lemma RoutedMoves(p: Placement, moves: seq<Move>, active: seq<string>)
    requires active != [] && MovesOf(p, moves)
    ensures MovesOf(p, Routed(moves, active)) && KeysOf(Routed(moves, active)) == KeysOf(moves)
  {
    hide Destination;
    var r := Routed(moves, active);
    forall m | m in r ensures m.key in p && m.key in KeysOf(moves) {
      var i :| 0 <= i < |r| && r[i] == m;
      assert moves[i] in moves;
    }
    forall k | k in KeysOf(moves) ensures k in KeysOf(r) {
      var m :| m in moves && m.key == k;
      var i :| 0 <= i < |moves| && moves[i] == m;
      assert r[i] in r;
    }
  }

  ghost predicate PlannedBy(strategy: Strategy, p: Placement, active: seq<string>, moves: seq<Move>)
    requires active != []
  {
    match strategy
    case LeastLoaded => IsPlan(p, active, moves)
    case ConsistentHash(hash) => HashPlacement.IsHashPlan(p, active, hash, moves)
  }

  lemma PlannedMoves(strategy: Strategy, p: Placement, active: seq<string>, moves: seq<Move>)
    requires active != [] && PlannedBy(strategy, p, active, moves)
    ensures MovesOf(p, moves)
    ensures strategy.LeastLoaded? ==> forall m :: m in moves ==> m.to != ""
  {
    hide Load, Stays;
    if strategy.LeastLoaded? {
      MovesOnce(p, active, Ideal(p, active), moves);
      NamedTargets(p, active, Ideal(p, active), moves);
      forall m | m in moves ensures m.key in p {
        assert Relocates(p, active, Apply(p, moves), m);
      }
    }
  }

  lemma {:induction false} NamedTargets(p: Placement, active: seq<string>, ideal: nat, moves: seq<Move>)
    requires Steps(p, active, ideal, moves)
    ensures forall m :: m in moves ==> m.to != ""
  {
    hide Load, IsTarget;
    if moves != [] {
      var before := moves[..|moves| - 1];
      NamedTargets(p, active, ideal, before);
      assert moves == before + [moves[|moves| - 1]];
    }
  }

  method ComputeMoves(strategy: Strategy, t: Table, active: seq<string>)
    returns (moves: seq<Move>, planned: map<string, int>)
    ensures active == [] ==> moves == []
    ensures active != [] ==> PlannedBy(strategy, View(t), active, moves)
    ensures active != [] && strategy.LeastLoaded? ==>
              LeastLoadedPlanner.Knows(planned, View(t), active)
                && LeastLoadedPlanner.Shadow(planned, Apply(View(t), moves))
  {
    match strategy
    case LeastLoaded =>
      moves, planned := LeastLoadedPlanner.ComputeMoves(t, active);
    case ConsistentHash(hash) =>
      moves := HashPlacement.ComputeMoves(t, active, hash);
      planned := map[];
  }

  /** Every deleted key is absent when the assign reaches it, so every entry is written. */
  lemma PlacedEverywhere(t: Table, moves: seq<Move>, entries: map<string, BulkAssignEntry>, now: int, t2: Table)
    requires entries.Keys == KeysOf(moves) && Reassigns(t, moves, entries, now, t2)
    ensures var placed := RedisStore.Owners(Won(t - KeysOf(moves), entries, now));
            placed.Keys == KeysOf(moves) && forall k :: k in placed ==> k in t2 && placed[k] == t2[k].backend
  {
    hide KeysOf;
  }

  /** Steps 2 and 3 of the rebalance: delete the moved keys, then assign them. */
  method ApplyMoves(store: RedisStore.RedisStore, moves: seq<Move>, active: seq<string>, now: int)
    returns (placed: map<string, string>)
    requires active != [] && MovesOf(View(store.assignments), moves)
    modifies store
    ensures View(store.assignments) == Apply(View(old(store.assignments)), Routed(moves, active))
    ensures SameDrift(old(store.State()), store.State()) && store.active == old(store.active)
    ensures placed.Keys == KeysOf(moves)
    ensures forall k :: k in placed ==> k in store.assignments && placed[k] == store.assignments[k].backend
  {
    hide Drift, ReadWeight, Apply, Routed, View, Won, Destination, KeysOf, Elems, RedisStore.Owners;
    var assignments := store.assignments;
    ghost var s := store.State();
    var routingKeys := seq(|moves|, i requires 0 <= i < |moves| => moves[i].key);
    store.BulkDeleteAssignments(routingKeys);
    ghost var s1 := store.State();
    var entries := NewAssignments(assignments, moves, active);
    placed := store.BulkAssign(entries, now);
    DeleteThenAssign(s, moves, active, routingKeys, entries, now, s1, store.State());
    KeysMatch(moves, routingKeys);
    PlacedEverywhere(assignments, moves, entries, now, store.assignments);
  }

  /** rebalance, inside the transition lock. Hooks, caches and connections are outside this model. */
  method Rebalance(store: RedisStore.RedisStore, strategy: Strategy, activeBackends: seq<string>, now: int)
    returns (moves: seq<Move>, planned: map<string, int>, placed: map<string, string>)
    modifies store
    ensures activeBackends == [] ==> moves == [] && store.State() == old(store.State())
    ensures activeBackends != [] ==> PlannedBy(strategy, View(old(store.assignments)), Sort(activeBackends), moves)
    ensures activeBackends != [] ==>
            View(store.assignments) == Apply(View(old(store.assignments)), Routed(moves, Sort(activeBackends)))
    ensures activeBackends != [] && strategy.LeastLoaded? ==>
            View(store.assignments) == Apply(View(old(store.assignments)), moves)
    ensures SameDrift(old(store.State()), store.State()) && store.active == old(store.active)
    ensures activeBackends != [] && strategy.LeastLoaded? && old(Indexed(store.State())) ==>
              LeastLoadedPlanner.Knows(planned, View(old(store.assignments)), Sort(activeBackends))
              && forall b :: b in planned ==> Count(store.counts, b) == planned[b]
    ensures placed.Keys == KeysOf(moves)
    ensures forall k :: k in placed ==> k in store.assignments && placed[k] == store.assignments[k].backend
  {
    hide Load, IsPlan, HashPlacement.IsHashPlan, Destination;
    var active := Sort(activeBackends);
    var assignments := store.assignments;
    ghost var p := View(store.assignments);
    moves, planned := ComputeMoves(strategy, assignments, active);
    placed := map[];
    if moves == [] {
      assert active != [] ==> Routed(moves, active) == [] && Apply(p, []) == p;
      CountsArePlanned(store.State(), p, planned);
      return;
    }
    PlannedMoves(strategy, p, active, moves);
    placed := ApplyMoves(store, moves, active, now);
    if strategy.LeastLoaded? {
      RoutedNamed(moves, active);
      CountsArePlanned(store.State(), Apply(p, moves), planned);
    }
  }

  /** When the index is exact, the counts are the planner's shadow map. */
  lemma CountsArePlanned(s: Store, q: Placement, planned: map<string, int>)
    ensures Indexed(s) && View(s.table) == q && LeastLoadedPlanner.Shadow(planned, q) ==>
              forall b :: b in planned ==> Count(s.counts, b) == planned[b]
  {
    hide Load;
    if Indexed(s) && View(s.table) == q && LeastLoadedPlanner.Shadow(planned, q) {
      forall b | b in planned ensures Count(s.counts, b) == planned[b] {
        assert Drift(s, b) == 0;
      }
    }
  }
}
