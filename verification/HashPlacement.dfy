/** Hash routing: the memory store's sorted list, assignViaHash and the consistent-hash plan. */
module HashPlacement {
  import opened Basics
  import opened Assignments
  import opened StoreSpec
  import opened SortedStrings
  import opened LeastLoadedPlan
  import opened LeastLoadedTheorems

  const RANGE := 0x1_0000_0000

  type Checksum = n: int | 0 <= n < RANGE

  /** Stands for the 32-bit checksum of a routing key. */
  type Hash = string -> Checksum

  /** Position `i` of the sorted list has `i` backends before it. */
  lemma SortedRank(backends: seq<string>, i: nat)
    requires i < |backends|
    ensures |Sort(backends)| == |backends| && Sort(backends)[i] in backends
    ensures Distinct(backends) ==> Rank(backends, Sort(backends)[i]) == i
  {
    hide Before, Sort, Rank;
    var sorted := Sort(backends);
    SortSorts(backends);
    SameElements(sorted, backends);
    assert |sorted| == |multiset(sorted)| == |backends|;
    if Distinct(backends) {
      SortEnumerates(backends, Elems(backends));
      RankIsPosition(sorted, i);
      SameRank(sorted, backends, sorted[i]);
    }
  }

  /** assignViaHash: index the sorted backend list by the hash. */
  function AssignViaHash(backends: seq<string>, hash: Hash, key: string): (r: Option<string>)
    ensures r.None? <==> backends == []
    ensures r.Some? ==> r.value in backends
    ensures r.Some? && Distinct(backends) ==> Rank(backends, r.value) == hash(key) % |backends|
  {
    if backends == [] then None else
      SortedRank(backends, hash(key) % |backends|);
      Some(Sort(backends)[hash(key) % |backends|])
  }

  /** Routing depends on the backend list only up to order. */
  lemma RoutingOrderFree(s: seq<string>, t: seq<string>, hash: Hash, key: string)
    requires multiset(s) == multiset(t)
    ensures AssignViaHash(s, hash, key) == AssignViaHash(t, hash, key)
  {
    SortOrderFree(s, t);
    assert |Sort(s)| == |s| && |Sort(t)| == |t|;
  }

  lemma SameRank(s: seq<string>, t: seq<string>, r: string)
    requires forall x :: x in s <==> x in t
    ensures Rank(s, r) == Rank(t, r)
  {
    assert (set b | b in s && Before(b, r)) == set b | b in t && Before(b, r);
  }

  /** Exactly the hashes with its rank as remainder lead to a backend, so every backend is reached by some hash. */
  lemma RoutedIff(backends: seq<string>, hash: Hash, key: string, b: string)
    requires Distinct(backends) && b in backends
    ensures AssignViaHash(backends, hash, key) == Some(b) <==> hash(key) % |backends| == Rank(backends, b)
    ensures Rank(backends, b) < |backends|
  {
    hide AssignViaHash, Rank;
    if Rank(backends, b) == hash(key) % |backends| {
      RankUnique(backends, b, AssignViaHash(backends, hash, key).value);
    }
    RankBelow(backends, b);
  }

  lemma RankBelow(backends: seq<string>, b: string)
    requires b in backends
    ensures Rank(backends, b) < |backends|
  {
    BeforeIrreflexive(b);
    var lower := set c | c in backends && Before(c, b);
    assert b !in lower && lower < Elems(backends);
    SmallerSet(lower, Elems(backends));
    ElemsSize(backends);
  }

  lemma {:induction false} ElemsSize(s: seq<string>)
    ensures |Elems(s)| <= |s|
  {
    if s != [] {
      ElemsSize(s[..|s| - 1]);
      assert Elems(s) == Elems(s[..|s| - 1]) + {s[|s| - 1]};
    }
  }

  class MemoryStore {
    var backends: set<string>
    var sorted: seq<string>

    ghost predicate Valid()
      reads this
    {
      Enumerates(sorted, backends)
    }

    constructor ()
      ensures Valid() && backends == {}
    {
      backends, sorted := {}, [];
    }

    /** Collects the set in some order and sorts it. */
    method RebuildSorted()
      modifies this`sorted
      ensures Valid()
    {
      var list := List(backends);
      sorted := Sort(list);
      SortEnumerates(list, backends);
    }

    method AddBackend(backend: string)
      requires Valid()
      modifies this
      ensures Valid() && backends == old(backends) + {backend}
    {
      if backend in backends {
        return;
      }
      backends := backends + {backend};
      RebuildSorted();
    }

    method RemoveBackend(backend: string)
      requires Valid()
      modifies this
      ensures Valid() && backends == old(backends) - {backend}
    {
      backends := backends - {backend};
      RebuildSorted();
    }

    method ActiveBackends() returns (out: seq<string>)
      requires Valid()
      ensures Enumerates(out, backends)
    {
      out := sorted;
    }
  }

  /** Two replicas that agree on the backend set route every key alike, whatever their histories of adds and removes. */
  lemma ReplicasAgree(one: MemoryStore, other: MemoryStore, hash: Hash, key: string)
    requires one.Valid() && other.Valid() && one.backends == other.backends
    ensures one.sorted == other.sorted
    ensures AssignViaHash(one.sorted, hash, key) == AssignViaHash(other.sorted, hash, key)
  {
    EnumerationUnique(one.sorted, other.sorted, one.backends);
  }

  // -- The consistent-hash plan ----------------------------------------------------------

  /** The backend the plan wants for a key. */
  function Target(active: seq<string>, hash: Hash, key: string): string
    requires active != []
  {
    AssignViaHash(active, hash, key).value
  }

  /** Exactly the misplaced keys move, each once, from where they are to where they hash. */
  ghost predicate IsHashPlan(p: Placement, active: seq<string>, hash: Hash, moves: seq<Move>)
    requires active != []
  {
    && (forall m :: m in moves ==> m.key in p && p[m.key].backend != Target(active, hash, m.key)
                                   && m == Move(m.key, p[m.key].backend, Target(active, hash, m.key)))
    && (forall k :: k in p && p[k].backend != Target(active, hash, k) ==> k in KeysOf(moves))
    && (forall i, j :: 0 <= i < j < |moves| ==> moves[i].key != moves[j].key)
  }

  /** ConsistentHashStrategy.ComputeMoves. */
  method ComputeMoves(t: Table, active: seq<string>, hash: Hash) returns (moves: seq<Move>)
    ensures active == [] ==> moves == []
    ensures active != [] ==> IsHashPlan(View(t), active, hash, moves)
  {
    moves := [];
    if active == [] {
      return;
    }
    var sorted := Sort(active);
    var todo := t.Keys;
    ghost var done: Placement := map[];
    while todo != {}
      invariant todo <= t.Keys
      invariant done == View(t) - todo
      invariant IsHashPlan(done, active, hash, moves)
    {
      var user :| user in todo;
      todo := todo - {user};
      var target := sorted[hash(user) % |sorted|];
      assert target == Target(active, hash, user);
      var m := Move(user, t[user].backend, target);
      HashPlanPut(done, active, hash, moves, user, View(t)[user], m);
      done := done[user := View(t)[user]];
      assert done == View(t) - todo;
      if target != t[user].backend {
        moves := moves + [m];
      }
    }
    assert done == View(t);
  }

  lemma HashPlanPut(p: Placement, active: seq<string>, hash: Hash, moves: seq<Move>, k: string, s: Slot, m: Move)
    requires active != [] && IsHashPlan(p, active, hash, moves) && k !in p
    requires m == Move(k, s.backend, Target(active, hash, k))
    ensures s.backend == Target(active, hash, k) ==> IsHashPlan(p[k := s], active, hash, moves)
    ensures s.backend != Target(active, hash, k) ==> IsHashPlan(p[k := s], active, hash, moves + [m])
  {
    hide AssignViaHash;
    assert KeysOf(moves + [m]) == KeysOf(moves) + {k};
    forall i | 0 <= i < |moves| ensures moves[i].key != k {
      assert moves[i] in moves;
    }
  }

  /** What applying any list of moves with distinct keys does. */
  lemma {:induction false} ApplyDistinct(p: Placement, moves: seq<Move>)
    requires forall m :: m in moves ==> m.key in p
    requires forall i, j :: 0 <= i < j < |moves| ==> moves[i].key != moves[j].key
    ensures forall m :: m in moves ==> Apply(p, moves)[m.key] == p[m.key].(backend := m.to)
  {
    if moves != [] {
      var before, last := moves[..|moves| - 1], moves[|moves| - 1];
      assert moves == before + [last];
      ApplyDistinct(p, before);
      forall i | 0 <= i < |before| ensures before[i].key != last.key {
        assert moves[i] == before[i];
      }
      assert last.key !in KeysOf(before);
      UnmovedKept(p, before);
    }
  }

  /** Applying a consistent-hash plan puts every user where assignViaHash would. */
  lemma HashPlanPlaces(p: Placement, active: seq<string>, hash: Hash, moves: seq<Move>, k: string)
    requires active != [] && IsHashPlan(p, active, hash, moves) && k in p
    ensures Apply(p, moves)[k] == p[k].(backend := Target(active, hash, k))
  {
    hide AssignViaHash;
    ApplyDistinct(p, moves);
    UnmovedKept(p, moves);
    if k in KeysOf(moves) {
      var m :| m in moves && m.key == k;
    }
  }

  /**
   * A plan moves exactly the users whose backend has the wrong rank for their hash, to the backend of the right rank.
   */
  lemma HashPlanRanks(p: Placement, active: seq<string>, hash: Hash, moves: seq<Move>)
    requires active != [] && Distinct(active) && IsHashPlan(p, active, hash, moves)
    ensures forall m :: m in moves ==> m.to in active && Rank(active, m.to) == hash(m.key) % |active|
    ensures forall k :: k in p ==>
            (k in KeysOf(moves) <==> !(p[k].backend in active && Rank(active, p[k].backend) == hash(k) % |active|))
  {
    hide AssignViaHash, Rank;
    forall m | m in moves ensures m.to in active && Rank(active, m.to) == hash(m.key) % |active| {
      TargetRank(active, hash, m.key, m.to);
    }
    forall k | k in p
      ensures k in KeysOf(moves) <==> !(p[k].backend in active && Rank(active, p[k].backend) == hash(k) % |active|)
    {
      TargetRank(active, hash, k, p[k].backend);
      if k in KeysOf(moves) {
        var m :| m in moves && m.key == k;
      }
    }
  }

  lemma TargetRank(active: seq<string>, hash: Hash, key: string, b: string)
    requires active != [] && Distinct(active)
    ensures b == Target(active, hash, key) <==> b in active && Rank(active, b) == hash(key) % |active|
  {
    hide AssignViaHash, Rank;
    TargetIn(active, hash, key);
    if b in active {
      RoutedIff(active, hash, key, b);
    }
  }

  lemma TargetIn(active: seq<string>, hash: Hash, key: string)
    requires active != []
    ensures AssignViaHash(active, hash, key) == Some(Target(active, hash, key)) && Target(active, hash, key) in active
  {
  }

  /** Replanning is empty, and two plans for the same table agree whatever the order of table and backends. */
  lemma HashReplanEmpty(p: Placement, active: seq<string>, reordered: seq<string>, hash: Hash, moves: seq<Move>,
                        again: seq<Move>)
    requires active != [] && IsHashPlan(p, active, hash, moves)
    requires multiset(reordered) == multiset(active) && reordered != []
    requires IsHashPlan(Apply(p, moves), reordered, hash, again)
    ensures again == []
  {
    if again != [] {
      var m := again[0];
      RoutingOrderFree(active, reordered, hash, m.key);
      HashPlanPlaces(p, active, hash, moves, m.key);
    }
  }

  lemma HashPlanOrderFree(p: Placement, active: seq<string>, reordered: seq<string>, hash: Hash, moves: seq<Move>,
                          others: seq<Move>)
    requires active != [] && reordered != [] && multiset(reordered) == multiset(active)
    requires IsHashPlan(p, active, hash, moves) && IsHashPlan(p, reordered, hash, others)
    ensures forall m :: m in moves <==> m in others
  {
    forall k ensures Target(active, hash, k) == Target(reordered, hash, k) {
      RoutingOrderFree(active, reordered, hash, k);
    }
    HashPlanWithin(p, active, hash, moves, others);
    HashPlanWithin(p, active, hash, others, moves);
  }

  lemma HashPlanWithin(p: Placement, active: seq<string>, hash: Hash, moves: seq<Move>, others: seq<Move>)
    requires active != [] && IsHashPlan(p, active, hash, moves) && IsHashPlan(p, active, hash, others)
    ensures forall m :: m in moves ==> m in others
  {
    hide AssignViaHash;
    forall m | m in moves ensures m in others {
      assert m.key in KeysOf(others);
      var o :| o in others && o.key == m.key;
    }
  }
}
