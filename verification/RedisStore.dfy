/** The Redis assignment store: the Lua script and the bulk pipelines, each without interference. */
module RedisStore {
  import opened Basics
  import opened Assignments
  import opened StoreSpec

  /** One HSETNX of a bulk pipeline and its reply. */
  datatype Item = Item(key: string, backend: string, weight: nat, done: bool)

  /** The assignments that the pipeline's positive replies stand for. */
  ghost function WonBy(items: seq<Item>, now: int): (t: Table)
    ensures forall k :: k in t ==> exists i :: 0 <= i < |items| && items[i].key == k
  {
    if items == [] then map[] else
      var last, t := items[|items| - 1], WonBy(items[..|items| - 1], now);
      if last.done then t[last.key := Assignment(last.backend, now, "assignment", last.weight)] else t
  }

  lemma WonByNext(items: seq<Item>, item: Item, now: int)
    ensures WonBy(items + [item], now) ==
            if item.done then WonBy(items, now)[item.key := Assignment(item.backend, now, "assignment", item.weight)]
            else WonBy(items, now)
  {
    assert (items + [item])[..|items|] == items;
  }

  /** One item per key, none of them still to come, each with a normalised weight. */
  ghost predicate Sent(items: seq<Item>, todo: set<string>) {
    && (forall i, j :: 0 <= i < j < |items| ==> items[i].key != items[j].key)
    && (forall i :: 0 <= i < |items| ==> items[i].key !in todo && items[i].weight >= 1)
  }

  lemma SentNext(items: seq<Item>, todo: set<string>, item: Item)
    requires Sent(items, todo) && item.key in todo && item.weight >= 1
    ensures Sent(items + [item], todo - {item.key})
  {
  }

  function Owners(t: Table): map<string, string> {
    map k | k in t :: t[k].backend
  }

  /** One more HSETNX: it takes effect exactly when the key was absent from the start. */
  lemma WonStep(t: Table, entries: map<string, BulkAssignEntry>, todo: set<string>, key: string, now: int)
    requires key in todo && todo <= entries.Keys
    ensures var won, next := Won(t, entries - todo, now), Won(t, entries - (todo - {key}), now);
            && (key in t + won <==> key in t)
            && next == (if key in t then won else won[key := Entry(entries[key], now)])
            && t + next == if key in t then t + won else (t + won)[key := Entry(entries[key], now)]
  {
    MinusStep(entries, todo, key);
  }

  lemma MinusStep<V>(m: map<string, V>, todo: set<string>, key: string)
    requires key in todo && todo <= m.Keys
    ensures m - (todo - {key}) == (m - todo)[key := m[key]]
  {
  }

  /** Phase 2 of the bulk assign: aggregate the weight set per backend. */
  method Aggregate(items: seq<Item>, ghost now: int) returns (placed: map<string, string>, delta: Counts)
    requires Sent(items, {})
    ensures placed == Owners(WonBy(items, now))
    ensures forall b :: Count(delta, b) == Load(View(WonBy(items, now)), b)
  {
    placed, delta := map[], map[];
    ghost var won: Table := map[];
    EmptyIndexed();
    hide Drift, WonBy;
    assert won == WonBy(items[..0], now) by { WonByNone(now); }
    for i := 0 to |items|
      invariant won == WonBy(items[..i], now)
      invariant placed == Owners(won)
      invariant Indexed(Store(won, delta, {}))
    {
      var p := items[i];
      assert items[..i + 1] == items[..i] + [p];
      WonByNext(items[..i], p, now);
      if p.done {
        ghost var a := Assignment(p.backend, now, "assignment", p.weight);
        InsertKeepsDrift(Store(won, delta, {}), p.key, a);
        won := won[p.key := a];
        placed := placed[p.key := p.backend];
        delta := IncrBy(delta, p.backend, p.weight);
      }
    }
    assert items[..|items|] == items;
    IndexedMeans(Store(won, delta, {}));
  }

  lemma WonByNone(now: int)
    ensures WonBy([], now) == map[]
  {
  }

  /** The scanned keys that are on the backend, as often as they were scanned. */
  function UsersOn(t: Table, scan: seq<string>, backend: string): (users: seq<string>)
    ensures forall k :: k in users <==> k in scan && k in t && t[k].backend == backend
  {
    if scan == [] then [] else
      var users, k := UsersOn(t, scan[..|scan| - 1], backend), scan[|scan| - 1];
      if k in t && t[k].backend == backend then users + [k] else users
  }

  /** Two positions of the scan report the same key of the backend. */
  ghost predicate ListedTwice(t: Table, scan: seq<string>, backend: string) {
    exists i, j :: 0 <= i < j < |scan| && scan[i] == scan[j] && scan[i] in t && t[scan[i]].backend == backend
  }

  lemma UsersOnElems(t: Table, scan: seq<string>, backend: string)
    requires Elems(scan) == t.Keys
    ensures Elems(UsersOn(t, scan, backend)) == set k | k in t && t[k].backend == backend
  {
    assert forall k :: k in t ==> k in Elems(scan);
  }

  lemma ListedTwiceGrow(t: Table, scan: seq<string>, backend: string)
    requires scan != []
    ensures var before, k := scan[..|scan| - 1], scan[|scan| - 1];
            ListedTwice(t, scan, backend) <==>
            ListedTwice(t, before, backend) || (k in before && k in t && t[k].backend == backend)
  {
    var before, k := scan[..|scan| - 1], scan[|scan| - 1];
    if i, j :| 0 <= i < j < |scan| && scan[i] == scan[j] && scan[i] in t && t[scan[i]].backend == backend {
      assert before[i] == scan[i];
      assert j < |before| ==> before[j] == scan[j];
    }
    if i, j :| 0 <= i < j < |before| && before[i] == before[j] && before[i] in t && t[before[i]].backend == backend {
      assert scan[i] == scan[j];
    }
    if i :| 0 <= i < |before| && before[i] == k && k in t && t[k].backend == backend {
      assert scan[i] == scan[|scan| - 1];
    }
  }

  /** A user is listed twice if and only if the scan reported it twice. */
  lemma {:induction false} UsersOnRepeats(t: Table, scan: seq<string>, backend: string)
    ensures Repeats(View(t), UsersOn(t, scan, backend)) <==> ListedTwice(t, scan, backend)
  {
    if scan != [] {
      hide Repeats, ListedTwice;
      var before, k := scan[..|scan| - 1], scan[|scan| - 1];
      UsersOnRepeats(t, before, backend);
      ListedTwiceGrow(t, scan, backend);
      var users, all := UsersOn(t, before, backend), UsersOn(t, scan, backend);
      if k in t && t[k].backend == backend {
        RepeatsGrow(View(t), all);
        assert all[..|all| - 1] == users;
      }
    }
  }

  class RedisStore {
    var assignments: Table
    var counts: Counts
    var active: set<string>

    constructor ()
      ensures State() == Store(map[], map[], {})
    {
      assignments, counts, active := map[], map[], {};
    }

    ghost function State(): Store
      reads this
    {
      Store(assignments, counts, active)
    }

    /** assign.lua. SMEMBERS returns the active backends in some order. */
    method AssignViaTable(key: string, now: int) returns (r: Option<Assignment>)
      modifies this
      ensures LuaAssigned(old(State()), key, now, State(), r)
    {
      if key in assignments {
        var data := assignments[key];
        if data.backend in active {
          return Some(data);
        }
        assignments := assignments - {key};
        counts := IncrBy(counts, data.backend, 0 - EffectiveWeight(data));
      }
      assert State() == Remove(old(State()), key);
      if active == {} {
        return None;
      }
      var selected := LeastCounted();
      var value := Assignment(selected, now, "assignment", 1);
      assignments := assignments[key := value];
      counts := IncrBy(counts, selected, 1);
      r := Some(value);
    }

    /** The scan of the counts hash over the active backends. */
    method LeastCounted() returns (selected: string)
      requires active != {}
      ensures selected in active
      ensures forall b :: b in active ==> Count(counts, selected) <= Count(counts, b)
    {
      selected :| selected in active;
      var minCount: Option<int> := None;
      var todo := active;
      while todo != {}
        invariant todo <= active && selected in active
        invariant minCount.None? ==> todo == active
        invariant minCount.Some? ==> minCount.value == Count(counts, selected)
        invariant minCount.Some? ==> forall b :: b in active - todo ==> minCount.value <= Count(counts, b)
      {
        var b :| b in todo;
        todo := todo - {b};
        var c := Count(counts, b);
        if minCount.None? || c < minCount.value {
          minCount := Some(c);
          selected := b;
        }
      }
    }

    method DeleteAssignment(key: string) returns (found: bool)
      modifies this
      ensures found == (key in old(assignments))
      ensures State() == Remove(old(State()), key)
    {
      if key !in assignments {
        return false;
      }
      var a := assignments[key];
      assignments := assignments - {key};
      counts := IncrBy(counts, a.backend, 0 - EffectiveWeight(a));
      found := true;
    }

    /** Phase 1 of the bulk assign: HSETNX, in some order. */
    method SetAbsent(entries: map<string, BulkAssignEntry>, now: int) returns (items: seq<Item>)
      modifies this`assignments
      ensures assignments == old(assignments) + Won(old(assignments), entries, now)
      ensures Sent(items, {})
      ensures WonBy(items, now) == Won(old(assignments), entries, now)
    {
      items := [];
      var todo := entries.Keys;
      ghost var before := assignments;
      assert entries - todo == map[] && Won(before, map[], now) == map[] && before + map[] == before;
      WonByNone(now);
      assert Sent(items, todo);
      hide WonBy, Won, Sent;
      while todo != {}
        invariant todo <= entries.Keys
        invariant assignments == before + Won(before, entries - todo, now)
        invariant WonBy(items, now) == Won(before, entries - todo, now)
        invariant Sent(items, todo)
      {
        var key :| key in todo;
        var entry := entries[key];
        var item := Item(key, entry.backend, Normal(entry.weight), key !in assignments);
        WonByNext(items, item, now);
        SentNext(items, todo, item);
        WonStep(before, entries, todo, key, now);
        if key !in assignments {
          assignments := assignments[key := Entry(entry, now)];
        }
        todo := todo - {key};
        items := items + [item];
      }
      assert entries - todo == entries;
    }

    /** Phase 3: one HINCRBY per backend, in some order. */
    method AddCounts(delta: Counts)
      modifies this`counts
      ensures forall b :: Count(counts, b) == old(Count(counts, b)) + Count(delta, b)
    {
      var todo := delta.Keys;
      while todo != {}
        invariant todo <= delta.Keys
        invariant forall b :: Count(counts, b) == old(Count(counts, b)) + if b in todo then 0 else Count(delta, b)
      {
        var b :| b in todo;
        todo := todo - {b};
        counts := IncrBy(counts, b, delta[b]);
      }
    }

    method BulkAssign(entries: map<string, BulkAssignEntry>, now: int) returns (placed: map<string, string>)
      modifies this
      ensures BulkAssigned(old(State()), entries, now, State())
      ensures placed == Owners(Won(old(assignments), entries, now))
      ensures SetIfAbsent(old(assignments), entries, now, assignments)
    {
      WonIsSet(assignments, entries, now);
      hide SetIfAbsent;
      var items := SetAbsent(entries, now);
      var delta: Counts;
      placed, delta := Aggregate(items, now);
      AddCounts(delta);
    }

    /** Recomputes the counts from the table, whatever they were. */
    method ReconcileAssignmentCounts()
      modifies this`counts
      ensures Indexed(State())
    {
      var sums: Counts := map[];
      var todo := assignments.Keys;
      EmptyIndexed();
      assert assignments - todo == map[];
      hide Drift;
      while todo != {}
        invariant todo <= assignments.Keys
        invariant Indexed(Store(assignments - todo, sums, {}))
      {
        var key :| key in todo;
        var a := assignments[key];
        MinusStep(assignments, todo, key);
        InsertKeepsDrift(Store(assignments - todo, sums, {}), key, a);
        todo := todo - {key};
        sums := IncrBy(sums, a.backend, EffectiveWeight(a));
      }
      assert assignments - todo == assignments;
      counts := map[];
      AddCounts(sums);
      SameCounts(Store(assignments, sums, {}), State());
    }

    method BulkDeleteAssignments(keys: seq<string>)
      modifies this
      ensures BulkDeleted(old(State()), keys, State())
    {
      // Phase 1: read every listed key.
      ghost var p := View(assignments);
      var sums: Counts := map[];
      var toDelete: seq<string> := [];
      for i := 0 to |keys|
        invariant forall b :: Count(sums, b) == ReadWeight(p, keys[..i], b)
        invariant forall k :: k in toDelete <==> k in keys[..i] && k in assignments
      {
        var key := keys[i];
        assert keys[..i + 1] == keys[..i] + [key];
        assert keys[..i + 1][..i] == keys[..i];
        if key in assignments {
          var a := assignments[key];
          toDelete := toDelete + [key];
          sums := IncrBy(sums, a.backend, EffectiveWeight(a));
        }
      }
      assert keys[..|keys|] == keys;
      if toDelete == [] {
        NothingRead(p, keys);
        assert assignments - Elems(keys) == assignments;
        return;
      }
      // Phase 2: delete, then decrement.
      assignments := assignments - Elems(toDelete);
      assert assignments == old(assignments) - Elems(keys);
      var delta: Counts := map b | b in sums :: -sums[b];
      AddCounts(delta);
    }

    /** HSCAN reports every field of the hash at least once, possibly more often. */
    method GetBackendUsers(backend: string, scan: seq<string>) returns (users: seq<string>)
      requires Elems(scan) == assignments.Keys
      ensures Elems(users) == set k | k in assignments && assignments[k].backend == backend
      ensures Repeats(View(assignments), users) <==> ListedTwice(assignments, scan, backend)
    {
      users := [];
      for n := 0 to |scan|
        invariant users == UsersOn(assignments, scan[..n], backend)
      {
        assert scan[n] in Elems(scan);
        assert scan[..n + 1][..|scan[..n + 1]| - 1] == scan[..n];
        if assignments[scan[n]].backend == backend {
          users := users + [scan[n]];
        }
      }
      assert scan[..|scan|] == scan;
      UsersOnElems(assignments, scan, backend);
      UsersOnRepeats(assignments, scan, backend);
    }

    method AddBackend(backend: string)
      modifies this`active
      ensures active == old(active) + {backend}
    {
      active := active + {backend};
    }

    method RemoveBackend(backend: string)
      modifies this`active
      ensures active == old(active) - {backend}
    {
      active := active - {backend};
    }
  }

  lemma SameCounts(s: Store, s': Store)
    requires Indexed(s) && s'.table == s.table && forall b :: Count(s'.counts, b) == Count(s.counts, b)
    ensures Indexed(s')
  {
    hide Load;
    forall b ensures Drift(s', b) == 0 {
      assert Drift(s, b) == 0;
    }
  }

  lemma {:induction false} NothingRead(p: Placement, keys: seq<string>)
    requires forall k :: k in keys ==> k !in p
    ensures forall b :: ReadWeight(p, keys, b) == 0
  {
    if keys != [] {
      NothingRead(p, keys[..|keys| - 1]);
    }
  }
}
