/** What the assignment stores do to the table and to the per-backend weight index. */
module StoreSpec {
  import opened Basics
  import opened Assignments

  type Counts = map<string, int>

  /** A missing hash field reads as zero. */
  function Count(c: Counts, b: string): int {
    if b in c then c[b] else 0
  }

  function IncrBy(c: Counts, b: string, n: int): Counts {
    c[b := Count(c, b) + n]
  }

  /** Redis: the `assignments` hash, the `assignment:counts` hash and the `backends:active` set. */
  datatype Store = Store(table: Table, counts: Counts, active: set<string>)

  /** How far the index lags behind the weight in the table. */
  ghost function Drift(s: Store, b: string): int {
    Load(View(s.table), b) - Count(s.counts, b)
  }

  ghost predicate SameDrift(s: Store, s': Store) {
    forall b :: Drift(s', b) == Drift(s, b)
  }

  /** The index agrees with summing the table. */
  ghost predicate Indexed(s: Store) {
    forall b :: Drift(s, b) == 0
  }

  /** HDEL of one key with its count decrement. */
  function Remove(s: Store, key: string): Store {
    if key in s.table then
      var a := s.table[key];
      s.(table := s.table - {key}, counts := IncrBy(s.counts, a.backend, 0 - EffectiveWeight(a)))
    else s
  }

  /** HSET of an absent key with its count increment. */
  function Insert(s: Store, key: string, a: Assignment): Store {
    s.(table := s.table[key := a], counts := IncrBy(s.counts, a.backend, EffectiveWeight(a)))
  }

  /** assign.lua, as one atomic step. */
  ghost predicate LuaAssigned(s: Store, key: string, now: int, s': Store, r: Option<Assignment>) {
    if key in s.table && s.table[key].backend in s.active then
      s' == s && r == Some(s.table[key])
    else
      var d := Remove(s, key);
      if s.active == {} then
        s' == d && r == None
      else
        && r.Some?
        && r.value == Assignment(r.value.backend, now, "assignment", 1)
        && r.value.backend in s.active
        && (forall b :: b in s.active ==> Count(d.counts, r.value.backend) <= Count(d.counts, b))
        && s' == Insert(d, key, r.value)
  }

  /** The entry HSETNX writes: a weight of zero or less becomes one. */
  function Entry(e: BulkAssignEntry, now: int): Assignment {
    Assignment(e.backend, now, "assignment", Normal(e.weight))
  }

  /** The entries that set-if-absent lets through. */
  function Won(t: Table, entries: map<string, BulkAssignEntry>, now: int): (w: Table)
    ensures w.Keys == entries.Keys - t.Keys
  {
    map k | k in entries && k !in t :: Entry(entries[k], now)
  }

  /** Every entry is in the table: as it was if its key was there, else new, with a weight of at least one. */
  ghost predicate SetIfAbsent(t: Table, entries: map<string, BulkAssignEntry>, now: int, t': Table) {
    && t'.Keys == t.Keys + entries.Keys
    && (forall k :: k in t ==> t'[k] == t[k])
    && (forall k :: k in entries && k !in t ==>
          t'[k] == Assignment(entries[k].backend, now, "assignment",
                              if entries[k].weight >= 1 then entries[k].weight else 1))
  }

  lemma WonIsSet(t: Table, entries: map<string, BulkAssignEntry>, now: int)
    ensures SetIfAbsent(t, entries, now, t + Won(t, entries, now))
  {
  }

  /** Weight read per backend by a bulk delete: a key listed twice is read twice. */
  ghost function ReadWeight(p: Placement, keys: seq<string>, b: string): nat {
    if keys == [] then 0 else
      var k := keys[|keys| - 1];
      ReadWeight(p, keys[..|keys| - 1], b) + if k in p && p[k].backend == b then p[k].weight else 0
  }

  // -- How the loads change --------------------------------------------------------

  lemma ViewPut(t: Table, key: string, a: Assignment)
    ensures View(t[key := a]) == View(t)[key := Slot(a.backend, EffectiveWeight(a))]
  {
  }

  lemma ViewMinus(t: Table, keys: set<string>)
    ensures View(t - keys) == View(t) - keys
  {
  }

  lemma ViewUnion(t: Table, u: Table)
    ensures View(t + u) == View(t) + View(u)
  {
  }

  lemma RemoveKeepsDrift(s: Store, key: string)
    ensures SameDrift(s, Remove(s, key))
  {
    hide Load;
    if key in s.table {
      LoadRemove(View(s.table), key);
      ViewMinus(s.table, {key});
    }
  }

  lemma InsertKeepsDrift(s: Store, key: string, a: Assignment)
    requires key !in s.table
    ensures SameDrift(s, Insert(s, key, a))
  {
    hide Load;
    ViewPut(s.table, key, a);
    LoadPut(View(s.table), key, Slot(a.backend, EffectiveWeight(a)));
  }

  lemma {:induction false} LoadUnion(p: Placement, q: Placement, b: string)
    requires p.Keys !! q.Keys
    ensures Load(p + q, b) == Load(p, b) + Load(q, b)
    decreases q.Keys
  {
    hide Load;
    if q == map[] {
      LoadEmpty(b);
      assert p + q == p;
    } else {
      var k :| k in q;
      var rest := q - {k};
      assert rest.Keys == q.Keys - {k};
      LoadUnion(p, rest, b);
      LoadRemove(q, k);
      LoadRemove(p + q, k);
      assert p + q - {k} == p + rest;
    }
  }

  lemma SameTableDrift(s: Store, s': Store)
    requires s'.table == s.table && s'.counts == s.counts
    ensures SameDrift(s, s')
  {
  }

  lemma EmptyIndexed()
    ensures Indexed(Store(map[], map[], {}))
  {
    hide Load;
    forall b ensures Drift(Store(map[], map[], {}), b) == 0 {
      LoadEmpty(b);
      assert View(map[]) == map[];
    }
  }

  lemma IndexedMeans(s: Store)
    requires Indexed(s)
    ensures forall b :: Count(s.counts, b) == Load(View(s.table), b)
  {
    hide Load;
    forall b ensures Count(s.counts, b) == Load(View(s.table), b) {
      assert Drift(s, b) == 0;
    }
  }

  // -- Deleting a list of keys -------------------------------------------------------

  ghost function Removed(p: Placement, keys: seq<string>, b: string): int {
    Load(p, b) - Load(p - Elems(keys), b)
  }

  /** A key that is in the table and listed at two places. */
  ghost predicate Repeats(p: Placement, keys: seq<string>) {
    exists i, j :: 0 <= i < j < |keys| && keys[i] == keys[j] && keys[i] in p
  }

  lemma RemovedStep(p: Placement, keys: seq<string>, b: string)
    requires keys != []
    ensures var k, before := keys[|keys| - 1], keys[..|keys| - 1];
            Removed(p, keys, b) == Removed(p, before, b) + if k in p && k !in before && p[k].backend == b
              then p[k].weight else 0
  {
    hide Load;
    var k, before := keys[|keys| - 1], keys[..|keys| - 1];
    assert keys == before + [k];
    var left := p - Elems(before);
    assert p - Elems(keys) == left - {k};
    if k in left {
      LoadRemove(left, k);
    } else {
      assert left - {k} == left;
    }
  }

  /** What is read is at least what is removed, and exactly that when no present key is listed twice. */
  lemma {:induction false} ReadVersusRemoved(p: Placement, keys: seq<string>, b: string)
    ensures ReadWeight(p, keys, b) >= Removed(p, keys, b)
    ensures !Repeats(p, keys) ==> ReadWeight(p, keys, b) == Removed(p, keys, b)
  {
    hide Load;
    if keys == [] {
      assert p - Elems(keys) == p;
    } else {
      var k, before := keys[|keys| - 1], keys[..|keys| - 1];
      ReadVersusRemoved(p, before, b);
      RemovedStep(p, keys, b);
      hide Removed;
      RepeatsGrow(p, keys);
    }
  }

  /** How a repetition comes about. */
  lemma RepeatsGrow(p: Placement, keys: seq<string>)
    requires keys != []
    ensures var k, before := keys[|keys| - 1], keys[..|keys| - 1];
            Repeats(p, keys) <==> Repeats(p, before) || (k in p && k in before)
  {
    var k, before := keys[|keys| - 1], keys[..|keys| - 1];
    if i, j :| 0 <= i < j < |before| && before[i] == before[j] && before[i] in p {
      assert keys[i] == keys[j];
    }
    if i :| 0 <= i < |before| && before[i] == k && k in p {
      assert keys[i] == keys[|keys| - 1];
    }
    if i, j :| 0 <= i < j < |keys| && keys[i] == keys[j] && keys[i] in p {
      assert before[i] == keys[i];
      assert j < |before| ==> before[j] == keys[j];
    }
  }

  lemma {:induction false} RepeatsOverRead(p: Placement, keys: seq<string>) returns (b: string)
    requires Repeats(p, keys) && Weighed(p)
    ensures ReadWeight(p, keys, b) > Removed(p, keys, b)
  {
    hide Load;
    var k, before := keys[|keys| - 1], keys[..|keys| - 1];
    RepeatsGrow(p, keys);
    if Repeats(p, before) {
      b := RepeatsOverRead(p, before);
    } else {
      b := p[k].backend;
      ReadVersusRemoved(p, before, b);
    }
    RemovedStep(p, keys, b);
  }

  /** A bulk delete whose keys are read and deleted without interference. */
  ghost predicate BulkDeleted(s: Store, keys: seq<string>, s': Store) {
    && s'.table == s.table - Elems(keys)
    && s'.active == s.active
    && forall b :: Count(s'.counts, b) == Count(s.counts, b) - ReadWeight(View(s.table), keys, b)
  }

  lemma NothingDeleted(s: Store)
    ensures BulkDeleted(s, [], s)
  {
    assert s.table - Elems([]) == s.table;
  }

  /** A bulk delete keeps the index in step if and only if no key it finds is listed twice. */
  lemma BulkDeleteIndexIff(s: Store, keys: seq<string>, s': Store)
    requires BulkDeleted(s, keys, s')
    ensures SameDrift(s, s') <==> !Repeats(View(s.table), keys)
  {
    hide Load, Repeats;
    var p := View(s.table);
    ViewMinus(s.table, Elems(keys));
    if Repeats(p, keys) {
      var b := RepeatsOverRead(p, keys);
      assert Drift(s', b) != Drift(s, b);
    } else {
      forall b ensures Drift(s', b) == Drift(s, b) {
        ReadVersusRemoved(p, keys, b);
      }
    }
  }

  /** Listing a present key twice subtracts its weight twice. */
  lemma RepeatedKeyDrifts(s: Store, k: string) returns (s': Store)
    requires k in s.table
    ensures BulkDeleted(s, [k, k], s') && !SameDrift(s, s')
  {
    hide Load;
    var a, p := s.table[k], View(s.table);
    var w: int := EffectiveWeight(a);
    s' := Store(s.table - {k}, IncrBy(s.counts, a.backend, 0 - w - w), s.active);
    assert Elems([k, k]) == {k};
    forall b ensures ReadWeight(p, [k, k], b) == if b == a.backend then w + w else 0 {
      assert [k, k][..|[k, k]| - 1] == [k] && [k][..|[k]| - 1] == [];
      assert ReadWeight(p, [], b) == 0 && ReadWeight(p, [k], b) == if b == a.backend then w else 0;
    }
    assert Repeats(p, [k, k]) by { assert [k, k][0] == [k, k][1]; }
    BulkDeleteIndexIff(s, [k, k], s');
  }

  /** A bulk assign without interference: set-if-absent, then the counts of what was set. */
  ghost predicate BulkAssigned(s: Store, entries: map<string, BulkAssignEntry>, now: int, s': Store) {
    var won := Won(s.table, entries, now);
    && s'.table == s.table + won
    && s'.active == s.active
    && forall b :: Count(s'.counts, b) == Count(s.counts, b) + Load(View(won), b)
  }

  lemma BulkAssignKeepsDrift(s: Store, entries: map<string, BulkAssignEntry>, now: int, s': Store)
    requires BulkAssigned(s, entries, now, s')
    ensures SameDrift(s, s')
  {
    hide Load;
    var won := Won(s.table, entries, now);
    ViewUnion(s.table, won);
    forall b ensures Drift(s', b) == Drift(s, b) {
      LoadUnion(View(s.table), View(won), b);
    }
  }

  /** assign.lua keeps the index in step. */
  lemma LuaKeepsDrift(s: Store, key: string, now: int, s': Store, r: Option<Assignment>)
    requires LuaAssigned(s, key, now, s', r)
    ensures SameDrift(s, s')
  {
    hide Drift;
    RemoveKeepsDrift(s, key);
    if s' != s && s.active != {} {
      InsertKeepsDrift(Remove(s, key), key, r.value);
    }
  }
}
