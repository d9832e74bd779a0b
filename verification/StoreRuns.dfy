/**
 * Runs of the Redis store in which the reads of a delete, its write, every command of a bulk assign, the scan
 * and the write of a reconciliation, Lua assigns and changes of the active set interleave at will, from any
 * number of replicas.
 */
module StoreRuns {
  import opened Basics
  import opened Sums
  import opened Assignments
  import opened StoreSpec

  /**
   * An operation in flight: it reads one by one the keys it is about to delete, or it is past that and has
   * entries still to be set and weight that is set but not yet counted, or it has summed up the table and
   * is about to rewrite the counts.
   */
  datatype Proc =
    | Deleting(unread: seq<string>, found: seq<string>, read: seq<Slot>, entries: map<string, BulkAssignEntry>)
    | Setting(todo: map<string, BulkAssignEntry>, pending: Counts)
    | Reconciling(sums: Counts)

  datatype Sys = Sys(store: Store, procs: map<int, Proc>)

  datatype Event =
    | Lua(key: string, now: int, r: Option<Assignment>)
    | Begin(id: int, keys: seq<string>, entries: map<string, BulkAssignEntry>)  // delete `keys`, then assign `entries`
    | ReadKey(id: int)
    | Erase(id: int)
    | SetNX(id: int, key: string, now: int)
    | Incr(id: int, backend: string)
    | Finish(id: int)
    | CountFailed(id: int)
    | Scan(id: int, sums: Counts)
    | Rewrite(id: int)
    | AddBackend(backend: string)
    | RemoveBackend(backend: string)

  /** HGET of the next key; only keys that are present are deleted later. */
  function AfterReadKey(s: Sys, id: int): Sys
    requires id in s.procs && s.procs[id].Deleting? && s.procs[id].unread != []
  {
    var proc := s.procs[id];
    var k := proc.unread[0];
    if k in s.store.table then
      s.(procs := s.procs[id := proc.(unread := proc.unread[1..], found := proc.found + [k],
                                      read := proc.read + [View(s.store.table)[k]])])
    else
      s.(procs := s.procs[id := proc.(unread := proc.unread[1..])])
  }

  /** The weight on `b` among what was read. */
  function ReadSum(read: seq<Slot>, b: string): nat {
    if read == [] then 0 else
      var last := read[|read| - 1];
      ReadSum(read[..|read| - 1], b) + if last.backend == b then last.weight else 0
  }

  function AfterSetNX(s: Sys, id: int, key: string, now: int): Sys
    requires id in s.procs && s.procs[id].Setting? && key in s.procs[id].todo
  {
    var proc := s.procs[id];
    var e := proc.todo[key];
    if key in s.store.table then
      s.(procs := s.procs[id := proc.(todo := proc.todo - {key})])
    else
      s.(store := s.store.(table := s.store.table[key := Entry(e, now)]),
         procs := s.procs[id := Setting(proc.todo - {key}, IncrBy(proc.pending, e.backend, Normal(e.weight)))])
  }

  function AfterIncr(s: Sys, id: int, b: string): Sys
    requires id in s.procs && s.procs[id].Setting? && b in s.procs[id].pending
  {
    var proc := s.procs[id];
    s.(store := s.store.(counts := IncrBy(s.store.counts, b, proc.pending[b])),
       procs := s.procs[id := proc.(pending := proc.pending - {b})])
  }

  /** HDEL of what was found and HINCRBY by what was read, which may be out of date. */
  ghost predicate Erased(s: Store, found: seq<string>, read: seq<Slot>, s': Store) {
    && s'.table == s.table - Elems(found)
    && s'.active == s.active
    && forall b :: Count(s'.counts, b) == Count(s.counts, b) - ReadSum(read, b)
  }

  ghost predicate Next(s: Sys, e: Event, s': Sys) {
    match e
    case Lua(key, now, r) =>
      s'.procs == s.procs && LuaAssigned(s.store, key, now, s'.store, r)
    case Begin(id, keys, entries) =>
      id !in s.procs && s' == s.(procs := s.procs[id := Deleting(keys, [], [], entries)])
    case ReadKey(id) =>
      id in s.procs && s.procs[id].Deleting? && s.procs[id].unread != [] && s' == AfterReadKey(s, id)
    case Erase(id) =>
      && id in s.procs && s.procs[id].Deleting? && s.procs[id].unread == []
      && Erased(s.store, s.procs[id].found, s.procs[id].read, s'.store)
      && s'.procs == s.procs[id := Setting(s.procs[id].entries, map[])]
    case SetNX(id, key, now) =>
      id in s.procs && s.procs[id].Setting? && key in s.procs[id].todo && s' == AfterSetNX(s, id, key, now)
    case Incr(id, b) =>
      && id in s.procs && s.procs[id].Setting? && s.procs[id].todo == map[]
      && b in s.procs[id].pending && s' == AfterIncr(s, id, b)
    case Finish(id) =>
      id in s.procs && s.procs[id] == Setting(map[], map[]) && s' == s.(procs := s.procs - {id})
    case CountFailed(id) =>
      id in s.procs && s.procs[id].Setting? && s.procs[id].todo == map[] && s' == s.(procs := s.procs - {id})
    case Scan(id, sums) =>
      id !in s.procs && Indexed(s.store.(counts := sums)) && s' == s.(procs := s.procs[id := Reconciling(sums)])
    case Rewrite(id) =>
      && id in s.procs && s.procs[id].Reconciling?
      && s' == s.(store := s.store.(counts := s.procs[id].sums), procs := s.procs - {id})
    case AddBackend(b) =>
      s' == s.(store := s.store.(active := s.store.active + {b}))
    case RemoveBackend(b) =>
      s' == s.(store := s.store.(active := s.store.active - {b}))
  }

  ghost predicate Run(states: seq<Sys>, events: seq<Event>) {
    && |states| == |events| + 1
    && forall i :: 0 <= i < |events| ==> Next(states[i], events[i], states[i + 1])
  }

  // -- The index invariant -----------------------------------------------------------

  function Uncounted(proc: Proc, b: string): int {
    if proc.Setting? then Count(proc.pending, b) else 0
  }

  ghost function PendingOf(procs: map<int, Proc>, b: string): map<int, int> {
    map id | id in procs :: Uncounted(procs[id], b)
  }

  /** Weight on `b` that in-flight bulk assigns have set but not yet counted. */
  ghost function Pending(procs: map<int, Proc>, b: string): int {
    Sum(PendingOf(procs, b))
  }

  /** Weight missing from the index that no in-flight bulk assign will add. */
  ghost function Lost(s: Sys, b: string): int {
    Drift(s.store, b) - Pending(s.procs, b)
  }

  lemma PendingPut(procs: map<int, Proc>, id: int, proc: Proc, b: string)
    ensures Pending(procs[id := proc], b) == Pending(procs, b) + Uncounted(proc, b)
                                             - (if id in procs then Uncounted(procs[id], b) else 0)
  {
    SumPut(PendingOf(procs, b), id, Uncounted(proc, b));
    assert PendingOf(procs[id := proc], b) == PendingOf(procs, b)[id := Uncounted(proc, b)];
    if id in procs {
      SumRemove(PendingOf(procs, b), id);
    } else {
      assert PendingOf(procs, b) - {id} == PendingOf(procs, b);
    }
  }

  lemma PendingRemove(procs: map<int, Proc>, id: int, b: string)
    requires id in procs
    ensures Pending(procs - {id}, b) == Pending(procs, b) - Uncounted(procs[id], b)
  {
    SumRemove(PendingOf(procs, b), id);
    assert PendingOf(procs - {id}, b) == PendingOf(procs, b) - {id};
  }

  lemma SetNXKeepsLost(s: Sys, id: int, key: string, now: int, b: string)
    requires id in s.procs && s.procs[id].Setting? && key in s.procs[id].todo
    ensures Lost(AfterSetNX(s, id, key, now), b) == Lost(s, b)
  {
    hide Load, Pending;
    var s' := AfterSetNX(s, id, key, now);
    PendingPut(s.procs, id, s'.procs[id], b);
    if key !in s.store.table {
      var a := Entry(s.procs[id].todo[key], now);
      ViewPut(s.store.table, key, a);
      LoadPut(View(s.store.table), key, Slot(a.backend, EffectiveWeight(a)));
    }
  }

  lemma IncrKeepsLost(s: Sys, id: int, c: string, b: string)
    requires id in s.procs && s.procs[id].Setting? && c in s.procs[id].pending
    ensures Lost(AfterIncr(s, id, c), b) == Lost(s, b)
  {
    hide Load, Pending;
    PendingPut(s.procs, id, AfterIncr(s, id, c).procs[id], b);
  }

  /** By how much a delete over-decrements the count of `b`: what it read minus what it removes. */
  ghost function Overshoot(s: Sys, id: int, b: string): int
    requires id in s.procs && s.procs[id].Deleting?
  {
    ReadSum(s.procs[id].read, b) - Removed(View(s.store.table), s.procs[id].found, b)
  }

  /** What each event does to the weight the index has lost. */
  lemma LostStep(s: Sys, e: Event, s': Sys, b: string)
    requires Next(s, e, s')
    ensures match e
            case Erase(id) => Lost(s', b) == Lost(s, b) + Overshoot(s, id, b)
            case CountFailed(id) => Lost(s', b) == Lost(s, b) + Uncounted(s.procs[id], b)
            case Rewrite(id) =>
              Lost(s', b) == Load(View(s.store.table), b) - Count(s.procs[id].sums, b) - Pending(s.procs, b)
            case _ => Lost(s', b) == Lost(s, b)
  {
    hide Pending, Load;
    match e
    case Lua(key, now, r) =>
      LuaKeepsDrift(s.store, key, now, s'.store, r);
    case Begin(id, keys, entries) =>
      PendingPut(s.procs, id, s'.procs[id], b);
    case ReadKey(id) =>
      PendingPut(s.procs, id, s'.procs[id], b);
    case Erase(id) =>
      ViewMinus(s.store.table, Elems(s.procs[id].found));
      PendingPut(s.procs, id, s'.procs[id], b);
    case SetNX(id, key, now) =>
      SetNXKeepsLost(s, id, key, now, b);
    case Incr(id, c) =>
      IncrKeepsLost(s, id, c, b);
    case Finish(id) =>
      PendingRemove(s.procs, id, b);
    case CountFailed(id) =>
      PendingRemove(s.procs, id, b);
    case Scan(id, sums) =>
      PendingPut(s.procs, id, s'.procs[id], b);
    case Rewrite(id) =>
      PendingRemove(s.procs, id, b);
    case AddBackend(c) =>
    case RemoveBackend(c) =>
  }

  /** Nobody changed the keys between their reads and the delete, and no key is listed twice. */
  ghost predicate Undisturbed(s: Sys, id: int)
    requires id in s.procs && s.procs[id].Deleting?
  {
    var found, read, now := s.procs[id].found, s.procs[id].read, View(s.store.table);
    && |found| == |read| && !Repeats(now, found)
    && forall i :: 0 <= i < |found| ==> found[i] in now && now[found[i]] == read[i]
  }

  lemma {:induction false} SameRead(p: Placement, keys: seq<string>, read: seq<Slot>, b: string)
    requires |keys| == |read| && forall i :: 0 <= i < |keys| ==> keys[i] in p && p[keys[i]] == read[i]
    ensures ReadSum(read, b) == ReadWeight(p, keys, b)
  {
    if keys != [] {
      SameRead(p, keys[..|keys| - 1], read[..|read| - 1], b);
    }
  }

  lemma UndisturbedErase(s: Sys, id: int, b: string)
    requires id in s.procs && s.procs[id].Deleting? && Undisturbed(s, id)
    ensures Overshoot(s, id, b) == 0
  {
    hide Load, Repeats;
    SameRead(View(s.store.table), s.procs[id].found, s.procs[id].read, b);
    ReadVersusRemoved(View(s.store.table), s.procs[id].found, b);
  }

  /** What a delete of one key gets wrong: it subtracts the slot it read and removes the one that is there now. */
  lemma OvershootOne(s: Sys, id: int, k: string, slot: Slot, b: string)
    requires id in s.procs && s.procs[id].Deleting? && s.procs[id].found == [k] && s.procs[id].read == [slot]
    ensures var p := View(s.store.table);
            Overshoot(s, id, b) == (if slot.backend == b then slot.weight else 0)
                                   - (if k in p && p[k].backend == b then p[k].weight else 0)
  {
    hide Load;
    var p := View(s.store.table);
    RemovedStep(p, [k], b);
    var none := [k][..|[k]| - 1];
    assert none == [] && p - Elems(none) == p;
    var unread := [slot][..|[slot]| - 1];
    assert unread == [] && ReadSum(unread, b) == 0;
  }

  /** Deleting one key keeps the index in step if and only if the key is still as it was read. */
  lemma EraseOneIff(s: Sys, id: int, k: string, slot: Slot)
    requires id in s.procs && s.procs[id].Deleting? && s.procs[id].found == [k] && s.procs[id].read == [slot]
    requires slot.weight >= 1
    ensures (forall b :: Overshoot(s, id, b) == 0) <==> k in s.store.table && View(s.store.table)[k] == slot
  {
    hide Load;
    var p := View(s.store.table);
    forall b ensures Overshoot(s, id, b) == (if slot.backend == b then slot.weight else 0)
                                            - (if k in p && p[k].backend == b then p[k].weight else 0)
    {
      OvershootOne(s, id, k, slot, b);
    }
    assert Overshoot(s, id, slot.backend) == 0 ==> k in p && p[k] == slot;
  }

  /** Every count update goes through and every delete finds its keys as it read them. */
  ghost predicate Smooth(s: Sys, e: Event) {
    && !e.CountFailed? && !e.Rewrite?
    && (e.Erase? && e.id in s.procs && s.procs[e.id].Deleting? ==> Undisturbed(s, e.id))
  }

  /** In every state of every such run: table weight = count + increments still pending in flight. */
  lemma IndexInvariant(states: seq<Sys>, events: seq<Event>, i: nat, b: string)
    requires Run(states, events) && i <= |events|
    requires Lost(states[0], b) == 0
    requires forall j :: 0 <= j < |events| ==> Smooth(states[j], events[j])
    ensures Load(View(states[i].store.table), b) == Count(states[i].store.counts, b) + Pending(states[i].procs, b)
  {
    hide Load, Pending, Undisturbed;
    SmoothKeepsLost(states, events, 0, i, b);
  }

  /** A reconciliation that summed the table stays ready to write those sums until it does. */
  lemma {:induction false} SumsKept(states: seq<Sys>, events: seq<Event>, i: nat, j: nat, id: int, sums: Counts)
    requires Run(states, events) && i < j <= |events| && events[i] == Scan(id, sums)
    requires forall k :: i < k < j ==> events[k] != Rewrite(id)
    ensures id in states[j].procs && states[j].procs[id] == Reconciling(sums)
  {
    hide LuaAssigned, Erased, Indexed;
    if i + 1 < j {
      SumsKept(states, events, i, j - 1, id, sums);
      assert Next(states[j - 1], events[j - 1], states[j]);
    } else {
      assert Next(states[i], events[i], states[i + 1]);
    }
  }

  /** No weight is missing from the index that no in-flight bulk assign will add. */
  ghost predicate Exact(s: Sys) {
    forall b :: Lost(s, b) == 0
  }

  /** From `s` to `t` the loads changed by what in-flight bulk assigns have still to count, and by nothing else. */
  ghost predicate GainedPending(s: Sys, t: Sys) {
    forall b :: Load(View(t.store.table), b) == Load(View(s.store.table), b) + Pending(t.procs, b)
  }

  /** What a reconciliation leaves, in terms of the loads. */
  lemma RewriteLoads(states: seq<Sys>, events: seq<Event>, i: nat, j: nat, id: int, sums: Counts)
    requires Run(states, events) && i < j < |events| && events[i] == Scan(id, sums) && events[j] == Rewrite(id)
    requires forall k :: i < k < j ==> events[k] != Rewrite(id)
    ensures Exact(states[j + 1]) <==> GainedPending(states[i], states[j])
  {
    hide Pending, Load, Lost;
    SumsKept(states, events, i, j, id, sums);
    assert Next(states[j], events[j], states[j + 1]) && Next(states[i], events[i], states[i + 1]);
    var s, t, u := states[i], states[j], states[j + 1];
    forall b ensures Lost(u, b) == Load(View(t.store.table), b) - Load(View(s.store.table), b) - Pending(t.procs, b) {
      LostStep(t, events[j], u, b);
      ScannedSums(s.store, sums, b);
    }
    if Exact(u) {
      forall b ensures Load(View(t.store.table), b) == Load(View(s.store.table), b) + Pending(t.procs, b) {
        assert Lost(u, b) == 0;
      }
    }
  }

  lemma ScannedSums(s: Store, sums: Counts, b: string)
    requires Indexed(s.(counts := sums))
    ensures Count(sums, b) == Load(View(s.table), b)
  {
    hide Load;
    assert Drift(s.(counts := sums), b) == 0;
  }

  /** Smooth steps change table, counts and pending weight in step. */
  lemma {:induction false} SmoothKeepsLost(states: seq<Sys>, events: seq<Event>, i: nat, j: nat, b: string)
    requires Run(states, events) && i <= j <= |events|
    requires forall k :: i <= k < j ==> Smooth(states[k], events[k])
    ensures Lost(states[j], b) == Lost(states[i], b)
  {
    hide Lost, Undisturbed, Overshoot, Next;
    if i < j {
      SmoothKeepsLost(states, events, i, j - 1, b);
      var s, e := states[j - 1], events[j - 1];
      assert Smooth(s, e) && Next(s, e, states[j]);
      LostSmooth(s, e, states[j], b);
    }
  }

  lemma LostSmooth(s: Sys, e: Event, s': Sys, b: string)
    requires Next(s, e, s') && Smooth(s, e)
    ensures Lost(s', b) == Lost(s, b)
  {
    hide Lost, Undisturbed, Overshoot;
    LostStep(s, e, s', b);
    if e.Erase? {
      UndisturbedErase(s, e.id, b);
    }
  }

  /** The counts moved from `s` to `t` by exactly the increments that were pending in `s`. */
  ghost predicate CountsSettled(s: Sys, t: Sys) {
    forall b :: Count(t.store.counts, b) == Count(s.store.counts, b) + Pending(s.procs, b)
  }

  /**
   * Reconciling from any drift, while other operations run smoothly between its scan and its write: the index
   * is exact afterwards if and only if, when it writes, the counts hash shows no more than the increments that
   * were pending at the scan.
   */
  lemma ReconcileExactIff(states: seq<Sys>, events: seq<Event>, i: nat, j: nat, id: int, sums: Counts)
    requires Run(states, events) && i < j < |events| && events[i] == Scan(id, sums) && events[j] == Rewrite(id)
    requires forall k :: i <= k < j ==> Smooth(states[k], events[k])
    ensures Exact(states[j + 1]) <==> CountsSettled(states[i], states[j])
  {
    hide Pending, Load, Next, Undisturbed;
    forall k | i < k < j ensures events[k] != Rewrite(id) {
      assert Smooth(states[k], events[k]);
    }
    RewriteLoads(states, events, i, j, id, sums);
    hide Exact;
    var s, t := states[i], states[j];
    forall b ensures Load(View(t.store.table), b) == Load(View(s.store.table), b) + Pending(t.procs, b) <==>
                     Count(t.store.counts, b) == Count(s.store.counts, b) + Pending(s.procs, b)
    {
      SmoothKeepsLost(states, events, i, j, b);
    }
  }

  /**
   * With nothing pending at the scan and at the write: the index is exact if and only if no count changed in
   * between.
   */
  lemma QuietReconcile(states: seq<Sys>, events: seq<Event>, i: nat, j: nat, id: int, sums: Counts)
    requires Run(states, events) && i < j < |events| && events[i] == Scan(id, sums) && events[j] == Rewrite(id)
    requires forall k :: i <= k < j ==> Smooth(states[k], events[k])
    requires forall b :: Pending(states[i].procs, b) == 0 && Pending(states[j].procs, b) == 0
    ensures Indexed(states[j + 1].store) <==>
            forall b :: Count(states[j].store.counts, b) == Count(states[i].store.counts, b)
  {
    hide Pending, Drift, Next, Undisturbed;
    ReconcileExactIff(states, events, i, j, id, sums);
    assert Next(states[j], events[j], states[j + 1]);
    NothingAddedByRewrite(states[j], id, states[j + 1]);
    hide Smooth;
    assert Exact(states[j + 1]) <==> Indexed(states[j + 1].store);
  }

  lemma NothingAddedByRewrite(s: Sys, id: int, s': Sys)
    requires Next(s, Rewrite(id), s') && forall b :: Pending(s.procs, b) == 0
    ensures forall b :: Lost(s', b) == Drift(s'.store, b)
  {
    hide Pending, Drift;
    forall b ensures Lost(s', b) == Drift(s'.store, b) {
      PendingRemove(s.procs, id, b);
    }
  }

  // -- Runs that leave the index wrong -------------------------------------------------------

  /** A scan, an on-demand assign and the write of the scanned sums: the new assignment is missing from the counts. */
  lemma AssignDuringReconcile(b: string, k: string, now: int) returns (states: seq<Sys>, events: seq<Event>)
    ensures Run(states, events) && |events| == 3 && events[0].Scan? && events[1].Lua? && events[2].Rewrite?
    ensures Indexed(states[0].store) && states[0].procs == map[] && states[0].store.active == {b}
    ensures !Exact(states[3])
  {
    var s0 := Sys(Store(map[], map[], {b}), map[]);
    var a := Assignment(b, now, "assignment", 1);
    var s1 := s0.(procs := map[0 := Reconciling(map[])]);
    var s2 := Sys(Insert(s0.store, k, a), s1.procs);
    var s3 := Sys(s2.store.(counts := map[]), map[]);
    states, events := [s0, s1, s2, s3], [Scan(0, map[]), Lua(k, now, Some(a)), Rewrite(0)];
    IndexedWhenEmpty({b});
    assert Next(s0, events[0], s1);
    assert Next(s1, events[1], s2) by { hide Drift; }
    assert Next(s2, events[2], s3) by { assert s1.procs - {0} == map[]; }
    assert Lost(s3, b) == 1 by { LostOfOne(k, a, {b}); }
  }

  lemma IndexedWhenEmpty(active: set<string>)
    ensures Indexed(Store(map[], map[], active))
  {
    hide Drift;
    EmptyIndexed();
    SameTableDrift(Store(map[], map[], {}), Store(map[], map[], active));
  }

  /** One assignment that is not counted. */
  lemma LostOfOne(k: string, a: Assignment, active: set<string>)
    ensures Lost(Sys(Store(map[k := a], map[], active), map[]), a.backend) == EffectiveWeight(a)
  {
    hide Load;
    var none: Table := map[];
    ViewPut(none, k, a);
    LoadPut(View(none), k, Slot(a.backend, EffectiveWeight(a)));
    assert View(none) == map[];
    LoadEmpty(a.backend);
    NothingPending(a.backend);
  }

  lemma NothingPending(b: string)
    ensures Pending(map[], b) == 0
  {
    assert PendingOf(map[], b) == map[];
  }

  /** A delete of one key that was read as `slot`. */
  function AfterEraseOne(s: Sys, id: int, k: string, slot: Slot): Sys
    requires id in s.procs && s.procs[id].Deleting?
  {
    Sys(s.store.(table := s.store.table - {k}, counts := IncrBy(s.store.counts, slot.backend, 0 - slot.weight)),
        s.procs[id := Setting(s.procs[id].entries, map[])])
  }

  lemma EraseOneStep(s: Sys, id: int, k: string, slot: Slot)
    requires id in s.procs && s.procs[id].Deleting? && s.procs[id].unread == []
    requires s.procs[id].found == [k] && s.procs[id].read == [slot]
    ensures Next(s, Erase(id), AfterEraseOne(s, id, k, slot))
  {
    assert Elems([k]) == {k};
    forall b ensures ReadSum([slot], b) == if slot.backend == b then slot.weight else 0 {
      assert [slot][..|[slot]| - 1] == [];
    }
  }

  lemma ReadOneStep(s: Sys, id: int, k: string)
    requires id in s.procs && s.procs[id] == Deleting([k], [], [], map[]) && k in s.store.table
    ensures Next(s, ReadKey(id), s.(procs := s.procs[id := Deleting([], [k], [View(s.store.table)[k]], map[])]))
  {
    hide View;
    var slot := View(s.store.table)[k];
    assert [k][1..] == [] && [] + [k] == [k] && [] + [slot] == [slot];
  }

  /** Two deletes of one key that both read it before either removes it: its weight is subtracted twice. */
  lemma KeyDeletedTwice(s: Sys, k: string) returns (states: seq<Sys>, events: seq<Event>)
    requires s.procs == map[] && k in s.store.table
    ensures Run(states, events) && states[0] == s
    ensures events == [Begin(0, [k], map[]), Begin(1, [k], map[]), ReadKey(0), ReadKey(1), Erase(0), Erase(1)]
    ensures var b := s.store.table[k].backend; Lost(states[6], b) > Lost(s, b)
  {
    hide Lost, LuaAssigned, Erased, View;
    var slot := View(s.store.table)[k];
    var fresh0, read0 := Deleting([k], [], [], map[]), Deleting([], [k], [slot], map[]);
    var s1 := s.(procs := map[0 := fresh0]);
    var s2 := s.(procs := map[0 := fresh0, 1 := fresh0]);
    var s3 := s.(procs := map[0 := read0, 1 := fresh0]);
    var s4 := s.(procs := map[0 := read0, 1 := read0]);
    var s5 := AfterEraseOne(s4, 0, k, slot);
    var s6 := AfterEraseOne(s5, 1, k, slot);
    states := [s, s1, s2, s3, s4, s5, s6];
    events := [Begin(0, [k], map[]), Begin(1, [k], map[]), ReadKey(0), ReadKey(1), Erase(0), Erase(1)];
    assert Next(s, events[0], s1) && Next(s1, events[1], s2);
    ReadOneStep(s2, 0, k);
    ReadOneStep(s3, 1, k);
    assert s2.procs[0 := read0] == s3.procs && s3.procs[1 := read0] == s4.procs;
    EraseOneStep(s4, 0, k, slot);
    EraseOneStep(s5, 1, k, slot);
    assert Run(states, events) by { hide Next; }
    LostTwice(s, s1, s2, s3, s4, s5, s6, k);
  }

  lemma LostTwice(s: Sys, s1: Sys, s2: Sys, s3: Sys, s4: Sys, s5: Sys, s6: Sys, k: string)
    requires k in s.store.table && s4.store == s.store && k !in s5.store.table
    requires Next(s, Begin(0, [k], map[]), s1) && Next(s1, Begin(1, [k], map[]), s2)
    requires Next(s2, ReadKey(0), s3) && Next(s3, ReadKey(1), s4) && Next(s4, Erase(0), s5) && Next(s5, Erase(1), s6)
    requires var read := Deleting([], [k], [View(s.store.table)[k]], map[]);
             0 in s4.procs && s4.procs[0] == read && 1 in s5.procs && s5.procs[1] == read
    ensures var b := s.store.table[k].backend; Lost(s6, b) > Lost(s, b)
  {
    hide Next, Lost, Overshoot;
    var b, slot := s.store.table[k].backend, View(s.store.table)[k];
    LostStep(s, Begin(0, [k], map[]), s1, b);
    LostStep(s1, Begin(1, [k], map[]), s2, b);
    LostStep(s2, ReadKey(0), s3, b);
    LostStep(s3, ReadKey(1), s4, b);
    LostStep(s4, Erase(0), s5, b);
    LostStep(s5, Erase(1), s6, b);
    OvershootOne(s4, 0, k, slot, b);
    OvershootOne(s5, 1, k, slot, b);
  }

  // -- No assignment is lost or overwritten ----------------------------------------------

  /** The entries a process will still try to set. */
  function Ahead(proc: Proc): map<string, BulkAssignEntry> {
    match proc
    case Setting(todo, _) => todo
    case Deleting(_, _, _, entries) => entries
    case Reconciling(_) => map[]
  }

  /** A key is assigned, or some bulk assign in flight is about to assign it. */
  ghost predicate Covered(s: Sys, k: string) {
    k in s.store.table || exists id :: id in s.procs && k in Ahead(s.procs[id])
  }

  /** Whoever is about to delete a key will assign it again: a rebalance or a reconciliation, not a drain. */
  ghost predicate Moves(s: Sys) {
    forall id :: id in s.procs && s.procs[id].Deleting? ==> Elems(s.procs[id].found) <= s.procs[id].entries.Keys
  }

  lemma CoveredStep(s: Sys, e: Event, s': Sys, k: string)
    requires Next(s, e, s') && Covered(s, k) && Moves(s) && s.store.active != {}
    ensures Covered(s', k)
  {
    hide Drift, ReadSum;
    if k !in s.store.table {
      var id :| id in s.procs && k in Ahead(s.procs[id]);
      assert k !in s'.store.table ==> id in s'.procs && k in Ahead(s'.procs[id]);
    } else if e.Erase? && k in s.procs[e.id].found {
      assert k in Elems(s.procs[e.id].found);
      assert e.id in s'.procs && k in Ahead(s'.procs[e.id]);
    }
  }

  /** All keys a process is about to delete, read or not, are among the entries it will assign. */
  ghost predicate Reassigns(s: Sys) {
    forall id :: id in s.procs && s.procs[id].Deleting? ==>
      Elems(s.procs[id].unread) + Elems(s.procs[id].found) <= s.procs[id].entries.Keys
  }

  lemma ReassignsStep(s: Sys, e: Event, s': Sys)
    requires Next(s, e, s') && Reassigns(s) && (e.Begin? ==> Elems(e.keys) <= e.entries.Keys)
    ensures Reassigns(s') && Moves(s')
  {
    hide LuaAssigned, Erased, View, Indexed;
    if e.ReadKey? {
      var proc := s.procs[e.id];
      var k := proc.unread[0];
      assert Elems(proc.unread) == {k} + Elems(proc.unread[1..]) by { assert proc.unread == [k] + proc.unread[1..]; }
      assert Elems(proc.found + [k]) == Elems(proc.found) + {k};
    }
  }

  lemma {:induction false} ReassignsReached(states: seq<Sys>, events: seq<Event>, i: nat)
    requires Run(states, events) && i <= |events| && Reassigns(states[0])
    requires forall j :: 0 <= j < |events| && events[j].Begin? ==> Elems(events[j].keys) <= events[j].entries.Keys
    ensures Reassigns(states[i]) && Moves(states[i])
  {
    hide Next, Reassigns, Moves;
    if i > 0 {
      ReassignsReached(states, events, i - 1);
      ReassignsStep(states[i - 1], events[i - 1], states[i]);
    } else {
      ReassignsMoves(states[0]);
    }
  }

  lemma ReassignsMoves(s: Sys)
    requires Reassigns(s)
    ensures Moves(s)
  {
  }

  /**
   * With on-demand assigns interleaved at will and every delete part of a move, every key assigned before is assigned
   * once no move is in flight.
   */
  lemma {:induction false} NothingUnassigned(states: seq<Sys>, events: seq<Event>, i: nat, k: string)
    requires Run(states, events) && i <= |events| && Covered(states[0], k) && Reassigns(states[0])
    requires forall j :: 0 <= j < |events| && events[j].Begin? ==> Elems(events[j].keys) <= events[j].entries.Keys
    requires forall j :: 0 <= j <= |events| ==> states[j].store.active != {}
    ensures Covered(states[i], k)
    ensures states[i].procs == map[] ==> k in states[i].store.table
  {
    hide Next, Moves, Reassigns;
    if i > 0 {
      NothingUnassigned(states, events, i - 1, k);
      ReassignsReached(states, events, i - 1);
      CoveredStep(states[i - 1], events[i - 1], states[i], k);
    }
  }

  /** Only an explicit delete of `k` changes an assignment to an active backend. */
  lemma LiveKept(s: Sys, e: Event, s': Sys, k: string)
    requires Next(s, e, s')
    requires k in s.store.table && s.store.table[k].backend in s.store.active
    requires !Deletes(s, e, k)
    ensures k in s'.store.table && s'.store.table[k] == s.store.table[k]
  {
    hide Drift, ReadSum;
  }

  /** The event deletes `k`. */
  predicate Deletes(s: Sys, e: Event, k: string) {
    e.Erase? && e.id in s.procs && s.procs[e.id].Deleting? && k in s.procs[e.id].found
  }

  /** Over every run, an assignment stays as it is while its backend is active and no delete has listed the key. */
  lemma {:induction false} LiveKeptThroughout(states: seq<Sys>, events: seq<Event>, i: nat, k: string)
    requires Run(states, events) && i <= |events| && k in states[0].store.table
    requires forall j :: 0 <= j < |states| ==> states[0].store.table[k].backend in states[j].store.active
    requires forall j :: 0 <= j < |events| ==> !Deletes(states[j], events[j], k)
    ensures k in states[i].store.table && states[i].store.table[k] == states[0].store.table[k]
  {
    hide Next;
    if i > 0 {
      LiveKeptThroughout(states, events, i - 1, k);
      var s, e := states[i - 1], events[i - 1];
      assert !Deletes(s, e, k) && s.store.table[k].backend in s.store.active;
      LiveKept(s, e, states[i], k);
    }
  }

  /** So all on-demand replies for a key agree while its backend is active and no delete has found it. */
  lemma RepliesAgree(states: seq<Sys>, events: seq<Event>, i: nat, j: nat, k: string)
    requires Run(states, events) && i < j < |events| && events[i].Lua? && events[j].Lua?
    requires events[i].key == k == events[j].key && events[i].r.Some?
    requires forall n :: i < n <= j ==> events[i].r.value.backend in states[n].store.active
    requires forall n :: i < n < j ==> !Deletes(states[n], events[n], k)
    ensures events[j].r == events[i].r
  {
    hide Drift;
    assert Next(states[i], events[i], states[i + 1]) && Next(states[j], events[j], states[j + 1]);
    assert k in states[i + 1].store.table && states[i + 1].store.table[k] == events[i].r.value;
    hide Next;
    var later, rest := states[i + 1..], events[i + 1..];
    assert Run(later, rest);
    forall n | 0 <= n <= j - i - 1 ensures later[n] == states[i + 1 + n] {
    }
    LiveKeptThroughout(later[..j - i], rest[..j - i - 1], j - i - 1, k);
  }

  /** The active set follows the adds and removals: the last one that names a backend decides. */
  lemma {:induction false} ActiveFollowsEvents(states: seq<Sys>, events: seq<Event>, i: nat, b: string)
    requires Run(states, events) && i <= |events|
    ensures b in states[i].store.active <==> ActiveAfter(b in states[0].store.active, events[..i], b)
  {
    if i > 0 {
      ActiveFollowsEvents(states, events, i - 1, b);
      assert events[..i][..|events[..i]| - 1] == events[..i - 1];
      ActiveChange(states[i - 1], events[i - 1], states[i], b);
    }
  }

  function ActiveAfter(first: bool, events: seq<Event>, b: string): bool {
    if events == [] then first
    else if events[|events| - 1] == AddBackend(b) then true
    else if events[|events| - 1] == RemoveBackend(b) then false
    else ActiveAfter(first, events[..|events| - 1], b)
  }

  lemma ActiveChange(s: Sys, e: Event, s': Sys, b: string)
    requires Next(s, e, s')
    ensures b in s'.store.active <==> e == AddBackend(b) || (b in s.store.active && e != RemoveBackend(b))
  {
    hide Drift, ReadSum, View;
  }

  // -- What a drain leaves behind ------------------------------------------------------------

  predicate On(s: Sys, k: string, b: string) {
    k in s.store.table && s.store.table[k].backend == b
  }

  /**
   * An on-demand assign answers `b` for a key that is not on `b`, or a bulk assign sets an absent key's entry for
   * `b`.
   */
  predicate Puts(s: Sys, e: Event, k: string, b: string) {
    || (e.Lua? && e.key == k && !On(s, k, b) && e.r.Some? && e.r.value.backend == b)
    || (e.SetNX? && e.key == k && k !in s.store.table && e.id in s.procs && s.procs[e.id].Setting?
        && k in s.procs[e.id].todo && s.procs[e.id].todo[k].backend == b)
  }

  /** A delete has found the key, or an on-demand assign for the key comes while `b` is not active. */
  predicate Takes(s: Sys, e: Event, k: string, b: string) {
    Deletes(s, e, k) || (e.Lua? && e.key == k && b !in s.store.active)
  }

  /** Exactly these steps put a key on a backend and take it off again. */
  lemma OnStep(s: Sys, e: Event, s': Sys, k: string, b: string)
    requires Next(s, e, s')
    ensures On(s', k, b) <==> if On(s, k, b) then !Takes(s, e, k, b) else Puts(s, e, k, b)
  {
    hide Drift, ReadSum, View;
  }

  /** Step `t` puts `k` on `b` and none of the steps up to state `j` takes it off. */
  ghost predicate PutForGood(states: seq<Sys>, events: seq<Event>, t: nat, j: nat, k: string, b: string)
    requires t < j <= |events| <= |states|
  {
    Puts(states[t], events[t], k, b) && forall u :: t < u < j ==> !Takes(states[u], events[u], k, b)
  }

  lemma {:induction false} StaysOn(states: seq<Sys>, events: seq<Event>, i: nat, j: nat, k: string, b: string)
    requires Run(states, events) && i <= j <= |events| && On(states[i], k, b)
    requires forall u :: i <= u < j ==> !Takes(states[u], events[u], k, b)
    ensures On(states[j], k, b)
  {
    hide Next, On, Takes;
    if i < j {
      StaysOn(states, events, i, j - 1, k, b);
      OnStep(states[j - 1], events[j - 1], states[j], k, b);
    }
  }

  /** A key on `b` in state `j` was there all along since state `i`, or it was put there for good. */
  lemma {:induction false} ThereOrPut(states: seq<Sys>, events: seq<Event>, i: nat, j: nat, k: string, b: string)
    requires Run(states, events) && i <= j <= |events| && On(states[j], k, b)
    ensures (forall u :: i <= u <= j ==> On(states[u], k, b))
            || exists t :: i <= t < j && PutForGood(states, events, t, j, k, b)
  {
    hide Next, On, Takes, Puts;
    if i < j {
      var last: nat := j - 1;
      OnStep(states[last], events[last], states[j], k, b);
      if On(states[last], k, b) {
        ThereOrPut(states, events, i, last, k, b);
        if t :| i <= t < last && PutForGood(states, events, t, last, k, b) {
          assert PutForGood(states, events, t, j, k, b);
        }
      } else {
        assert PutForGood(states, events, last, j, k, b);
      }
    }
  }

  /** A listed key that stays in the table is found by the time the delete is written. */
  lemma {:induction false} ListedIsFound(states: seq<Sys>, events: seq<Event>, g: nat, j: nat, id: int, k: string)
    requires Run(states, events) && g < j <= |events| && events[g].Begin? && events[g].id == id && k in events[g].keys
    requires forall u :: g <= u <= j ==> k in states[u].store.table
    requires forall u :: g < u < j ==> events[u] != Erase(id)
    ensures id in states[j].procs && states[j].procs[id].Deleting?
    ensures k in states[j].procs[id].unread || k in states[j].procs[id].found
  {
    hide LuaAssigned, Erased, Indexed, View;
    assert Next(states[j - 1], events[j - 1], states[j]);
    if g + 1 < j {
      ListedIsFound(states, events, g, j - 1, id, k);
      assert k in states[j - 1].store.table && events[j - 1] != Erase(id);
    }
  }

  /**
   * A drain of `b` interleaved at will: it lists the keys on `b` in state `i`, starts its delete at step `g` and writes
   * it at step `d`. A key is on `b` in a later state if and only if some step since the listing put it there and no
   * step after that took it off.
   */
  lemma DrainLeavesNewcomers(states: seq<Sys>, events: seq<Event>, i: nat, g: nat, d: nat, j: nat, id: int,
                             b: string, k: string)
    requires Run(states, events) && i <= g < d < j <= |events|
    requires events[g].Begin? && events[g].id == id && events[d] == Erase(id)
    requires forall x :: On(states[i], x, b) ==> x in events[g].keys
    requires forall u :: g < u < d ==> events[u] != Erase(id)
    ensures On(states[j], k, b) <==> exists t :: i <= t < j && PutForGood(states, events, t, j, k, b)
  {
    hide Next, On, Puts, Takes;
    if On(states[j], k, b) {
      ThereOrPut(states, events, i, j, k, b);
      if forall u :: i <= u <= j ==> On(states[u], k, b) {
        StayersErased(states, events, g, d, id, b, k);
      }
    }
    if t :| i <= t < j && PutForGood(states, events, t, j, k, b) {
      PutIsOn(states[t], events[t], states[t + 1], k, b);
      StaysOn(states, events, t + 1, j, k, b);
    }
  }

  lemma PutIsOn(s: Sys, e: Event, s': Sys, k: string, b: string)
    requires Next(s, e, s') && Puts(s, e, k, b)
    ensures On(s', k, b)
  {
    OnStep(s, e, s', k, b);
  }

  /** Nobody who was listed stays through the delete. */
  lemma StayersErased(states: seq<Sys>, events: seq<Event>, g: nat, d: nat, id: int, b: string, k: string)
    requires Run(states, events) && g < d < |events|
    requires events[g].Begin? && events[g].id == id && events[d] == Erase(id) && k in events[g].keys
    requires forall u :: g < u < d ==> events[u] != Erase(id)
    requires forall u :: g <= u <= d ==> On(states[u], k, b)
    ensures !On(states[d + 1], k, b)
  {
    hide LuaAssigned, View;
    forall u | g <= u <= d ensures k in states[u].store.table {
      assert On(states[u], k, b);
    }
    ListedIsFound(states, events, g, d, id, k);
    assert Next(states[d], events[d], states[d + 1]);
    assert k in states[d].procs[id].found;
  }

  /**
   * So a drain leaves its backend empty if and only if every step since the listing that put a key there was
   * undone.
   */
  lemma DrainEmptiesIff(states: seq<Sys>, events: seq<Event>, i: nat, g: nat, d: nat, j: nat, id: int, b: string)
    requires Run(states, events) && i <= g < d < j <= |events|
    requires events[g].Begin? && events[g].id == id && events[d] == Erase(id)
    requires forall x :: On(states[i], x, b) ==> x in events[g].keys
    requires forall u :: g < u < d ==> events[u] != Erase(id)
    ensures (forall k :: !On(states[j], k, b)) <==>
            (forall t, k :: i <= t < j && Puts(states[t], events[t], k, b) ==>
               exists u :: t < u < j && Takes(states[u], events[u], k, b))
  {
    hide Next, On, Puts, Takes;
    forall k ensures On(states[j], k, b) <==> exists t :: i <= t < j && PutForGood(states, events, t, j, k, b) {
      DrainLeavesNewcomers(states, events, i, g, d, j, id, b, k);
    }
    if forall k :: !On(states[j], k, b) {
      forall t, k | i <= t < j && Puts(states[t], events[t], k, b)
        ensures exists u :: t < u < j && Takes(states[u], events[u], k, b)
      {
        assert !On(states[j], k, b);
        assert !PutForGood(states, events, t, j, k, b);
      }
    }
  }

  /** An on-demand assign after the listing and before the removal leaves its key on the drained backend. */
  lemma AssignDuringDrain(b: string, k: string, now: int) returns (states: seq<Sys>, events: seq<Event>)
    ensures Run(states, events) && |events| == 4
    ensures events[0] == Begin(0, [], map[]) && events[1].Lua? && events[2] == Erase(0) && events[3] == RemoveBackend(b)
    ensures (forall x :: !On(states[0], x, b)) && On(states[4], k, b) && b !in states[4].store.active
  {
    var s0 := Sys(Store(map[], map[], {b}), map[]);
    var a := Assignment(b, now, "assignment", 1);
    var s1 := s0.(procs := map[0 := Deleting([], [], [], map[])]);
    var s2 := s1.(store := Insert(s0.store, k, a));
    var s3 := s2.(procs := map[0 := Setting(map[], map[])]);
    var s4 := s3.(store := s3.store.(active := {}));
    states, events := [s0, s1, s2, s3, s4], [Begin(0, [], map[]), Lua(k, now, Some(a)), Erase(0), RemoveBackend(b)];
    assert Next(s0, events[0], s1) && Next(s1, events[1], s2);
    assert s2.store.table - Elems([]) == s2.store.table;
    assert Next(s2, events[2], s3) && Next(s3, events[3], s4);
  }

  // -- A drained backend is not handed out --------------------------------------------------

  lemma {:induction false} NotHandedOut(states: seq<Sys>, events: seq<Event>, i: nat, b: string)
    requires Run(states, events) && i < |events|
    requires b !in states[0].store.active
    requires AddBackend(b) !in events
    ensures b !in states[i].store.active
    ensures events[i].Lua? && events[i].r.Some? ==> events[i].r.value.backend != b
  {
    hide Next;
    if i > 0 {
      NotHandedOut(states, events, i - 1, b);
      ActiveStep(states[i - 1], events[i - 1], states[i], b);
    }
    ActiveStep(states[i], events[i], states[i + 1], b);
  }

  lemma ActiveStep(s: Sys, e: Event, s': Sys, b: string)
    requires Next(s, e, s') && b !in s.store.active
    ensures e != AddBackend(b) ==> b !in s'.store.active
    ensures e.Lua? && e.r.Some? ==> e.r.value.backend != b
  {
    hide Drift, ReadSum;
  }
}
