/** One bulk operation whose commands nobody interrupts does what the store's methods do. */
module StoreSolo {
  import opened Basics
  import opened Assignments
  import opened StoreSpec
  import opened StoreRuns
  import RedisStore

  /** A command of process `id`, with one clock reading for all its assignments. */
  predicate Own(e: Event, id: int, now: int) {
    match e
    case ReadKey(i) => i == id
    case Erase(i) => i == id
    case SetNX(i, _, at) => i == id && at == now
    case Incr(i, _) => i == id
    case _ => false
  }

  /** The listed keys up to `n` that are in the table. */
  function Present(t: Table, keys: seq<string>, n: nat): set<string>
    requires n <= |keys|
  {
    set k | k in keys[..n] && k in t
  }

  /** While it reads, the store is as it was, and what was read is what the method reads. */
  ghost predicate ReadSoFar(s0: Store, keys: seq<string>, entries: map<string, BulkAssignEntry>, proc: Proc,
                            store: Store)
    requires proc.Deleting?
  {
    && store == s0 && proc.entries == entries && |proc.unread| <= |keys|
    && proc.unread == keys[|keys| - |proc.unread|..]
    && Elems(proc.found) == Present(s0.table, keys, |keys| - |proc.unread|)
    && forall b :: ReadSum(proc.read, b) == ReadWeight(View(s0.table), keys[..|keys| - |proc.unread|], b)
  }

  /** While it assigns, the table has the entries set so far, and counts and increments add up. */
  ghost predicate SetSoFar(mid: Store, entries: map<string, BulkAssignEntry>, now: int, proc: Proc, store: Store)
    requires proc.Setting?
  {
    var won := Won(mid.table, entries - proc.todo.Keys, now);
    && proc.todo.Keys <= entries.Keys && (forall k :: k in proc.todo ==> proc.todo[k] == entries[k])
    && store.table == mid.table + won && store.active == mid.active
    && forall b :: Count(store.counts, b) + Count(proc.pending, b) == Count(mid.counts, b) + Load(View(won), b)
  }

  ghost predicate Progress(s0: Store, keys: seq<string>, entries: map<string, BulkAssignEntry>, now: int, mid: Store,
                           s: Sys, id: int)
  {
    && id in s.procs && !s.procs[id].Reconciling?
    && (s.procs[id].Deleting? ==> ReadSoFar(s0, keys, entries, s.procs[id], s.store))
    && (s.procs[id].Setting? ==> BulkDeleted(s0, keys, mid) && SetSoFar(mid, entries, now, s.procs[id], s.store))
  }

  lemma ReadStep(s0: Store, keys: seq<string>, entries: map<string, BulkAssignEntry>, s: Sys, id: int)
    requires id in s.procs && s.procs[id].Deleting? && s.procs[id].unread != []
    requires ReadSoFar(s0, keys, entries, s.procs[id], s.store)
    ensures var s' := AfterReadKey(s, id);
            ReadSoFar(s0, keys, entries, s'.procs[id], s'.store)
  {
    hide View;
    var proc, s' := s.procs[id], AfterReadKey(s, id);
    var n := |keys| - |proc.unread|;
    var k := keys[n];
    assert proc.unread[0] == k && keys[..n + 1] == keys[..n] + [k];
    assert keys[..n + 1][..|keys[..n + 1]| - 1] == keys[..n];
    if k in s.store.table {
      assert Elems(proc.found + [k]) == Elems(proc.found) + {k};
      assert Present(s0.table, keys, n + 1) == Present(s0.table, keys, n) + {k};
      var slot := View(s.store.table)[k];
      assert (proc.read + [slot])[..|proc.read|] == proc.read;
    } else {
      assert Present(s0.table, keys, n + 1) == Present(s0.table, keys, n);
    }
  }

  lemma EraseStep(s0: Store, keys: seq<string>, entries: map<string, BulkAssignEntry>, now: int, s: Sys, id: int,
                  s': Sys)
    requires id in s.procs && s.procs[id].Deleting? && ReadSoFar(s0, keys, entries, s.procs[id], s.store)
    requires Next(s, Erase(id), s')
    ensures BulkDeleted(s0, keys, s'.store) && SetSoFar(s'.store, entries, now, s'.procs[id], s'.store)
  {
    hide View, Load, ReadSum, ReadWeight;
    assert keys[..|keys|] == keys;
    assert s0.table - Elems(s.procs[id].found) == s0.table - Elems(keys);
    NothingWon(s'.store.table, entries, now);
  }

  lemma NothingWon(t: Table, entries: map<string, BulkAssignEntry>, now: int)
    ensures Won(t, entries - entries.Keys, now) == map[] && t + map[] == t
    ensures forall b :: Load(View(map[]), b) == 0
  {
    hide Load;
    assert entries - entries.Keys == map[];
    forall b ensures Load(View(map[]), b) == 0 {
      LoadEmpty(b);
      assert View(map[]) == map[];
    }
  }

  lemma SetStep(mid: Store, entries: map<string, BulkAssignEntry>, now: int, s: Sys, id: int, key: string)
    requires id in s.procs && s.procs[id].Setting? && key in s.procs[id].todo
    requires SetSoFar(mid, entries, now, s.procs[id], s.store)
    ensures var s' := AfterSetNX(s, id, key, now);
            SetSoFar(mid, entries, now, s'.procs[id], s'.store)
  {
    hide Load, View, Won;
    var todo := s.procs[id].todo.Keys;
    var won := Won(mid.table, entries - todo, now);
    RedisStore.WonStep(mid.table, entries, todo, key, now);
    assert (s.procs[id].todo - {key}).Keys == todo - {key};
    WonKeys(mid.table, entries, todo, now);
    if key !in s.store.table {
      var a := Entry(entries[key], now);
      ViewPut(won, key, a);
      ViewKeys(won);
      LoadPut(View(won), key, Slot(a.backend, EffectiveWeight(a)));
    }
  }

  lemma WonKeys(t: Table, entries: map<string, BulkAssignEntry>, todo: set<string>, now: int)
    ensures Won(t, entries - todo, now).Keys == entries.Keys - todo - t.Keys
  {
  }

  lemma ViewKeys(t: Table)
    ensures View(t).Keys == t.Keys
  {
  }

  lemma IncrStep(mid: Store, entries: map<string, BulkAssignEntry>, now: int, s: Sys, id: int, b: string)
    requires id in s.procs && s.procs[id].Setting? && b in s.procs[id].pending
    requires SetSoFar(mid, entries, now, s.procs[id], s.store)
    ensures var s' := AfterIncr(s, id, b);
            SetSoFar(mid, entries, now, s'.procs[id], s'.store)
  {
    hide Load, View, Won;
  }

  lemma OwnStep(s0: Store, keys: seq<string>, entries: map<string, BulkAssignEntry>, now: int, mid: Store,
                s: Sys, e: Event, s': Sys, id: int) returns (mid': Store)
    requires Progress(s0, keys, entries, now, mid, s, id) && Own(e, id, now) && Next(s, e, s')
    ensures Progress(s0, keys, entries, now, mid', s', id)
  {
    hide ReadSoFar, SetSoFar, BulkDeleted, Erased;
    mid' := mid;
    match e
    case ReadKey(_) => ReadStep(s0, keys, entries, s, id);
    case Erase(_) =>
      mid' := s'.store;
      EraseStep(s0, keys, entries, now, s, id, s');
    case SetNX(_, key, _) => SetStep(mid, entries, now, s, id, key);
    case Incr(_, b) => IncrStep(mid, entries, now, s, id, b);
  }

  lemma {:induction false} OwnSteps(states: seq<Sys>, events: seq<Event>, id: int, keys: seq<string>,
                                    entries: map<string, BulkAssignEntry>, now: int, i: nat) returns (mid: Store)
    requires Run(states, events) && 0 < i <= |events| && events[0] == Begin(id, keys, entries)
    requires forall j :: 0 < j < i ==> Own(events[j], id, now)
    ensures Progress(states[0].store, keys, entries, now, mid, states[i], id)
  {
    hide Next, Progress;
    if i == 1 {
      assert Next(states[0], events[0], states[1]);
      mid := states[0].store;
      Begun(states[0], id, keys, entries, now, states[1]);
    } else {
      mid := OwnSteps(states, events, id, keys, entries, now, i - 1);
      assert Own(events[i - 1], id, now);
      mid := OwnStep(states[0].store, keys, entries, now, mid, states[i - 1], events[i - 1], states[i], id);
    }
  }

  lemma Begun(s: Sys, id: int, keys: seq<string>, entries: map<string, BulkAssignEntry>, now: int, s': Sys)
    requires Next(s, Begin(id, keys, entries), s')
    ensures Progress(s.store, keys, entries, now, s.store, s', id)
  {
    hide View;
    assert keys[0..] == keys && keys[..0] == [];
  }

  /**
   * From its start to its end without interruption, a process deletes the keys as the bulk delete does and then assigns
   * the entries as the bulk assign does.
   */
  lemma SoloRun(states: seq<Sys>, events: seq<Event>, id: int, keys: seq<string>, entries: map<string, BulkAssignEntry>,
                now: int) returns (mid: Store)
    requires Run(states, events) && |events| > 1
    requires events[0] == Begin(id, keys, entries) && events[|events| - 1] == Finish(id)
    requires forall j :: 0 < j < |events| - 1 ==> Own(events[j], id, now)
    ensures BulkDeleted(states[0].store, keys, mid)
    ensures BulkAssigned(mid, entries, now, states[|events|].store)
  {
    hide Load, View, Won, ReadWeight, BulkDeleted, BulkAssigned, SetSoFar;
    var n := |events| - 1;
    mid := OwnSteps(states, events, id, keys, entries, now, n);
    assert Next(states[n], events[n], states[n + 1]);
    AllSet(mid, entries, now, states[n].store);
  }

  lemma AllSet(mid: Store, entries: map<string, BulkAssignEntry>, now: int, store: Store)
    requires SetSoFar(mid, entries, now, Setting(map[], map[]), store)
    ensures BulkAssigned(mid, entries, now, store)
  {
    hide Load, View, Won;
    var none: map<string, BulkAssignEntry> := map[];
    assert entries - none.Keys == entries;
  }

  // -- Deletes that nobody disturbs ------------------------------------------------------------------

  /** The step may change the assignment of `k`. */
  predicate Touches(s: Sys, e: Event, k: string) {
    (e.Lua? && e.key == k) || (e.SetNX? && e.key == k) || Deletes(s, e, k)
  }

  lemma UntouchedKept(s: Sys, e: Event, s': Sys, k: string)
    requires Next(s, e, s') && !Touches(s, e, k)
    ensures k in s'.store.table <==> k in s.store.table
    ensures k in s.store.table ==> s'.store.table[k] == s.store.table[k]
  {
    hide Drift, ReadSum, View;
  }

  ghost predicate NoRepeats(s: seq<string>) {
    forall i, j :: 0 <= i < j < |s| ==> s[i] != s[j]
  }

  /** What the delete has read is still there, and no key is listed twice. */
  ghost predicate Intact(s: Sys, id: int, keys: seq<string>) {
    && id in s.procs && s.procs[id].Deleting? && |s.procs[id].found| == |s.procs[id].read|
    && NoRepeats(s.procs[id].found + s.procs[id].unread)
    && (forall k :: k in s.procs[id].found + s.procs[id].unread ==> k in keys)
    && (forall i :: 0 <= i < |s.procs[id].found| ==>
                      && s.procs[id].found[i] in s.store.table
                      && View(s.store.table)[s.procs[id].found[i]] == s.procs[id].read[i])
  }

  lemma IntactRead(s: Sys, id: int, keys: seq<string>)
    requires Intact(s, id, keys) && s.procs[id].unread != []
    ensures Intact(AfterReadKey(s, id), id, keys)
  {
    hide View;
    var proc := s.procs[id];
    var k, all := proc.unread[0], proc.found + proc.unread;
    var rest := proc.unread[1..];
    assert all[|proc.found|] == k && all == proc.found + [k] + rest;
    assert NoRepeats(proc.found + rest) by {
      assert forall i :: 0 <= i < |proc.found + rest| ==>
        (proc.found + rest)[i] == all[if i < |proc.found| then i else i + 1];
    }
    assert forall x :: x in proc.found + rest ==> x in all;
  }

  lemma IntactStep(s: Sys, e: Event, s': Sys, id: int, keys: seq<string>)
    requires Intact(s, id, keys) && Next(s, e, s') && e != Erase(id)
    requires forall k :: k in keys ==> !Touches(s, e, k)
    ensures Intact(s', id, keys)
  {
    if e == ReadKey(id) {
      IntactRead(s, id, keys);
    } else {
      OthersKeep(s, e, s', id);
      hide Next, Touches;
      var found := s.procs[id].found;
      forall i | 0 <= i < |found|
        ensures found[i] in s'.store.table && s'.store.table[found[i]] == s.store.table[found[i]]
      {
        assert (found + s.procs[id].unread)[i] == found[i];
        UntouchedKept(s, e, s', found[i]);
      }
    }
  }

  lemma OthersKeep(s: Sys, e: Event, s': Sys, id: int)
    requires id in s.procs && s.procs[id].Deleting? && Next(s, e, s') && e != Erase(id) && e != ReadKey(id)
    ensures id in s'.procs && s'.procs[id] == s.procs[id]
  {
    hide LuaAssigned, Erased, Indexed, View;
  }

  lemma {:induction false} IntactReached(states: seq<Sys>, events: seq<Event>, g: nat, d: nat, id: int)
    requires Run(states, events) && g < d <= |events|
    requires events[g].Begin? && events[g].id == id && NoRepeats(events[g].keys)
    requires forall u :: g < u < d ==> events[u] != Erase(id)
    requires forall u, k :: g < u < d && k in events[g].keys ==> !Touches(states[u], events[u], k)
    ensures Intact(states[d], id, events[g].keys)
  {
    hide Touches, View;
    if d == g + 1 {
      assert Next(states[g], events[g], states[d]);
      assert [] + events[g].keys == events[g].keys;
    } else {
      hide Next, Intact;
      IntactReached(states, events, g, d - 1, id);
      IntactStep(states[d - 1], events[d - 1], states[d], id, events[g].keys);
    }
  }

  /** A delete of distinct keys that nobody touches meanwhile subtracts exactly what it removes. */
  lemma UntouchedDeleteExact(states: seq<Sys>, events: seq<Event>, g: nat, d: nat, id: int, b: string)
    requires Run(states, events) && g < d < |events|
    requires events[g].Begin? && events[g].id == id && NoRepeats(events[g].keys)
    requires events[d] == Erase(id) && forall u :: g < u < d ==> events[u] != Erase(id)
    requires forall u, k :: g < u < d && k in events[g].keys ==> !Touches(states[u], events[u], k)
    ensures Lost(states[d + 1], b) == Lost(states[d], b)
  {
    hide Touches, View, Lost, Overshoot;
    IntactReached(states, events, g, d, id);
    assert Next(states[d], events[d], states[d + 1]);
    hide Next;
    IntactUndisturbed(states[d], id, events[g].keys);
    UndisturbedErase(states[d], id, b);
    LostStep(states[d], events[d], states[d + 1], b);
  }

  lemma IntactUndisturbed(s: Sys, id: int, keys: seq<string>)
    requires Intact(s, id, keys)
    ensures Undisturbed(s, id)
  {
    var found, unread := s.procs[id].found, s.procs[id].unread;
    forall i, j | 0 <= i < j < |found| ensures found[i] != found[j] {
      assert (found + unread)[i] == found[i] && (found + unread)[j] == found[j];
    }
  }
}
