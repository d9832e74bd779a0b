/** An operation on the Redis store is never blocked by others and ends after boundedly many commands of its own. */
module StoreProgress {
  import opened Basics
  import opened Assignments
  import opened StoreSpec
  import opened StoreRuns

  /** The event is a command of operation `id`. */
  predicate Of(e: Event, id: int) {
    !e.Lua? && !e.AddBackend? && !e.RemoveBackend? && e.id == id
  }

  /** The counts after one decrement per slot read. */
  function Subtracted(counts: Counts, read: seq<Slot>): Counts {
    if read == [] then counts else
      var last := read[|read| - 1];
      IncrBy(Subtracted(counts, read[..|read| - 1]), last.backend, 0 - last.weight)
  }

  lemma {:induction false} SubtractedIs(counts: Counts, read: seq<Slot>, b: string)
    ensures Count(Subtracted(counts, read), b) == Count(counts, b) - ReadSum(read, b)
  {
    if read != [] {
      SubtractedIs(counts, read[..|read| - 1], b);
    }
  }

  lemma CanErase(s: Sys, id: int) returns (s': Sys)
    requires id in s.procs && s.procs[id].Deleting? && s.procs[id].unread == []
    ensures Next(s, Erase(id), s')
  {
    var proc := s.procs[id];
    s' := Sys(Store(s.store.table - Elems(proc.found), Subtracted(s.store.counts, proc.read), s.store.active),
              s.procs[id := Setting(proc.entries, map[])]);
    forall b ensures Count(s'.store.counts, b) == Count(s.store.counts, b) - ReadSum(proc.read, b) {
      SubtractedIs(s.store.counts, proc.read, b);
    }
  }

  /** Whatever state the others have left behind, an operation in flight has a command to issue. */
  lemma NeverBlocked(s: Sys, id: int) returns (e: Event, s': Sys)
    requires id in s.procs
    ensures Of(e, id) && Next(s, e, s')
  {
    match s.procs[id]
    case Deleting(unread, found, read, entries) =>
      if unread == [] {
        e := Erase(id);
        s' := CanErase(s, id);
      } else {
        e, s' := ReadKey(id), AfterReadKey(s, id);
      }
    case Setting(todo, pending) =>
      if k :| k in todo {
        e, s' := SetNX(id, k, 0), AfterSetNX(s, id, k, 0);
      } else {
        assert todo == map[];
        if b :| b in pending {
          e, s' := Incr(id, b), AfterIncr(s, id, b);
        } else {
          assert pending == map[];
          e, s' := Finish(id), s.(procs := s.procs - {id});
        }
      }
    case Reconciling(sums) =>
      e, s' := Rewrite(id), s.(store := s.store.(counts := sums), procs := s.procs - {id});
  }

  lemma {:induction false} LeastExists(counts: Counts, active: set<string>) returns (b: string)
    requires active != {}
    ensures b in active && forall x :: x in active ==> Count(counts, b) <= Count(counts, x)
  {
    var a :| a in active;
    b := a;
    if active != {a} {
      var least := LeastExists(counts, active - {a});
      if Count(counts, least) < Count(counts, a) {
        b := least;
      }
    }
  }

  /** An on-demand assign is answered in every state, whatever is in flight. */
  lemma AlwaysAnswered(s: Sys, key: string, now: int) returns (r: Option<Assignment>, s': Sys)
    ensures Next(s, Lua(key, now, r), s')
    ensures r.None? <==> s.store.active == {}
  {
    var store := s.store;
    if key in store.table && store.table[key].backend in store.active {
      r, s' := Some(store.table[key]), s;
    } else if store.active == {} {
      r, s' := None, s.(store := Remove(store, key));
    } else {
      var d := Remove(store, key);
      var b := LeastExists(d.counts, store.active);
      r := Some(Assignment(b, now, "assignment", 1));
      s' := s.(store := Insert(d, key, r.value));
    }
  }

  // -- How long an operation takes ---------------------------------------------------------------------------

  /** The most commands an operation can still issue. */
  function Remaining(proc: Proc): nat {
    match proc
    case Deleting(unread, _, _, entries) => |unread| + 2 * |entries.Keys| + 2
    case Setting(todo, pending) => 2 * |todo.Keys| + |pending.Keys| + 1
    case Reconciling(_) => 1
  }

  function RemainingOf(s: Sys, id: int): nat {
    if id in s.procs then Remaining(s.procs[id]) else 0
  }

  lemma LessKeys<V>(m: map<string, V>, k: string)
    requires k in m
    ensures |(m - {k}).Keys| == |m.Keys| - 1
  {
    assert (m - {k}).Keys == m.Keys - {k};
  }

  lemma MoreKeys(m: Counts, k: string, v: int)
    ensures |m[k := v].Keys| <= |m.Keys| + 1
  {
    assert m[k := v].Keys == m.Keys + {k};
  }

  lemma SetRemaining(s: Sys, id: int, key: string, now: int)
    requires id in s.procs && s.procs[id].Setting? && key in s.procs[id].todo
    ensures RemainingOf(AfterSetNX(s, id, key, now), id) < RemainingOf(s, id)
  {
    var (todo, pending) := (s.procs[id].todo, s.procs[id].pending);
    LessKeys(todo, key);
    MoreKeys(pending, todo[key].backend, Count(pending, todo[key].backend) + Normal(todo[key].weight));
  }

  /** A command of an operation brings its end nearer; other commands do not touch it. */
  lemma RemainingStep(s: Sys, e: Event, s': Sys, id: int)
    requires Next(s, e, s') && id in s.procs
    ensures if Of(e, id) then RemainingOf(s', id) < RemainingOf(s, id)
            else id in s'.procs && s'.procs[id] == s.procs[id]
  {
    hide LuaAssigned, Erased, Indexed, View;
    if Of(e, id) {
      if e.SetNX? {
        SetRemaining(s, id, e.key, e.now);
      } else if e.Incr? {
        LessKeys(s.procs[id].pending, e.backend);
      }
    }
  }

  function CountOf(events: seq<Event>, id: int): nat {
    if events == [] then 0 else CountOf(events[..|events| - 1], id) + if Of(events[|events| - 1], id) then 1 else 0
  }

  /** Among the commands of any others, an operation issues at most as many as remained when it was begun. */
  lemma {:induction false} OperationEnds(states: seq<Sys>, events: seq<Event>, g: nat, j: nat, id: int)
    requires Run(states, events) && g <= j <= |events|
    requires forall u :: g <= u <= j ==> id in states[u].procs
    ensures CountOf(events[g..j], id) + RemainingOf(states[j], id) <= RemainingOf(states[g], id)
  {
    hide Next, RemainingOf;
    if g == j {
      assert events[g..j] == [];
    } else {
      var n := j - 1;
      OperationEnds(states, events, g, n, id);
      assert events[g..j][..|events[g..j]| - 1] == events[g..n];
      assert events[g..j][|events[g..j]| - 1] == events[n];
      RemainingStep(states[n], events[n], states[j], id);
      SameRemaining(states[n], states[j], id);
    }
  }

  lemma SameRemaining(s: Sys, s': Sys, id: int)
    requires id in s.procs && id in s'.procs
    ensures s'.procs[id] == s.procs[id] ==> RemainingOf(s', id) == RemainingOf(s, id)
  {
  }

  /** So a move of `n` keys ends within n + 2m + 2 commands, where m is the number of entries it assigns. */
  lemma MoveEnds(states: seq<Sys>, events: seq<Event>, g: nat, j: nat, id: int)
    requires Run(states, events) && g < j <= |events| && events[g].Begin? && events[g].id == id
    requires forall u :: g < u <= j ==> id in states[u].procs
    ensures CountOf(events[g + 1..j], id) < |events[g].keys| + 2 * |events[g].entries.Keys| + 2
  {
    hide CountOf;
    assert Next(states[g], events[g], states[g + 1]);
    OperationEnds(states, events, g + 1, j, id);
    assert RemainingOf(states[j], id) >= 1;
  }
}
