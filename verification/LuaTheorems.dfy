/** The counts hash stands in for a full scan: assign.lua balances true loads. */
module LuaTheorems {
  import opened Basics
  import opened Assignments
  import opened StoreSpec

  /** Removing a stale assignment leaves the load of every active backend alone. */
  lemma StaleLoads(s: Store, key: string, b: string)
    requires key in s.table ==> s.table[key].backend !in s.active
    requires b in s.active
    ensures Load(View(Remove(s, key).table), b) == Load(View(s.table), b)
  {
    hide Load;
    if key in s.table {
      LoadRemove(View(s.table), key);
      ViewMinus(s.table, {key});
    }
  }

  /**
   * An existing assignment to an active backend is returned as is; otherwise an active backend of minimum true
   * load.
   */
  lemma PicksLeastLoaded(s: Store, key: string, now: int, s': Store, r: Option<Assignment>)
    requires Indexed(s) && LuaAssigned(s, key, now, s', r)
    ensures key in s.table && s.table[key].backend in s.active ==> r == Some(s.table[key]) && s' == s
    ensures r.None? <==> s.active == {}
    ensures r.Some? ==> r.value.backend in s.active && key in s'.table && s'.table[key] == r.value
    ensures s'.table - {key} == s.table - {key} && s'.active == s.active
    ensures r.None? ==> key !in s'.table
    ensures r.Some? && (key !in s.table || s.table[key].backend !in s.active) ==>
              r.value.weight == 1 && r.value.assignedAt == now
    ensures key !in s.table || s.table[key].backend !in s.active ==>
              r.Some? ==> forall b :: b in s.active ==> Load(View(s.table), r.value.backend) <= Load(View(s.table), b)
  {
    hide Load;
    if (key !in s.table || s.table[key].backend !in s.active) && r.Some? {
      var d := Remove(s, key);
      RemoveKeepsDrift(s, key);
      forall b | b in s.active ensures Load(View(s.table), b) == Count(d.counts, b) {
        StaleLoads(s, key, b);
        assert Drift(s, b) == 0 && Drift(d, b) == Drift(s, b);
      }
    }
  }

  /** Loads of active backends differ by at most `d`. */
  ghost predicate Spread(s: Store, d: int) {
    forall a, b :: a in s.active && b in s.active ==> Load(View(s.table), a) - Load(View(s.table), b) <= d
  }

  lemma SpreadStep(s: Store, key: string, now: int, s': Store, r: Option<Assignment>, d: int)
    requires Indexed(s) && LuaAssigned(s, key, now, s', r)
    requires d >= 1 && Spread(s, d)
    ensures Indexed(s') && Spread(s', d) && s'.active == s.active
  {
    hide Load, Drift;
    LuaKeepsDrift(s, key, now, s', r);
    PicksLeastLoaded(s, key, now, s', r);
    if s' != s && s.active != {} {
      var m := Remove(s, key);
      forall b | b in s.active
        ensures Load(View(s'.table), b) == Load(View(s.table), b) + if b == r.value.backend then 1 else 0
      {
        StaleLoads(s, key, b);
        ViewPut(m.table, key, r.value);
        LoadPut(View(m.table), key, Slot(r.value.backend, 1));
      }
    }
  }

  ghost predicate AssignRun(states: seq<Store>, keys: seq<string>, times: seq<int>, replies: seq<Option<Assignment>>) {
    && |states| == |keys| + 1 && |times| == |keys| && |replies| == |keys|
    && forall i :: 0 <= i < |keys| ==> LuaAssigned(states[i], keys[i], times[i], states[i + 1], replies[i])
  }

  /** Over any run of assigns on a fixed active set, max - min load stays within max(initial spread, 1). */
  lemma {:induction false} SpreadBounded(states: seq<Store>, keys: seq<string>, times: seq<int>,
                                         replies: seq<Option<Assignment>>, d: int, i: nat)
    requires AssignRun(states, keys, times, replies) && i <= |keys|
    requires Indexed(states[0]) && Spread(states[0], d) && d >= 1
    ensures Indexed(states[i]) && Spread(states[i], d) && states[i].active == states[0].active
  {
    hide Indexed, Spread, LuaAssigned;
    if i > 0 {
      SpreadBounded(states, keys, times, replies, d, i - 1);
      SpreadStep(states[i - 1], keys[i - 1], times[i - 1], states[i], replies[i - 1], d);
    }
  }
}
