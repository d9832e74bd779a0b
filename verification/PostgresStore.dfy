/** The PostgreSQL store, as committed transactions. */
module PostgresStore {
  import opened Basics
  import Sums
  import opened Assignments
  import opened StoreSpec

  /** Rows of `backends`, `assignments` and `assignment_counts`. */
  datatype Pg = Pg(backends: map<string, bool>, table: Table, totals: Counts)

  function Healthy(s: Pg): set<string> {
    set b | b in s.backends && s.backends[b]
  }

  /** Healthy backends with a counts row: the rows AssignLeastLoaded can pick. */
  function Candidates(s: Pg): set<string> {
    set b | b in s.totals && b in s.backends && s.backends[b]
  }

  /** UPDATE assignment_counts only touches existing rows. */
  function Updated(totals: Counts, delta: Counts, sign: int): Counts {
    map b | b in totals :: totals[b] + sign * Count(delta, b)
  }

  /** Every stored weight is at least one. */
  ghost predicate StoredWeights(s: Pg) {
    forall k :: k in s.table ==> s.table[k].weight >= 1
  }

  /** Every counts row equals the weight sum of its backend. */
  ghost predicate TotalsExact(s: Pg) {
    forall b :: b in s.totals ==> s.totals[b] == Load(View(s.table), b)
  }

  /** Every backend in use has a counts row. */
  ghost predicate RowsKnown(s: Pg) {
    forall k :: k in s.table ==> s.table[k].backend in s.totals
  }

  /** `b` is a candidate of least total, other than the rows in `skip`. */
  ghost predicate Least(s: Pg, skip: set<string>, b: string) {
    b in Candidates(s) - skip && forall x :: x in Candidates(s) - skip ==> s.totals[b] <= s.totals[x]
  }

  /** What follows once row `b` is locked: a row that stopped qualifying meanwhile is no row at all. */
  ghost predicate Inserts(s: Pg, key: string, now: int, b: string, s': Pg, r: Option<Assignment>) {
    if b !in Candidates(s) then s' == s && r == None
    else if key in s.table then s' == s && r == Some(s.table[key])
    else
      && r == Some(Assignment(b, now, "assignment", 1))
      && s' == s.(table := s.table[key := r.value], totals := IncrBy(s.totals, b, 1))
  }

  /**
   * One AssignLeastLoaded. `skip` are the rows other transactions have locked; if those are all, the second query
   * orders the rows as it saw them before it waited, in `seen`.
   */
  ghost predicate Assigns(s: Pg, key: string, now: int, skip: set<string>, seen: Pg, s': Pg, r: Option<Assignment>) {
    if Candidates(s) - skip != {} then
      exists b :: Least(s, skip, b) && Inserts(s, key, now, b, s', r)
    else if Candidates(seen) != {} then
      exists b :: Least(seen, {}, b) && Inserts(s, key, now, b, s', r)
    else
      s' == s && r == None
  }

  // -- Sums of the weights as they are stored -----------------------------------------------

  ghost function StoredOn(t: Table, b: string): map<string, int> {
    map k | k in t :: if t[k].backend == b then t[k].weight else 0
  }

  /** SUM(weight) of the rows of a backend. */
  ghost function StoredSum(t: Table, b: string): int {
    Sums.Sum(StoredOn(t, b))
  }

  lemma StoredSumPut(t: Table, k: string, a: Assignment, b: string)
    requires k !in t
    ensures StoredSum(t[k := a], b) == StoredSum(t, b) + if a.backend == b then a.weight else 0
  {
    var w := if a.backend == b then a.weight else 0;
    Sums.SumPut(StoredOn(t, b), k, w);
    assert StoredOn(t, b) - {k} == StoredOn(t, b);
    assert StoredOn(t[k := a], b) == StoredOn(t, b)[k := w];
  }

  /** Stored weights of at least one sum up to the load. */
  lemma StoredSumIsLoad(t: Table, b: string)
    requires forall k :: k in t ==> t[k].weight >= 1
    ensures StoredSum(t, b) == Load(View(t), b)
  {
    assert StoredOn(t, b) == Shares(View(t), iset{b});
  }

  lemma StoredSumEmpty(b: string)
    ensures StoredSum(map[], b) == 0
  {
    assert StoredOn(map[], b) == map[];
  }

  /** The rows a delete returns. */
  function Deleted(t: Table, keys: seq<string>): Table {
    map k | k in t && k in keys :: t[k]
  }

  // -- The transactions -----------------------------------------------------------------------

  ghost predicate BulkAssigns(s: Pg, entries: map<string, BulkAssignEntry>, now: int, s': Pg) {
    var won := Won(s.table, entries, now);
    && s'.backends == s.backends && s'.table == s.table + won
    && s'.totals.Keys == s.totals.Keys
    && forall b :: b in s.totals ==> s'.totals[b] == s.totals[b] + Load(View(won), b)
  }

  ghost predicate BulkDeletes(s: Pg, keys: seq<string>, s': Pg) {
    && s'.backends == s.backends && s'.table == s.table - Elems(keys)
    && s'.totals.Keys == s.totals.Keys
    && forall b :: b in s.totals ==> s'.totals[b] == s.totals[b] - StoredSum(Deleted(s.table, keys), b)
  }

  function Adds(s: Pg, b: string): Pg {
    s.(backends := s.backends[b := true], totals := if b in s.totals then s.totals else s.totals[b := 0])
  }

  function Removes(s: Pg, b: string): Pg {
    if b in s.backends then s.(backends := s.backends[b := false]) else s
  }

  /** The weight per backend over the returned rows, visited in some order. */
  method SumRows(rows: Table) returns (delta: Counts)
    ensures forall b :: Count(delta, b) == StoredSum(rows, b)
  {
    hide StoredSum;
    delta := map[];
    var todo := rows.Keys;
    assert rows - todo == map[];
    forall b ensures Count(delta, b) == StoredSum(rows - todo, b) { StoredSumEmpty(b); }
    while todo != {}
      invariant todo <= rows.Keys
      invariant forall b :: Count(delta, b) == StoredSum(rows - todo, b)
    {
      var key :| key in todo;
      var a := rows[key];
      assert rows - (todo - {key}) == (rows - todo)[key := a];
      forall b
        ensures StoredSum(rows - (todo - {key}), b)
                == StoredSum(rows - todo, b) + if a.backend == b then a.weight else 0
      {
        StoredSumPut(rows - todo, key, a, b);
      }
      todo := todo - {key};
      delta := IncrBy(delta, a.backend, a.weight);
    }
    assert rows - todo == rows;
  }

  class PostgresStore {
    var backends: map<string, bool>
    var assignments: Table
    var totals: Counts

    constructor ()
      ensures State() == Pg(map[], map[], map[])
    {
      backends, assignments, totals := map[], map[], map[];
    }

    ghost function State(): Pg
      reads this
    {
      Pg(backends, assignments, totals)
    }

    method AssignLeastLoaded(key: string, now: int, skip: set<string>, seen: Pg) returns (r: Option<Assignment>)
      modifies this
      ensures Assigns(old(State()), key, now, skip, seen, State(), r)
      ensures key in old(assignments) ==> State() == old(State()) && (r.Some? ==> r.value == old(assignments)[key])
      ensures if r.Some? then key in assignments && assignments[key] == r.value else State() == old(State())
      ensures (exists b :: b in old(totals) && b !in skip && b in old(backends) && old(backends)[b]) ==> r.Some?
    {
      var here := Pg(backends, assignments, totals);
      assert forall b :: b in totals && b !in skip && b in backends && backends[b] ==> b in Candidates(here) - skip;
      var backend: string;
      if Candidates(here) - skip != {} {
        backend := LeastTotal(here, skip);
      } else if Candidates(seen) != {} {
        assert Candidates(seen) - {} == Candidates(seen);
        backend := LeastTotal(seen, {});
      } else {
        return None;
      }
      if !(backend in totals && backend in backends && backends[backend]) {
        return None;
      }
      if key in assignments {
        return Some(assignments[key]);
      }
      var a := Assignment(backend, now, "assignment", 1);
      assignments := assignments[key := a];
      totals := IncrBy(totals, backend, 1);
      r := Some(a);
    }

    /** ORDER BY total_weight ASC LIMIT 1. */
    static method LeastTotal(s: Pg, skip: set<string>) returns (best: string)
      requires Candidates(s) - skip != {}
      ensures Least(s, skip, best)
    {
      var pool := Candidates(s) - skip;
      best :| best in pool;
      var todo := pool - {best};
      while todo != {}
        invariant todo <= pool && best in pool
        invariant forall b :: b in pool - todo ==> s.totals[best] <= s.totals[b]
      {
        var b :| b in todo;
        todo := todo - {b};
        if s.totals[b] < s.totals[best] {
          best := b;
        }
      }
    }

    /** One UPDATE per backend with a delta, in some order. */
    method UpdateTotals(delta: Counts, sign: int)
      modifies this`totals
      ensures totals == Updated(old(totals), delta, sign)
    {
      var todo := delta.Keys;
      while todo != {}
        invariant todo <= delta.Keys && totals.Keys == old(totals).Keys
        invariant forall b :: b in totals ==>
                  totals[b] == old(totals)[b] + if b in todo then 0 else sign * Count(delta, b)
      {
        var b :| b in todo;
        todo := todo - {b};
        if b in totals {
          totals := totals[b := totals[b] + sign * delta[b]];
        }
      }
      assert totals == Updated(old(totals), delta, sign);
    }

    method BulkAssign(entries: map<string, BulkAssignEntry>, now: int) returns (placed: map<string, string>)
      modifies this
      ensures BulkAssigns(old(State()), entries, now, State())
      ensures placed == map k | k in Won(old(assignments), entries, now) ::
              Won(old(assignments), entries, now)[k].backend
      ensures SetIfAbsent(old(assignments), entries, now, assignments)
    {
      hide Load, StoredSum;
      var rows := Won(assignments, entries, now);
      WonIsSet(assignments, entries, now);
      hide SetIfAbsent;
      assignments := assignments + rows;
      placed := map k | k in rows :: rows[k].backend;
      var delta := SumRows(rows);
      forall b ensures StoredSum(rows, b) == Load(View(rows), b) { StoredSumIsLoad(rows, b); }
      UpdateTotals(delta, 1);
    }

    method BulkDeleteAssignments(keys: seq<string>)
      modifies this
      ensures BulkDeletes(old(State()), keys, State())
    {
      hide StoredSum;
      var rows := Deleted(assignments, keys);
      assignments := assignments - Elems(keys);
      var delta := SumRows(rows);
      UpdateTotals(delta, -1);
    }

    method AddBackend(backend: string)
      modifies this
      ensures State() == Adds(old(State()), backend)
    {
      backends := backends[backend := true];
      if backend !in totals {
        totals := totals[backend := 0];
      }
    }

    method RemoveBackend(backend: string)
      modifies this
      ensures State() == Removes(old(State()), backend)
    {
      if backend in backends {
        backends := backends[backend := false];
      }
    }

    /** The start-up rebuild: counts rows of healthy backends are recomputed from the table. */
    method Migrate()
      modifies this`totals
      ensures totals.Keys == old(totals).Keys + Healthy(State())
      ensures forall b :: b in Healthy(State()) ==> totals[b] == StoredSum(assignments, b)
      ensures forall b :: b in old(totals) && b !in Healthy(State()) ==> totals[b] == old(totals)[b]
    {
      hide StoredSum;
      var sums := SumRows(assignments);
      var healthy := set b | b in backends && backends[b];
      totals := totals + map b | b in healthy :: Count(sums, b);
    }
  }

  lemma RemovedRows(t: Table, keys: seq<string>, rows: Table)
    requires rows == Deleted(t, keys)
    ensures forall b :: Load(View(rows), b) == Removed(View(t), keys, b)
  {
    hide Load;
    var left := t - Elems(keys);
    assert t == left + rows;
    assert View(t) == View(left) + View(rows);
    assert View(left) == View(t) - Elems(keys);
    forall b ensures Load(View(rows), b) == Removed(View(t), keys, b) {
      LoadUnion(View(left), View(rows), b);
    }
  }

  // -- Invariants of every committed transaction ------------------------------------------------

  ghost predicate Inv(s: Pg) {
    StoredWeights(s) && TotalsExact(s) && RowsKnown(s)
  }

  /**
   * AssignLeastLoaded keeps the totals exact. A new assignment goes to a healthy backend with a counts row, and to one
   * of minimum true load if no row was locked, or if all were and nothing changed while it waited.
   */
  lemma AssignKeepsTotals(s: Pg, key: string, now: int, skip: set<string>, seen: Pg, s': Pg, r: Option<Assignment>)
    requires TotalsExact(s) && Assigns(s, key, now, skip, seen, s', r)
    ensures TotalsExact(s') && s'.totals.Keys == s.totals.Keys && s'.backends == s.backends
    ensures StoredWeights(s) ==> StoredWeights(s')
    ensures RowsKnown(s) ==> RowsKnown(s')
    ensures r.Some? && key !in s.table ==> r.value.backend in Healthy(s)
    ensures r.Some? && key !in s.table && (skip == {} || (Candidates(s) <= skip && seen == s)) ==>
              forall b :: b in Candidates(s) ==> Load(View(s.table), r.value.backend) <= Load(View(s.table), b)
  {
    hide Load, Candidates;
    if s' != s {
      CandidateFacts(s, r.value.backend);
      InsertKeepsTotals(s, key, r.value, s');
    }
    if r.Some? && key !in s.table {
      var b := r.value.backend;
      assert b in Candidates(s);
      CandidateFacts(s, b);
      assert Candidates(s) - {} == Candidates(s);
      forall x | x in Candidates(s) ensures x in s.totals { CandidateFacts(s, x); }
    }
  }

  /**
   * What AssignLeastLoaded answers. An assigned key keeps its assignment and gets no other answer; a new assignment is
   * recorded as answered; nothing changes without an answer; and with some qualifying row unlocked there is always one.
   */
  lemma AssignReplies(s: Pg, key: string, now: int, skip: set<string>, seen: Pg, s': Pg, r: Option<Assignment>)
    requires Assigns(s, key, now, skip, seen, s', r)
    ensures key in s.table ==> s' == s && (r.Some? ==> r.value == s.table[key])
    ensures r.None? ==> s' == s
    ensures r.Some? ==> key in s'.table && s'.table[key] == r.value && s'.table - {key} == s.table - {key}
    ensures r.Some? && key !in s.table ==> r.value.weight == 1 && r.value.assignedAt == now
    ensures (exists b :: b in s.totals && b !in skip && b in s.backends && s.backends[b]) ==> r.Some?
    ensures skip == {} ==> (r.None? <==> forall b :: b in s.totals ==> !(b in s.backends && s.backends[b]))
  {
    if b :| b in s.totals && b !in skip && b in s.backends && s.backends[b] {
      assert b in Candidates(s) - skip;
    }
    if r.Some? && key !in s.table {
      assert s'.table == s.table[key := r.value];
    }
    assert skip == {} ==> Candidates(s) - skip == Candidates(s);
  }

  lemma CandidateFacts(s: Pg, b: string)
    requires b in Candidates(s)
    ensures b in s.totals && b in Healthy(s)
  {
  }

  lemma InsertKeepsTotals(s: Pg, key: string, a: Assignment, s': Pg)
    requires TotalsExact(s) && key !in s.table && a.weight == 1 && a.backend in s.totals
    requires s' == s.(table := s.table[key := a], totals := IncrBy(s.totals, a.backend, 1))
    ensures TotalsExact(s') && s'.totals.Keys == s.totals.Keys
  {
    hide Load;
    ViewPut(s.table, key, a);
    LoadPut(View(s.table), key, Slot(a.backend, 1));
  }

  /** A bulk assign keeps the totals exact, whatever its targets. */
  lemma BulkAssignKeepsTotals(s: Pg, entries: map<string, BulkAssignEntry>, now: int, s': Pg)
    requires TotalsExact(s) && BulkAssigns(s, entries, now, s')
    ensures TotalsExact(s')
    ensures StoredWeights(s) ==> StoredWeights(s')
  {
    hide Load, View;
    var won := Won(s.table, entries, now);
    ViewUnion(s.table, won);
    forall b | b in s'.totals ensures s'.totals[b] == Load(View(s'.table), b) {
      LoadUnion(View(s.table), View(won), b);
    }
  }

  /** Afterwards every backend in use has a counts row if and only if the targets that were written have one. */
  lemma BulkAssignRowsIff(s: Pg, entries: map<string, BulkAssignEntry>, now: int, s': Pg)
    requires RowsKnown(s) && BulkAssigns(s, entries, now, s')
    ensures RowsKnown(s') <==> forall k :: k in entries && k !in s.table ==> entries[k].backend in s.totals
  {
    hide Load;
    var won := Won(s.table, entries, now);
    if RowsKnown(s') {
      forall k | k in entries && k !in s.table ensures entries[k].backend in s.totals {
        assert k in won && s'.table[k] == won[k];
      }
    }
  }

  /** A bulk delete keeps the totals exact for any list of keys. */
  lemma BulkDeleteKeepsTotals(s: Pg, keys: seq<string>, s': Pg)
    requires TotalsExact(s) && StoredWeights(s) && BulkDeletes(s, keys, s')
    ensures TotalsExact(s') && StoredWeights(s')
    ensures RowsKnown(s) ==> RowsKnown(s')
  {
    hide Load, StoredSum;
    var rows := Deleted(s.table, keys);
    ViewMinus(s.table, Elems(keys));
    RemovedRows(s.table, keys, rows);
    forall b ensures StoredSum(rows, b) == Load(View(rows), b) { StoredSumIsLoad(rows, b); }
  }

  /** Adding a backend keeps the totals exact if and only if it has a counts row already or carries no weight. */
  lemma AddKeepsTotalsIff(s: Pg, b: string)
    requires TotalsExact(s)
    ensures TotalsExact(Adds(s, b)) <==> b in s.totals || Load(View(s.table), b) == 0
  {
    hide Load;
    if b !in s.totals {
      assert Adds(s, b).totals[b] == 0;
    }
  }

  /** A bulk assign to a backend that was never added, and then adding it: the new counts row starts at zero. */
  lemma LateAddBreaksTotals(k: string, b: string, w: int, now: int) returns (s: Pg)
    ensures BulkAssigns(Pg(map[], map[], map[]), map[k := BulkAssignEntry(b, w)], now, s)
    ensures TotalsExact(s) && !TotalsExact(Adds(s, b))
  {
    hide Load;
    var a := Entry(BulkAssignEntry(b, w), now);
    s := Pg(map[], map[k := a], map[]);
    var none: Table := map[];
    assert none + Won(none, map[k := BulkAssignEntry(b, w)], now) == s.table;
    assert k in s.table && View(s.table)[k].backend == b;
    LoadAtLeast(View(s.table), k);
    AddKeepsTotalsIff(s, b);
  }

  lemma AddKeepsInv(s: Pg, b: string)
    requires Inv(s)
    ensures Inv(Adds(s, b))
  {
    hide Load;
    if b !in s.totals {
      LoadZero(View(s.table), b);
    }
  }

  // -- Every committed run -------------------------------------------------------------------------

  /** A committed transaction: an on-demand assign with what it saw of other transactions, or one of the others. */
  datatype Transaction =
    | OnDemand(key: string, now: int, skip: set<string>, seen: Pg, r: Option<Assignment>)
    | Other(op: Op)

  ghost predicate Commits(s: Pg, t: Transaction, s': Pg) {
    match t
    case OnDemand(key, now, skip, seen, r) => Assigns(s, key, now, skip, seen, s', r)
    case Other(op) => PgStep(s, op, s')
  }

  ghost predicate CommittedRun(states: seq<Pg>, ts: seq<Transaction>) {
    && |states| == |ts| + 1 && states[0] == Pg(map[], map[], map[])
    && forall i :: 0 <= i < |ts| ==> Commits(states[i], ts[i], states[i + 1])
  }

  /** The transaction does not add a backend that carries weight already but has no counts row. */
  ghost predicate AddsInTime(s: Pg, t: Transaction) {
    t.Other? && t.op.Add? ==> t.op.backend in s.totals || Load(View(s.table), t.op.backend) == 0
  }

  lemma CommitStep(s: Pg, t: Transaction, s': Pg)
    requires TotalsExact(s) && StoredWeights(s) && Commits(s, t, s')
    ensures StoredWeights(s')
    ensures TotalsExact(s') <==> AddsInTime(s, t)
  {
    hide TotalsExact, StoredWeights, Assigns, BulkAssigns, BulkDeletes, Load;
    match t
    case OnDemand(key, now, skip, seen, r) => AssignKeepsTotals(s, key, now, skip, seen, s', r);
    case Other(op) =>
      match op
      case Bulk(entries, now) => BulkAssignKeepsTotals(s, entries, now, s');
      case Delete(keys) => BulkDeleteKeepsTotals(s, keys, s');
      case Add(b) =>
        AddKeepsTotalsIff(s, b);
        SameTable(s, s');
      case Drop(b) => SameTable(s, s');
  }

  lemma SameTable(s: Pg, s': Pg)
    requires s'.table == s.table
    ensures StoredWeights(s) ==> StoredWeights(s')
    ensures s'.totals == s.totals && TotalsExact(s) ==> TotalsExact(s')
  {
  }

  lemma {:induction false} ExactWhileInTime(states: seq<Pg>, ts: seq<Transaction>, i: nat)
    requires CommittedRun(states, ts) && i <= |ts|
    requires forall j :: 0 <= j < i ==> AddsInTime(states[j], ts[j])
    ensures TotalsExact(states[i]) && StoredWeights(states[i])
  {
    hide TotalsExact, StoredWeights, Commits, AddsInTime;
    if i == 0 {
      EmptyExact();
    } else {
      ExactWhileInTime(states, ts, i - 1);
      assert AddsInTime(states[i - 1], ts[i - 1]);
      CommitStep(states[i - 1], ts[i - 1], states[i]);
    }
  }

  lemma EmptyExact()
    ensures TotalsExact(Pg(map[], map[], map[])) && StoredWeights(Pg(map[], map[], map[]))
  {
  }

  /**
   * Over every run of all transactions the totals are exact after every commit if and only if backends are added in
   * time.
   */
  lemma TotalsExactIff(states: seq<Pg>, ts: seq<Transaction>)
    requires CommittedRun(states, ts)
    ensures (forall i :: 0 <= i < |states| ==> TotalsExact(states[i])) <==>
            (forall i :: 0 <= i < |ts| ==> AddsInTime(states[i], ts[i]))
  {
    hide TotalsExact, Commits, AddsInTime;
    if forall i :: 0 <= i < |ts| ==> AddsInTime(states[i], ts[i]) {
      forall i | 0 <= i < |states| ensures TotalsExact(states[i]) {
        ExactWhileInTime(states, ts, i);
      }
    } else {
      var i := FirstLate(states, ts, |ts|);
      ExactWhileInTime(states, ts, i);
      CommitStep(states[i], ts[i], states[i + 1]);
    }
  }

  lemma {:induction false} FirstLate(states: seq<Pg>, ts: seq<Transaction>, n: nat) returns (i: nat)
    requires n <= |ts| < |states| && exists j :: 0 <= j < n && !AddsInTime(states[j], ts[j])
    ensures i < n && !AddsInTime(states[i], ts[i]) && forall j :: 0 <= j < i ==> AddsInTime(states[j], ts[j])
  {
    hide AddsInTime;
    if exists j :: 0 <= j < n - 1 && !AddsInTime(states[j], ts[j]) {
      i := FirstLate(states, ts, n - 1);
    } else {
      i := n - 1;
    }
  }

  /** The transaction deletes the key. */
  predicate DeletesKey(t: Transaction, key: string) {
    t.Other? && t.op.Delete? && key in t.op.keys
  }

  lemma KeyKept(s: Pg, t: Transaction, s': Pg, key: string)
    requires Commits(s, t, s') && key in s.table && !DeletesKey(t, key)
    ensures key in s'.table && s'.table[key] == s.table[key]
  {
    hide Load, StoredSum;
    if t.OnDemand? {
      AssignReplies(s, t.key, t.now, t.skip, t.seen, s', t.r);
      assert t.key != key ==> key in s'.table - {t.key} || s' == s;
    }
  }

  /** Over every run an assigned key keeps its assignment until a delete lists it. */
  lemma {:induction false} AssignmentKept(states: seq<Pg>, ts: seq<Transaction>, i: nat, j: nat, key: string)
    requires CommittedRun(states, ts) && i <= j <= |ts| && key in states[i].table
    requires forall n :: i <= n < j ==> !DeletesKey(ts[n], key)
    ensures key in states[j].table && states[j].table[key] == states[i].table[key]
  {
    hide Commits;
    if i < j {
      AssignmentKept(states, ts, i, j - 1, key);
      KeyKept(states[j - 1], ts[j - 1], states[j], key);
    }
  }

  /** So all replies for a key are the same until a delete lists it. */
  lemma RepliesAgree(states: seq<Pg>, ts: seq<Transaction>, i: nat, j: nat, key: string)
    requires CommittedRun(states, ts) && i < j < |ts| && ts[i].OnDemand? && ts[j].OnDemand?
    requires ts[i].key == key == ts[j].key && ts[i].r.Some? && ts[j].r.Some?
    requires forall n :: i < n < j ==> !DeletesKey(ts[n], key)
    ensures ts[j].r == ts[i].r
  {
    hide Assigns;
    var s, t := ts[i], ts[j];
    assert Commits(states[i], s, states[i + 1]) && Commits(states[j], t, states[j + 1]);
    AssignReplies(states[i], key, s.now, s.skip, s.seen, states[i + 1], s.r);
    AssignReplies(states[j], key, t.now, t.skip, t.seen, states[j + 1], t.r);
    AssignmentKept(states, ts, i + 1, j, key);
  }

  // -- Redis and PostgreSQL refine one specification ------------------------------------------------

  datatype Op =
    | Bulk(entries: map<string, BulkAssignEntry>, now: int)
    | Delete(keys: seq<string>)
    | Add(backend: string)
    | Drop(backend: string)

  /** Set-if-absent and delete, on the table and the active set. */
  function Spec(t: Table, active: set<string>, op: Op): (Table, set<string>) {
    match op
    case Bulk(entries, now) => (t + Won(t, entries, now), active)
    case Delete(keys) => (t - Elems(keys), active)
    case Add(b) => (t, active + {b})
    case Drop(b) => (t, active - {b})
  }

  function SpecRun(ops: seq<Op>): (Table, set<string>) {
    if ops == [] then (map[], {}) else
      var (t, active) := SpecRun(ops[..|ops| - 1]);
      Spec(t, active, ops[|ops| - 1])
  }

  ghost predicate RedisStep(s: Store, op: Op, s': Store) {
    match op
    case Bulk(entries, now) => BulkAssigned(s, entries, now, s')
    case Delete(keys) => BulkDeleted(s, keys, s')
    case Add(b) => s' == s.(active := s.active + {b})
    case Drop(b) => s' == s.(active := s.active - {b})
  }

  ghost predicate PgStep(s: Pg, op: Op, s': Pg) {
    match op
    case Bulk(entries, now) => BulkAssigns(s, entries, now, s')
    case Delete(keys) => BulkDeletes(s, keys, s')
    case Add(b) => s' == Adds(s, b)
    case Drop(b) => s' == Removes(s, b)
  }

  /** Targets were added before, and deletes list distinct keys. */
  ghost predicate Proper(op: Op, added: set<string>) {
    match op
    case Bulk(entries, _) => forall k :: k in entries ==> entries[k].backend in added
    case Delete(keys) => forall i, j :: 0 <= i < j < |keys| ==> keys[i] != keys[j]
    case _ => true
  }

  function Added(ops: seq<Op>): set<string> {
    if ops == [] then {} else
      Added(ops[..|ops| - 1]) + if ops[|ops| - 1].Add? then {ops[|ops| - 1].backend} else {}
  }

  ghost predicate ProperOps(ops: seq<Op>) {
    ops == [] || (ProperOps(ops[..|ops| - 1]) && Proper(ops[|ops| - 1], Added(ops[..|ops| - 1])))
  }

  ghost predicate RedisRun(states: seq<Store>, ops: seq<Op>) {
    && |states| == |ops| + 1 && states[0] == Store(map[], map[], {})
    && forall i :: 0 <= i < |ops| ==> RedisStep(states[i], ops[i], states[i + 1])
  }

  ghost predicate PgRun(states: seq<Pg>, ops: seq<Op>) {
    && |states| == |ops| + 1 && states[0] == Pg(map[], map[], map[])
    && forall i :: 0 <= i < |ops| ==> PgStep(states[i], ops[i], states[i + 1])
  }

  lemma RedisStepSpec(s: Store, op: Op, s': Store, added: set<string>)
    requires RedisStep(s, op, s') && Indexed(s) && Proper(op, added)
    ensures (s'.table, s'.active) == Spec(s.table, s.active, op) && Indexed(s')
  {
    hide Drift;
    match op
    case Bulk(entries, now) => BulkAssignKeepsDrift(s, entries, now, s');
    case Delete(keys) => BulkDeleteIndexIff(s, keys, s');
    case Add(b) => SameTableDrift(s, s');
    case Drop(b) => SameTableDrift(s, s');
  }

  lemma DeleteKeepsInv(s: Pg, keys: seq<string>, s': Pg)
    requires Inv(s) && BulkDeletes(s, keys, s')
    ensures Inv(s')
  {
    hide TotalsExact, StoredWeights, RowsKnown;
    BulkDeleteKeepsTotals(s, keys, s');
  }

  lemma BulkKeepsInv(s: Pg, entries: map<string, BulkAssignEntry>, now: int, s': Pg)
    requires Inv(s) && BulkAssigns(s, entries, now, s') && forall k :: k in entries ==> entries[k].backend in s.totals
    ensures Inv(s')
  {
    BulkAssignKeepsTotals(s, entries, now, s');
    BulkAssignRowsIff(s, entries, now, s');
  }

  lemma PgStepSpec(s: Pg, op: Op, s': Pg)
    requires PgStep(s, op, s') && Inv(s) && Proper(op, s.totals.Keys)
    ensures (s'.table, Healthy(s')) == Spec(s.table, Healthy(s), op) && Inv(s')
    ensures s'.totals.Keys == s.totals.Keys + if op.Add? then {op.backend} else {}
  {
    hide Load, Inv;
    match op
    case Bulk(entries, now) =>
      BulkKeepsInv(s, entries, now, s');
    case Delete(keys) => DeleteKeepsInv(s, keys, s');
    case Add(b) =>
      AddKeepsInv(s, b);
      assert Healthy(s') == Healthy(s) + {b};
    case Drop(b) =>
      SameRows(s, s');
      assert Healthy(s') == Healthy(s) - {b};
  }

  lemma SameRows(s: Pg, s': Pg)
    requires Inv(s) && s'.table == s.table && s'.totals == s.totals
    ensures Inv(s')
  {
  }

  /** Equal operations from empty stores give equal tables and backend sets, and both indexes stay exact. */
  lemma {:induction false} StoresAgree(redis: seq<Store>, pg: seq<Pg>, ops: seq<Op>)
    requires RedisRun(redis, ops) && PgRun(pg, ops) && ProperOps(ops)
    ensures (redis[|ops|].table, redis[|ops|].active) == SpecRun(ops) == (pg[|ops|].table, Healthy(pg[|ops|]))
    ensures Indexed(redis[|ops|]) && Inv(pg[|ops|]) && pg[|ops|].totals.Keys == Added(ops)
  {
    hide Indexed, Inv, RedisStep, PgStep, Proper;
    if ops == [] {
      EmptyIndexed();
      EmptyInv();
      assert Healthy(pg[0]) == {};
    } else {
      var n := |ops| - 1;
      var before := ops[..n];
      assert forall i :: 0 <= i < n ==> before[i] == ops[i];
      StoresAgree(redis[..n + 1], pg[..n + 1], before);
      RedisStepSpec(redis[n], ops[n], redis[n + 1], Added(before));
      PgStepSpec(pg[n], ops[n], pg[n + 1]);
      assert SpecRun(ops) == Spec(redis[n].table, redis[n].active, ops[n]);
    }
  }

  lemma EmptyInv()
    ensures Inv(Pg(map[], map[], map[]))
  {
  }
}
