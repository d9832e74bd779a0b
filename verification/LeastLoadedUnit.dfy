/** With unit weights one least-loaded pass reaches a fixpoint, and the final loads have exact bounds. */
module LeastLoadedUnit {
  import opened Basics
  import opened Assignments
  import opened LeastLoadedPlan
  import opened LeastLoadedTheorems

  ghost predicate Unit(p: Placement) {
    forall k :: k in p ==> p[k].weight == 1
  }

  /** Backends are distinct, and none carries the empty name that the planner reads as "no target". */
  ghost predicate BackendList(active: seq<string>) {
    && active != []
    && (forall i, j :: 0 <= i < j < |active| ==> active[i] != active[j])
    && "" !in active
  }

  /** No active backend is below ideal. */
  ghost predicate Full(p: Placement, active: seq<string>, ideal: int) {
    forall b :: b in active ==> Load(p, b) >= ideal
  }

  lemma {:induction false} FirstLeastExists(p: Placement, active: seq<string>, n: nat) returns (i: nat)
    requires 0 < n <= |active|
    ensures i < n && FirstLeast(p, active[..n], i)
  {
    hide Load;
    if n == 1 {
      i := 0;
    } else {
      i := FirstLeastExists(p, active, n - 1);
      if Load(p, active[n - 1]) < Load(p, active[i]) {
        forall j | 0 <= j < n - 1 ensures Load(p, active[n - 1]) < Load(p, active[j]) {
          assert active[..n - 1][j] == active[j];
        }
        i := n - 1;
      } else {
        forall j | 0 <= j < n - 1 ensures active[..n - 1][j] == active[..n][j] == active[j] {
        }
      }
    }
  }

  /** A user of weight 1 is skipped only when every active backend has reached ideal. */
  lemma SkippedIsFull(p: Placement, active: seq<string>, ideal: int)
    requires BackendList(active)
    ensures Skipped(p, active, ideal, 1) <==> Full(p, active, ideal)
  {
    hide Load;
    if Skipped(p, active, ideal, 1) {
      var i := FirstLeastExists(p, active, |active|);
      assert active[..|active|] == active;
      assert active[i] in active;
      assert IsTarget(p, active, ideal, 1, active[i]) || Load(p, active[i]) >= ideal;
    }
  }

  /**
   * Whatever let a user stay still lets it stay at the end of the pass; once a user is skipped nothing moves any
   * more.
   */
  lemma {:induction false} StaysToTheEnd(p: Placement, active: seq<string>, ideal: nat, moves: seq<Move>, k: string)
    requires Unit(p) && k in p
    requires Steps(p, active, ideal, moves) && Stays(p, active, ideal, moves, k)
    ensures StaysAt(p, active, ideal, Apply(p, moves), k)
  {
    hide Load, IsTarget;
    if !StaysAt(p, active, ideal, Apply(p, moves), k) {
      var before, m := moves[..|moves| - 1], moves[|moves| - 1];
      StaysToTheEnd(p, active, ideal, before, k);
      StepTarget(p, active, ideal, Apply(p, before), m);
      LoadMoved(Apply(p, before), m);
    }
  }

  /** After a pass every user may stay where it is. */
  lemma UnitPassSettles(p: Placement, active: seq<string>, moves: seq<Move>)
    requires active != [] && Unit(p) && IsPlan(p, active, moves)
    ensures Unit(Apply(p, moves))
    ensures forall k :: k in p ==> StaysAt(Apply(p, moves), active, Ideal(p, active), Apply(p, moves), k)
  {
    hide Load, Steps, Stays, Apply, Total, Skipped;
    var q, ideal := Apply(p, moves), Ideal(p, active);
    MovesOnce(p, active, ideal, moves);
    UnmovedKept(p, moves);
    WeightsKept(p, moves);
    forall k | k in p ensures StaysAt(q, active, ideal, q, k) {
      if q[k] == p[k] {
        StaysToTheEnd(p, active, ideal, moves, k);
      } else {
        var m :| m in moves && m.key == k;
        assert Relocates(p, active, q, m);
        var i :| 0 <= i < |moves| && moves[i] == m;
        LoadBounds(p, active, ideal, moves, m.to);
      }
    }
  }

  ghost predicate Balanced(q: Placement, active: seq<string>, ideal: nat) {
    || Full(q, active, ideal)
    || forall k :: k in q ==> Load(q, q[k].backend) <= Keep(active, ideal, q[k].backend)
  }

  lemma UnitPassBalances(p: Placement, active: seq<string>, moves: seq<Move>)
    requires BackendList(active) && Unit(p) && IsPlan(p, active, moves)
    ensures Balanced(Apply(p, moves), active, Ideal(p, active))
  {
    hide Load, Steps, Stays, Apply, Total, Skipped;
    UnitPassSettles(p, active, moves);
    SkippedIsFull(Apply(p, moves), active, Ideal(p, active));
  }

  /** Replanning after applying a plan gives no moves, whatever order either pass used. */
  lemma UnitPassIsFixpoint(p: Placement, active: seq<string>, moves: seq<Move>, again: seq<Move>)
    requires active != [] && Unit(p) && IsPlan(p, active, moves)
    requires IsPlan(Apply(p, moves), active, again)
    ensures again == []
  {
    hide Load, Steps, Stays, Apply, Total, StaysAt;
    var q, ideal := Apply(p, moves), Ideal(p, active);
    UnitPassSettles(p, active, moves);
    TotalKept(p, active, ideal, moves);
    EmptyPlan(q, active, again);
  }

  /** Water filling: a backend that received a user ends at most one above any other active backend. */
  lemma {:induction false} ReceiversLevel(p: Placement, active: seq<string>, ideal: nat, moves: seq<Move>, b: string,
                                          x: string)
    requires Unit(p) && Steps(p, active, ideal, moves) && Receives(moves, b) && b in active && x in active
    ensures Load(Apply(p, moves), b) <= Load(Apply(p, moves), x) + 1
  {
    hide Load;
    var before, m := moves[..|moves| - 1], moves[|moves| - 1];
    var cur := Apply(p, before);
    StepTarget(p, active, ideal, cur, m);
    LoadMoved(cur, m);
    TargetIsLeast(cur, active, ideal, 1, m.to, x);
    if m.to != b {
      ReceivesBefore(moves, b);
      ReceiversLevel(p, active, ideal, before, b, x);
      LoadBounds(p, active, ideal, before, b);
    }
  }

  lemma TargetIsLeast(p: Placement, active: seq<string>, ideal: int, w: int, b: string, x: string)
    requires x in active && IsTarget(p, active, ideal, w, b)
    ensures Load(p, b) <= Load(p, x)
  {
    hide Load;
    var j :| 0 <= j < |active| && active[j] == x;
  }

  // -- Bounds ---------------------------------------------------------------------

  lemma {:induction false} DistinctSize(active: seq<string>)
    requires forall i, j :: 0 <= i < j < |active| ==> active[i] != active[j]
    ensures |Elems(active)| == |active|
  {
    if active != [] {
      var rest, b := active[..|active| - 1], active[|active| - 1];
      DistinctSize(rest);
      assert Elems(active) == Elems(rest) + {b};
      assert b !in rest;
    }
  }

  /** When no active backend is below ideal, only the remainder of total / n is left to go around. */
  lemma FullLeavesRemainder(q: Placement, active: seq<string>, ideal: nat, b: string)
    requires BackendList(active) && Full(q, active, ideal) && b in active
    ensures Load(q, b) + Stranded(q, Elems(active)) + ideal * (|active| - 1) <= Total(q)
  {
    hide Load, Stranded, Total, Sums.Sum;
    var on := Elems(active);
    LoadsPartition(q, on);
    var loads := Loads(q, on);
    Sums.SumRemove(loads, b);
    var rest := loads - {b};
    assert |rest| == |active| - 1 by {
      DistinctSize(active);
      assert rest.Keys == on - {b};
      assert |rest.Keys| == |on - {b}|;
    }
    Sums.SumAtLeast(rest, ideal);
  }

  function Max(a: int, b: int): int {
    if a >= b then a else b
  }

  lemma IdealRemainder(total: nat, n: nat)
    requires n > 0
    ensures total >= n ==> total == IdealOf(total, n) * n + total % n
    ensures total < n ==> IdealOf(total, n) == 1
  {
  }

  /**
   * Final loads are at most ideal + max(1, total mod n); what stays stranded is at most total mod n, and nothing if
   * total < n.
   */
  lemma UnitPassBounds(p: Placement, active: seq<string>, moves: seq<Move>, b: string)
    requires BackendList(active) && Unit(p) && IsPlan(p, active, moves) && b in active
    ensures Load(Apply(p, moves), b) <= Ideal(p, active) + Max(1, Total(p) % |active|)
    ensures Stranded(Apply(p, moves), Elems(active)) <= if Total(p) < |active| then 0 else Total(p) % |active|
  {
    hide Load, Steps, Stays, Apply, Stranded, Total, IdealOf;
    var q, ideal, n := Apply(p, moves), Ideal(p, active), |active|;
    UnitPassSettles(p, active, moves);
    UnitPassBalances(p, active, moves);
    TotalKept(p, active, ideal, moves);
    IdealRemainder(Total(p), n);
    if Full(q, active, ideal) {
      FullLeavesRemainder(q, active, ideal, b);
      assert ideal * (n - 1) == ideal * n - ideal;
    } else {
      if Load(q, b) > 0 {
        var k := LoadedHasKey(q, b);
      }
      forall k | k in q ensures q[k].backend in Elems(active) {
        LoadAtLeast(q, k);
      }
      StrandedZero(q, Elems(active));
    }
  }

  /** With unit weights the stranded weight is the number of users left on inactive backends. */
  lemma {:induction false} StrandedCounts(q: Placement, on: set<string>)
    requires Unit(q)
    ensures Stranded(q, on) == |set k | k in q && q[k].backend !in on|
    decreases q.Keys
  {
    var left := set k | k in q && q[k].backend !in on;
    if q == map[] {
      StrandedZero(q, on);
      assert left == {};
    } else {
      var k :| k in q;
      var rest := q - {k};
      assert rest.Keys == q.Keys - {k};
      StrandedCounts(rest, on);
      WeightRemove(q, k, iset b: string | b !in on);
      assert left - {k} == set u | u in rest && rest[u].backend !in on;
    }
  }
}
