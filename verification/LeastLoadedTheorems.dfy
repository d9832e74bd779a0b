/** What every least-loaded plan guarantees, whatever the weights and the iteration order. */
module LeastLoadedTheorems {
  import opened Basics
  import opened Assignments
  import opened LeastLoadedPlan

  // -- What a plan does to the keys -------------------------------------------

  ghost function KeysOf(moves: seq<Move>): set<string> {
    set m | m in moves :: m.key
  }

  ghost predicate Relocates(p: Placement, active: seq<string>, q: Placement, m: Move) {
    && m.key in p && m.from == p[m.key].backend
    && m.to in active && m.to != m.from
    && m.key in q && q[m.key] == p[m.key].(backend := m.to)
  }

  /** Each user moves at most once, from its own backend to a different active one, and keeps its weight. */
  lemma {:induction false} MovesOnce(p: Placement, active: seq<string>, ideal: nat, moves: seq<Move>)
    requires Steps(p, active, ideal, moves)
    ensures forall m :: m in moves ==> Relocates(p, active, Apply(p, moves), m)
    ensures forall i, j :: 0 <= i < j < |moves| ==> moves[i].key != moves[j].key
  {
    hide Load, Apply, IsTarget, Keep;
    if moves != [] {
      var before, m := moves[..|moves| - 1], moves[|moves| - 1];
      assert moves == before + [m];
      MovesOnce(p, active, ideal, before);
      StepTarget(p, active, ideal, Apply(p, before), m);
      ApplyExtend(p, before, m);
      forall i | 0 <= i < |before| ensures moves[i].key != m.key {
        assert before[i] in before;
      }
    }
  }

  /** Keys without a move stay as they are. */
  lemma {:induction false} UnmovedKept(p: Placement, moves: seq<Move>)
    ensures forall k :: k in p && k !in KeysOf(moves) ==> Apply(p, moves)[k] == p[k]
  {
    if moves != [] {
      var before, m := moves[..|moves| - 1], moves[|moves| - 1];
      UnmovedKept(p, before);
      assert m in moves && forall o :: o in before ==> o in moves;
    }
  }

  lemma {:induction false} WeightsKept(p: Placement, moves: seq<Move>)
    ensures forall k :: k in p ==> Apply(p, moves)[k].weight == p[k].weight
  {
    if moves != [] {
      WeightsKept(p, moves[..|moves| - 1]);
    }
  }

  lemma StrandedMoved(p: Placement, m: Move, on: set<string>)
    requires m.key in p && p[m.key].backend == m.from
    ensures Stranded(Moved(p, m), on) + (if m.from in on then 0 else p[m.key].weight)
         == Stranded(p, on) + (if m.to in on then 0 else p[m.key].weight)
  {
    WeightMoved(p, m, iset b: string | b !in on);
  }

  /** A rebalance conserves the total weight. */
  lemma {:induction false} TotalKept(p: Placement, active: seq<string>, ideal: nat, moves: seq<Move>)
    requires Steps(p, active, ideal, moves)
    ensures Total(Apply(p, moves)) == Total(p)
    ensures active != [] ==> Ideal(Apply(p, moves), active) == Ideal(p, active)
  {
    hide Load, Stranded;
    if moves != [] {
      var before, m := moves[..|moves| - 1], moves[|moves| - 1];
      TotalKept(p, active, ideal, before);
      StrandedMoved(Apply(p, before), m, {});
    }
  }

  // -- Load bounds --------------------------------------------------------------

  ghost predicate Receives(moves: seq<Move>, b: string) {
    exists i :: 0 <= i < |moves| && moves[i].to == b
  }

  ghost predicate Donates(moves: seq<Move>, b: string) {
    exists i :: 0 <= i < |moves| && moves[i].from == b
  }

  /** Receivers end within ideal + 1, nobody active ends above max(start, ideal + 1), active donors keep at least 1. */
  lemma {:induction false} LoadBounds(p: Placement, active: seq<string>, ideal: nat, moves: seq<Move>, b: string)
    requires Steps(p, active, ideal, moves) && b in active
    ensures Receives(moves, b) ==> Load(Apply(p, moves), b) <= ideal + 1
    ensures Load(Apply(p, moves), b) <= Load(p, b) || Load(Apply(p, moves), b) <= ideal + 1
    ensures Donates(moves, b) ==> Load(Apply(p, moves), b) >= 1
  {
    hide Load;
    if moves != [] {
      var before, m := moves[..|moves| - 1], moves[|moves| - 1];
      LoadBounds(p, active, ideal, before, b);
      StepTarget(p, active, ideal, Apply(p, before), m);
      LoadMoved(Apply(p, before), m);
      ReceivesBefore(moves, b);
    }
  }

  lemma ReceivesBefore(moves: seq<Move>, b: string)
    requires moves != []
    ensures Receives(moves, b) ==> Receives(moves[..|moves| - 1], b) || moves[|moves| - 1].to == b
    ensures Donates(moves, b) ==> Donates(moves[..|moves| - 1], b) || moves[|moves| - 1].from == b
  {
    var before := moves[..|moves| - 1];
    if i :| 0 <= i < |moves| && moves[i].to == b && i < |before| {
      assert before[i].to == b;
    }
    if i :| 0 <= i < |moves| && moves[i].from == b && i < |before| {
      assert before[i].from == b;
    }
  }

  /**
   * Only an active backend that starts above ideal + 1 donates, and it ends no further below that than the weight of
   * one of the users it gave away.
   */
  lemma {:induction false} DonorsOverloaded(p: Placement, active: seq<string>, ideal: nat, moves: seq<Move>, b: string)
    requires Steps(p, active, ideal, moves) && b in active && Donates(moves, b)
    ensures Load(p, b) > ideal + 1
    ensures exists i :: 0 <= i < |moves| && moves[i].from == b && moves[i].key in p
                        && Load(Apply(p, moves), b) + p[moves[i].key].weight > ideal + 1
  {
    hide Load;
    var n := |moves| - 1;
    var before, m := moves[..n], moves[n];
    var cur := Apply(p, before);
    StepTarget(p, active, ideal, cur, m);
    LoadMoved(cur, m);
    if m.from == b {
      LoadBounds(p, active, ideal, before, b);
      assert moves[n].from == b;
    } else {
      ReceivesBefore(moves, b);
      DonorsOverloaded(p, active, ideal, before, b);
      var i :| 0 <= i < |before| && before[i].from == b && before[i].key in p
               && Load(cur, b) + p[before[i].key].weight > ideal + 1;
      assert moves[i] == before[i];
    }
  }

  /** A backend within its limit stays within it. */
  lemma {:induction false} WithinStaysWithin(p: Placement, active: seq<string>, ideal: nat, earlier: seq<Move>,
                                             moves: seq<Move>, b: string)
    requires Steps(p, active, ideal, moves) && earlier <= moves
    requires Load(Apply(p, earlier), b) <= Keep(active, ideal, b)
    ensures Load(Apply(p, moves), b) <= Keep(active, ideal, b)
  {
    hide Load;
    if |earlier| < |moves| {
      var before, m := moves[..|moves| - 1], moves[|moves| - 1];
      WithinStaysWithin(p, active, ideal, earlier, before, b);
      StepTarget(p, active, ideal, Apply(p, before), m);
      LoadMoved(Apply(p, before), m);
    } else {
      assert earlier == moves;
    }
  }

  // -- Every move makes progress ------------------------------------------------

  ghost function Squares(p: Placement, on: set<string>): map<string, int> {
    map b | b in on :: Load(p, b) * Load(p, b)
  }

  ghost function SumSquares(p: Placement, on: set<string>): (n: nat)
  {
    Sums.SumNonNegative(Squares(p, on));
    Sums.Sum(Squares(p, on))
  }

  lemma SquaresShift(a: nat, b: nat, w: nat)
    requires w >= 1 && b + w < a
    ensures (a - w) * (a - w) + (b + w) * (b + w) < a * a + b * b
  {
    assert (a - w) * (a - w) + (b + w) * (b + w) == a * a + b * b - 2 * (w * (a - b - w));
    assert w * (a - b - w) >= 1;
  }

  lemma SumSquaresMoved(p: Placement, m: Move, on: set<string>)
    requires m.key in p && p[m.key].backend == m.from && m.from != m.to && m.from in on && m.to in on
    requires p[m.key].weight >= 1 && Load(p, m.to) + p[m.key].weight < Load(p, m.from)
    ensures SumSquares(Moved(p, m), on) < SumSquares(p, on)
  {
    hide Load;
    LoadMoved(p, m);
    var before, after := Squares(p, on), Squares(Moved(p, m), on);
    Sums.SumRemove(before, m.from);
    Sums.SumRemove(before - {m.from}, m.to);
    Sums.SumRemove(after, m.from);
    Sums.SumRemove(after - {m.from}, m.to);
    assert before - {m.from} - {m.to} == after - {m.from} - {m.to};
    SquaresShift(Load(p, m.from), Load(p, m.to), p[m.key].weight);
  }

  /** The measure: first the stranded weight, then the spread of the active loads. */
  ghost predicate Less(q: Placement, p: Placement, on: set<string>) {
    || Stranded(q, on) < Stranded(p, on)
    || (Stranded(q, on) == Stranded(p, on) && SumSquares(q, on) < SumSquares(p, on))
  }

  lemma StepDecreases(p: Placement, active: seq<string>, ideal: nat, cur: Placement, m: Move)
    requires Step(p, active, ideal, cur, m) && p[m.key].weight >= 1
    ensures Less(Moved(cur, m), cur, Elems(active))
  {
    hide Load;
    var on := Elems(active);
    StepTarget(p, active, ideal, cur, m);
    StrandedMoved(cur, m, on);
    if m.from in active {
      SumSquaresMoved(cur, m, on);
    }
  }

  /** Every planned move strictly decreases the measure, so a non-empty plan does. */
  lemma {:induction false} PlanDecreases(p: Placement, active: seq<string>, ideal: nat, moves: seq<Move>)
    requires Weighed(p) && Steps(p, active, ideal, moves) && moves != []
    ensures Less(Apply(p, moves), p, Elems(active))
  {
    hide Load, Stranded, SumSquares;
    var before, m := moves[..|moves| - 1], moves[|moves| - 1];
    StepDecreases(p, active, ideal, Apply(p, before), m);
    if before != [] {
      PlanDecreases(p, active, ideal, before);
    }
  }

  // -- Emptiness, and convergence of repeated passes ------------------------------

  /** Whether a pass is empty depends on the table alone. */
  lemma EmptyPlan(p: Placement, active: seq<string>, moves: seq<Move>)
    requires active != [] && IsPlan(p, active, moves)
    ensures moves == [] <==> forall k :: k in p ==> StaysAt(p, active, Ideal(p, active), p, k)
  {
    hide Load;
    if moves != [] {
      FirstStep(p, active, Ideal(p, active), moves);
      assert !StaysAt(p, active, Ideal(p, active), p, moves[0].key);
    }
  }

  lemma {:induction false} FirstStep(p: Placement, active: seq<string>, ideal: nat, moves: seq<Move>)
    requires Steps(p, active, ideal, moves) && moves != []
    ensures Step(p, active, ideal, p, moves[0])
  {
    if |moves| > 1 {
      FirstStep(p, active, ideal, moves[..|moves| - 1]);
    }
  }

  lemma EmptinessOrderFree(p: Placement, active: seq<string>, moves: seq<Move>, others: seq<Move>)
    requires active != [] && IsPlan(p, active, moves) && IsPlan(p, active, others)
    ensures moves == [] <==> others == []
  {
    EmptyPlan(p, active, moves);
    EmptyPlan(p, active, others);
  }

  /** `q` is what some rebalance pass, under some iteration order, makes of `p`. */
  ghost predicate Pass(p: Placement, active: seq<string>, q: Placement)
    requires active != []
  {
    exists moves :: IsPlan(p, active, moves) && q == Apply(p, moves)
  }

  lemma PassProgress(p: Placement, active: seq<string>, q: Placement)
    requires active != [] && Weighed(p) && Pass(p, active, q)
    ensures Weighed(q)
    ensures q == p || Less(q, p, Elems(active))
  {
    hide Load;
    var moves :| IsPlan(p, active, moves) && q == Apply(p, moves);
    WeightsKept(p, moves);
    if moves != [] {
      PlanDecreases(p, active, Ideal(p, active), moves);
    }
  }

  /** A pass that changes nothing is followed by passes that change nothing. */
  lemma PassStable(p: Placement, active: seq<string>, q: Placement)
    requires active != [] && Weighed(p) && Pass(p, active, p) && Pass(p, active, q)
    ensures q == p
  {
    hide Load, IsPlan;
    var none :| IsPlan(p, active, none) && p == Apply(p, none);
    var moves :| IsPlan(p, active, moves) && q == Apply(p, moves);
    if none != [] {
      PlanIsSteps(p, active, none);
      PlanDecreases(p, active, Ideal(p, active), none);
    }
    EmptinessOrderFree(p, active, none, moves);
  }

  lemma PlanIsSteps(p: Placement, active: seq<string>, moves: seq<Move>)
    requires active != [] && IsPlan(p, active, moves)
    ensures Steps(p, active, Ideal(p, active), moves)
  {
  }

  /** An endless sequence of passes over a fixed backend set, each under an iteration order of its own. */
  ghost predicate Passes(run: nat -> Placement, active: seq<string>)
    requires active != []
  {
    forall i: nat :: Pass(run(i), active, run(i + 1))
  }

  lemma {:induction false} Descend(run: nat -> Placement, active: seq<string>, i: nat) returns (n: nat)
    requires active != [] && Passes(run, active) && Weighed(run(i))
    ensures Weighed(run(n)) && run(n + 1) == run(n)
    decreases Stranded(run(i), Elems(active)), SumSquares(run(i), Elems(active))
  {
    hide Load, Stranded, SumSquares, Pass;
    if run(i + 1) == run(i) {
      n := i;
    } else {
      PassProgress(run(i), active, run(i + 1));
      n := Descend(run, active, i + 1);
    }
  }

  lemma {:induction false} StaysPut(run: nat -> Placement, active: seq<string>, n: nat, j: nat)
    requires active != [] && Passes(run, active) && Weighed(run(n)) && run(n + 1) == run(n) && n <= j
    ensures run(j) == run(n)
  {
    hide Pass;
    if n < j {
      StaysPut(run, active, n, j - 1);
      assert Pass(run(n), active, run(n + 1));
      assert Pass(run(j - 1), active, run(j - 1 + 1));
      PassStable(run(n), active, run(j));
    }
  }

  /** Repeated rebalancing converges: from some pass on, nothing moves any more, whatever the orders. */
  lemma Converges(run: nat -> Placement, active: seq<string>)
    requires active != [] && Passes(run, active) && Weighed(run(0))
    ensures exists n: nat :: forall j: nat :: n <= j ==> run(j) == run(n)
  {
    var n := Descend(run, active, 0);
    forall j: nat | n <= j ensures run(j) == run(n) {
      StaysPut(run, active, n, j);
    }
  }
}
