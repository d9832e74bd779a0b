/** What a least-loaded rebalance plan is, without reference to the order in which maps are visited. */
module LeastLoadedPlan {
  import opened Basics
  import opened Assignments

  datatype Move = Move(key: string, from: string, to: string)

  function IdealOf(total: nat, n: nat): (ideal: nat)
    requires n > 0
    ensures ideal >= 1
    ensures total >= n ==> ideal == total / n
  {
    if total / n == 0 then 1 else total / n
  }

  ghost function Ideal(p: Placement, active: seq<string>): nat
    requires active != []
  {
    IdealOf(Total(p), |active|)
  }

  /** The load a backend may keep: an inactive backend is evacuated. */
  function Keep(active: seq<string>, ideal: int, b: string): int {
    if b in active then ideal + 1 else 0
  }

  ghost function Moved(p: Placement, m: Move): (q: Placement)
    ensures q.Keys == p.Keys
  {
    if m.key in p then p[m.key := p[m.key].(backend := m.to)] else p
  }

  ghost function Apply(p: Placement, moves: seq<Move>): (q: Placement)
    ensures q.Keys == p.Keys
  {
    if moves == [] then p else Moved(Apply(p, moves[..|moves| - 1]), moves[|moves| - 1])
  }

  /** `b` is the first least-loaded active backend, below ideal, and can absorb `w`. */
  ghost predicate IsTarget(p: Placement, active: seq<string>, ideal: int, w: int, b: string) {
    && Load(p, b) < ideal
    && Load(p, b) + w <= ideal + 1
    && exists i :: 0 <= i < |active| && FirstLeast(p, active, i) && active[i] == b
  }

  ghost predicate FirstLeast(p: Placement, active: seq<string>, i: int)
    requires 0 <= i < |active|
  {
    && (forall j :: 0 <= j < |active| ==> Load(p, active[i]) <= Load(p, active[j]))
    && (forall j :: 0 <= j < i ==> Load(p, active[i]) < Load(p, active[j]))
  }

  /** No backend (other than one without a name) can take a key of weight `w`. */
  ghost predicate Skipped(p: Placement, active: seq<string>, ideal: int, w: int) {
    forall b :: IsTarget(p, active, ideal, w, b) ==> b == ""
  }

  /** A move that is legal when `cur` is what earlier moves made of `p`. */
  ghost predicate Step(p: Placement, active: seq<string>, ideal: int, cur: Placement, m: Move) {
    && m.key in p && m.key in cur
    && cur[m.key] == p[m.key]
    && m.from == p[m.key].backend
    && Load(cur, m.from) > Keep(active, ideal, m.from)
    && m.to != ""
    && IsTarget(cur, active, ideal, p[m.key].weight, m.to)
  }

  /** Every move is legal after the ones before it. */
  ghost predicate Steps(p: Placement, active: seq<string>, ideal: int, moves: seq<Move>) {
    moves == [] ||
    var before := moves[..|moves| - 1];
    Steps(p, active, ideal, before) && Step(p, active, ideal, Apply(p, before), moves[|moves| - 1])
  }

  /** Why a key may stay: its backend was not (or no longer) over its limit, or nobody could take the key. */
  ghost predicate StaysAt(p: Placement, active: seq<string>, ideal: int, cur: Placement, k: string)
    requires k in p
  {
    || Load(cur, p[k].backend) <= Keep(active, ideal, p[k].backend)
    || Skipped(cur, active, ideal, p[k].weight)
  }

  /** `k` had a reason to stay at some point of the plan. */
  ghost predicate Stays(p: Placement, active: seq<string>, ideal: int, moves: seq<Move>, k: string)
    requires k in p
  {
    || StaysAt(p, active, ideal, Apply(p, moves), k)
    || (moves != [] && Stays(p, active, ideal, moves[..|moves| - 1], k))
  }

  ghost predicate IsPlan(p: Placement, active: seq<string>, moves: seq<Move>)
    requires active != []
  {
    var ideal := Ideal(p, active);
    && Steps(p, active, ideal, moves)
    && forall k :: k in p && Apply(p, moves)[k] == p[k] ==> Stays(p, active, ideal, moves, k)
  }

  // -- Elementary facts ------------------------------------------------------

  lemma ApplyNone(p: Placement, active: seq<string>, ideal: int)
    ensures Apply(p, []) == p && Steps(p, active, ideal, [])
  {
  }

  lemma ApplyExtend(p: Placement, moves: seq<Move>, m: Move)
    ensures Apply(p, moves + [m]) == Moved(Apply(p, moves), m)
  {
    assert (moves + [m])[..|moves|] == moves;
  }

  /** What one move does to the weight on any group of backends. */
  lemma WeightMoved(p: Placement, m: Move, on: iset<string>)
    requires m.key in p && p[m.key].backend == m.from
    ensures WeightOn(Moved(p, m), on) + (if m.from in on then p[m.key].weight else 0)
         == WeightOn(p, on) + (if m.to in on then p[m.key].weight else 0)
  {
    WeightRemove(p, m.key, on);
    WeightPut(p, m.key, p[m.key].(backend := m.to), on);
  }

  lemma LoadMoved(p: Placement, m: Move)
    requires m.key in p && p[m.key].backend == m.from && m.from != m.to
    ensures forall b :: Load(Moved(p, m), b) ==
                        if b == m.to then Load(p, b) + p[m.key].weight
                        else if b == m.from then Load(p, b) - p[m.key].weight
                        else Load(p, b)
  {
    forall b
      ensures Load(Moved(p, m), b) ==
              if b == m.to then Load(p, b) + p[m.key].weight
              else if b == m.from then Load(p, b) - p[m.key].weight
              else Load(p, b)
    {
      WeightMoved(p, m, iset{b});
    }
  }

  /** A legal move goes to another, active backend. */
  lemma StepTarget(p: Placement, active: seq<string>, ideal: nat, cur: Placement, m: Move)
    requires Step(p, active, ideal, cur, m)
    ensures m.to in active && m.to != m.from
    ensures Load(cur, m.to) < ideal && Load(cur, m.to) + p[m.key].weight <= ideal + 1
  {
  }

  lemma StepsExtend(p: Placement, active: seq<string>, ideal: int, moves: seq<Move>, m: Move)
    requires Steps(p, active, ideal, moves)
    requires Step(p, active, ideal, Apply(p, moves), m)
    ensures Steps(p, active, ideal, moves + [m])
  {
    assert (moves + [m])[..|moves|] == moves;
  }

  lemma StaysNow(p: Placement, active: seq<string>, ideal: int, moves: seq<Move>, k: string)
    requires k in p && StaysAt(p, active, ideal, Apply(p, moves), k)
    ensures Stays(p, active, ideal, moves, k)
  {
  }

  /** A reason to stay is kept when the plan grows. */
  lemma {:induction false} StaysLater(p: Placement, active: seq<string>, ideal: int, earlier: seq<Move>,
                                      moves: seq<Move>, k: string)
    requires k in p && earlier <= moves && Stays(p, active, ideal, earlier, k)
    ensures Stays(p, active, ideal, moves, k)
  {
    if |earlier| < |moves| {
      StaysLater(p, active, ideal, earlier, moves[..|moves| - 1], k);
    } else {
      assert earlier == moves;
    }
  }

  /** Reasons to stay that hold before the plan starts. */
  lemma {:induction false} StaysFromStart(p: Placement, active: seq<string>, ideal: int, moves: seq<Move>, k: string)
    requires k in p && StaysAt(p, active, ideal, p, k)
    ensures Stays(p, active, ideal, moves, k)
  {
    if moves != [] {
      StaysFromStart(p, active, ideal, moves[..|moves| - 1], k);
    }
  }

  // -- Loads of all backends together ---------------------------------------

  ghost function Loads(p: Placement, on: set<string>): map<string, int> {
    map b | b in on :: Load(p, b)
  }

  lemma WeightWithout(p: Placement, on: iset<string>, b: string)
    requires b in on
    ensures WeightOn(p, on) == WeightOn(p, on - iset{b}) + Load(p, b)
  {
    Sums.SumSplit(Shares(p, on), Shares(p, on - iset{b}), Shares(p, iset{b}));
  }

  /** The loads of the backends in `on`, plus what is stranded elsewhere, make up the total. */
  lemma {:induction false} LoadsPartition(p: Placement, on: set<string>)
    ensures Sums.Sum(Loads(p, on)) + Stranded(p, on) == Total(p)
  {
    hide Load;
    if on == {} {
      assert Loads(p, on) == map[];
    } else {
      var b :| b in on;
      LoadsPartition(p, on - {b});
      Sums.SumRemove(Loads(p, on), b);
      assert Loads(p, on) - {b} == Loads(p, on - {b});
      var off := iset c: string | c !in on - {b};
      WeightWithout(p, off, b);
      assert off - iset{b} == iset c: string | c !in on;
    }
  }

  lemma {:induction false} StrandedZero(p: Placement, on: set<string>)
    requires forall k :: k in p ==> p[k].backend in on
    ensures Stranded(p, on) == 0
    decreases p.Keys
  {
    var off := iset b: string | b !in on;
    if p == map[] {
      assert Shares(p, off) == map[];
    } else {
      var k :| k in p;
      assert (p - {k}).Keys == p.Keys - {k};
      WeightRemove(p, k, off);
      StrandedZero(p - {k}, on);
    }
  }
}
