/**
 * LeastLoadedStrategy.ComputeMoves: Go map iteration is an arbitrary choice, so every contract holds for every
 * order.
 */
module LeastLoadedPlanner {
  import opened Basics
  import opened Assignments
  import opened LeastLoadedPlan

  /** `planned` holds the load of every backend it knows. */
  ghost predicate Shadow(planned: map<string, int>, p: Placement) {
    forall b :: b in planned ==> planned[b] == Load(p, b)
  }

  ghost predicate Knows(planned: map<string, int>, p: Placement, active: seq<string>) {
    && (forall b :: b in active ==> b in planned)
    && (forall k :: k in p ==> p[k].backend in planned)
  }

  /** `list` holds keys on `b`, each once. */
  ghost predicate Lists(list: seq<string>, p: Placement, b: string) {
    && (forall i :: 0 <= i < |list| ==> list[i] in p && p[list[i]].backend == b)
    && (forall i, j :: 0 <= i < j < |list| ==> list[i] != list[j])
  }

  ghost predicate Grouped(users: map<string, seq<string>>, p: Placement) {
    && (forall b :: b in users ==> Lists(users[b], p, b))
    && (forall k :: k in p ==> p[k].backend in users && k in users[p[k].backend])
  }

  lemma GroupedPut(users: map<string, seq<string>>, p: Placement, k: string, s: Slot)
    requires Grouped(users, p) && k !in p
    ensures Grouped(users[s.backend := (if s.backend in users then users[s.backend] else []) + [k]], p[k := s])
  {
    var list := if s.backend in users then users[s.backend] else [];
    assert Lists(list, p, s.backend);
    assert Lists(list + [k], p[k := s], s.backend);
    assert k in list + [k];
    forall b | b in users && b != s.backend ensures Lists(users[b], p[k := s], b) {
      assert Lists(users[b], p, b);
    }
  }

  method SumWeights(t: Table, active: seq<string>)
    returns (weights: map<string, int>, backendUsers: map<string, seq<string>>)
    ensures Shadow(weights, View(t)) && Knows(weights, View(t), active)
    ensures Grouped(backendUsers, View(t))
    ensures forall b :: b in backendUsers ==> b in weights
  {
    hide Load;
    weights := map[];
    for i := 0 to |active|
      invariant forall b :: b in active[..i] ==> b in weights
      invariant forall b :: b in weights ==> weights[b] == 0
    {
      weights := weights[active[i] := 0];
    }
    backendUsers := map[];
    ghost var p := View(t);
    ghost var done: Placement := map[];
    forall b ensures Load(done, b) == 0 { LoadEmpty(b); }
    var todo := t.Keys;
    while todo != {}
      invariant todo <= t.Keys
      invariant done.Keys == t.Keys - todo
      invariant forall k :: k in done ==> done[k] == p[k]
      invariant Shadow(weights, done) && Knows(weights, done, active)
      invariant forall b :: b !in weights ==> Load(done, b) == 0
      invariant Grouped(backendUsers, done)
      invariant forall b :: b in backendUsers ==> b in weights
    {
      var user :| user in todo;
      todo := todo - {user};
      var b := t[user].backend;
      LoadPut(done, user, p[user]);
      GroupedPut(backendUsers, done, user, p[user]);
      done := done[user := p[user]];
      weights := weights[b := (if b in weights then weights[b] else 0) + EffectiveWeight(t[user])];
      backendUsers := backendUsers[b := (if b in backendUsers then backendUsers[b] else []) + [user]];
    }
    assert done == p;
  }

  method SumValues(weights: map<string, int>) returns (total: int)
    ensures total == Sums.Sum(weights)
  {
    total := 0;
    var todo := weights.Keys;
    ghost var done: map<string, int> := map[];
    while todo != {}
      invariant todo <= weights.Keys
      invariant done.Keys == weights.Keys - todo
      invariant forall b :: b in done ==> done[b] == weights[b]
      invariant total == Sums.Sum(done)
    {
      var b :| b in todo;
      todo := todo - {b};
      Sums.SumPut(done, b, weights[b]);
      assert done - {b} == done;
      done := done[b := weights[b]];
      total := total + weights[b];
    }
    assert done == weights;
  }

  /** The scan over the active backends; "" when no backend qualifies. */
  method PickTarget(active: seq<string>, planned: map<string, int>, ideal: int, w: int, ghost cur: Placement)
    returns (target: string)
    requires Shadow(planned, cur) && forall b :: b in active ==> b in planned
    ensures target != "" ==> target in active && IsTarget(cur, active, ideal, w, target)
    ensures target == "" ==> Skipped(cur, active, ideal, w)
  {
    hide Load;
    target := "";
    var minWeight := ideal;
    ghost var best := -1;
    for i := 0 to |active|
      invariant -1 <= best < i
      invariant best == -1 ==> target == "" && minWeight == ideal
      invariant best == -1 ==> forall j :: 0 <= j < i ==>
                Load(cur, active[j]) >= ideal || Load(cur, active[j]) + w > ideal + 1
      invariant best >= 0 ==>
                target == active[best] && minWeight == Load(cur, target) < ideal && minWeight + w <= ideal + 1
      invariant best >= 0 ==> forall j :: 0 <= j < i ==> minWeight <= Load(cur, active[j])
      invariant best >= 0 ==> forall j :: 0 <= j < best ==> minWeight < Load(cur, active[j])
    {
      var b := active[i];
      assert planned[b] == Load(cur, b);
      if planned[b] < minWeight && planned[b] + w <= ideal + 1 {
        minWeight := planned[b];
        target := b;
        best := i;
      }
    }
    assert best >= 0 ==> FirstLeast(cur, active, best);
  }

  function Shifted(planned: map<string, int>, from: string, to: string, w: int): map<string, int>
    requires from in planned && to in planned
  {
    var received := planned[to := planned[to] + w];
    received[from := received[from] - w]
  }

  /** One planned move: the plan stays legal and the shadow map stays exact. */
  lemma PlanMove(p: Placement, active: seq<string>, ideal: nat, moves: seq<Move>, m: Move, planned: map<string, int>)
    requires Steps(p, active, ideal, moves) && Step(p, active, ideal, Apply(p, moves), m)
    requires Shadow(planned, Apply(p, moves)) && m.from in planned && m.to in planned
    ensures Steps(p, active, ideal, moves + [m])
    ensures Apply(p, moves + [m]) == Apply(p, moves)[m.key := p[m.key].(backend := m.to)]
    ensures m.to != m.from && m.to in active && planned[m.to] < ideal
    ensures Shadow(Shifted(planned, m.from, m.to, p[m.key].weight), Apply(p, moves + [m]))
  {
    hide Load;
    StepTarget(p, active, ideal, Apply(p, moves), m);
    ApplyExtend(p, moves, m);
    StepsExtend(p, active, ideal, moves, m);
    LoadMoved(Apply(p, moves), m);
  }

  /** Every key in `keys` was moved or had a reason to stay. */
  ghost predicate Settled(p: Placement, active: seq<string>, ideal: int, moves: seq<Move>, keys: set<string>)
    requires keys <= p.Keys
  {
    forall k :: k in keys && Apply(p, moves)[k] == p[k] ==> Stays(p, active, ideal, moves, k)
  }

  lemma SettledLater(p: Placement, active: seq<string>, ideal: int, earlier: seq<Move>, moves: seq<Move>,
                     keys: set<string>)
    requires keys <= p.Keys && earlier <= moves
    requires Settled(p, active, ideal, earlier, keys)
    requires forall k :: k in keys && Apply(p, earlier)[k] != p[k] ==> Apply(p, moves)[k] != p[k]
    ensures Settled(p, active, ideal, moves, keys)
  {
    hide Apply, Stays;
    forall k | k in keys && Apply(p, moves)[k] == p[k] ensures Stays(p, active, ideal, moves, k) {
      StaysLater(p, active, ideal, earlier, moves, k);
    }
  }

  /** One user of a backend that is over its limit: moved to the best target, or skipped. */
  method ShedUser(t: Table, active: seq<string>, ideal: nat, from: string, user: string,
                  planned0: map<string, int>, moves0: seq<Move>)
    returns (planned: map<string, int>, moves: seq<Move>, moved: nat)
    requires Steps(View(t), active, ideal, moves0)
    requires Shadow(planned0, Apply(View(t), moves0)) && forall b :: b in active ==> b in planned0
    requires user in t && t[user].backend == from && Apply(View(t), moves0)[user] == View(t)[user]
    requires from in planned0 && planned0[from] > Keep(active, ideal, from)
    ensures moves0 <= moves
    ensures Steps(View(t), active, ideal, moves)
    ensures planned.Keys == planned0.Keys && Shadow(planned, Apply(View(t), moves))
    ensures planned[from] == planned0[from] - moved
    ensures forall k :: k in t && k != user ==> Apply(View(t), moves)[k] == Apply(View(t), moves0)[k]
    ensures Apply(View(t), moves)[user] == View(t)[user] ==> Stays(View(t), active, ideal, moves, user)
    ensures forall b :: b in planned && b != from && (b !in active || planned0[b] > ideal + 1) ==>
            planned[b] == planned0[b]
  {
    hide Load, IsTarget, Steps, Apply, Stays, Skipped;
    ghost var p := View(t);
    planned, moves, moved := planned0, moves0, 0;
    var w := EffectiveWeight(t[user]);
    var target := PickTarget(active, planned, ideal, w, Apply(p, moves));
    if target == "" {
      StaysNow(p, active, ideal, moves, user);
    } else {
      var m := Move(user, from, target);
      PlanMove(p, active, ideal, moves, m, planned);
      planned := planned[target := planned[target] + w];
      planned := planned[from := planned[from] - w];
      moves := moves + [m];
      moved := w;
    }
  }

  lemma SettledUser(p: Placement, active: seq<string>, ideal: int, earlier: seq<Move>, moves: seq<Move>,
                    users: seq<string>, n: nat)
    requires n < |users| && Elems(users) <= p.Keys && earlier <= moves
    requires Elems(users[..n]) <= p.Keys && Settled(p, active, ideal, earlier, Elems(users[..n]))
    requires users[n] in p && users[n] !in users[..n]
    requires forall k :: k in p && k != users[n] ==> Apply(p, moves)[k] == Apply(p, earlier)[k]
    requires Apply(p, moves)[users[n]] == p[users[n]] ==> Stays(p, active, ideal, moves, users[n])
    ensures Elems(users[..n + 1]) <= p.Keys && Settled(p, active, ideal, moves, Elems(users[..n + 1]))
  {
    hide Apply, Stays;
    assert forall k :: k in Elems(users[..n]) ==> k != users[n];
    SettledLater(p, active, ideal, earlier, moves, Elems(users[..n]));
    assert Elems(users[..n + 1]) == Elems(users[..n]) + {users[n]};
  }

  /** Users that are left once the excess is moved may stay. */
  lemma SettledRest(p: Placement, active: seq<string>, ideal: int, moves: seq<Move>, users: seq<string>, n: nat)
    requires n <= |users| && Elems(users) <= p.Keys
    requires Elems(users[..n]) <= p.Keys && Settled(p, active, ideal, moves, Elems(users[..n]))
    requires forall i :: n <= i < |users| ==> StaysAt(p, active, ideal, Apply(p, moves), users[i])
    ensures Settled(p, active, ideal, moves, Elems(users))
  {
    hide Apply, StaysAt;
    forall i | n <= i < |users| ensures Stays(p, active, ideal, moves, users[i]) {
      StaysNow(p, active, ideal, moves, users[i]);
    }
    assert users == users[..n] + users[n..];
  }

  /** The inner loop: one overloaded or inactive backend sheds users until its excess is moved. */
  method ShedBackend(t: Table, active: seq<string>, ideal: nat, from: string, users: seq<string>, excess: int,
                     planned0: map<string, int>, moves0: seq<Move>)
    returns (planned: map<string, int>, moves: seq<Move>)
    requires Steps(View(t), active, ideal, moves0)
    requires Shadow(planned0, Apply(View(t), moves0)) && forall b :: b in active ==> b in planned0
    requires from in planned0 && planned0[from] == excess + Keep(active, ideal, from) && excess >= 0
    requires Lists(users, View(t), from)
    requires forall k :: k in users ==> Apply(View(t), moves0)[k] == View(t)[k]
    ensures moves0 <= moves
    ensures Steps(View(t), active, ideal, moves)
    ensures planned.Keys == planned0.Keys && Shadow(planned, Apply(View(t), moves))
    ensures forall k :: k in t && k !in users ==> Apply(View(t), moves)[k] == Apply(View(t), moves0)[k]
    ensures Settled(View(t), active, ideal, moves, Elems(users))
    ensures forall b :: b in planned && b != from && (b !in active || planned0[b] > ideal + 1) ==>
            planned[b] == planned0[b]
  {
    hide Load, Steps, Apply, Stays, Skipped, IsTarget, Keep;
    ghost var p := View(t);
    planned, moves := planned0, moves0;
    var moved, n := 0, 0;
    assert Settled(p, active, ideal, moves, Elems(users[..n]));
    hide Settled;
    while n < |users| && moved < excess
      invariant 0 <= n <= |users|
      invariant moves0 <= moves
      invariant Steps(p, active, ideal, moves)
      invariant planned.Keys == planned0.Keys && Shadow(planned, Apply(p, moves))
      invariant planned[from] == excess + Keep(active, ideal, from) - moved
      invariant forall k :: k in t && k !in users ==> Apply(p, moves)[k] == Apply(p, moves0)[k]
      invariant forall i :: n <= i < |users| ==> Apply(p, moves)[users[i]] == p[users[i]]
      invariant Settled(p, active, ideal, moves, Elems(users[..n]))
      invariant forall b :: b in planned && b != from && (b !in active || planned0[b] > ideal + 1) ==>
                planned[b] == planned0[b]
    {
      ghost var earlier := moves;
      var w: nat;
      planned, moves, w := ShedUser(t, active, ideal, from, users[n], planned, moves);
      SettledUser(p, active, ideal, earlier, moves, users, n);
      moved := moved + w;
      n := n + 1;
    }
    SettledRest(p, active, ideal, moves, users, n);
  }

  /** LeastLoadedStrategy.ComputeMoves; `planned` is the shadow map it leaves behind. */
  method ComputeMoves(t: Table, active: seq<string>)
    returns (moves: seq<Move>, planned: map<string, int>)
    ensures active == [] ==> moves == []
    ensures active != [] ==> IsPlan(View(t), active, moves)
    ensures active != [] ==> Knows(planned, View(t), active) && Shadow(planned, Apply(View(t), moves))
  {
    if |active| == 0 {
      return [], map[];
    }
    ghost var p := View(t);
    var weights, backendUsers := SumWeights(t, active);
    var totalWeight := SumValues(weights);
    var ideal := totalWeight / |active|;
    if ideal == 0 {
      ideal := 1;
    }
    IdealFromLoads(p, active, weights);
    moves, planned := PlanBackends(t, active, ideal, weights, backendUsers);
  }

  lemma IdealFromLoads(p: Placement, active: seq<string>, weights: map<string, int>)
    requires active != [] && Shadow(weights, p) && Knows(weights, p, active)
    ensures Sums.Sum(weights) >= 0 && IdealOf(Sums.Sum(weights), |active|) == Ideal(p, active)
  {
    hide Load, Stranded, Total, IdealOf;
    assert weights == Loads(p, weights.Keys);
    LoadsPartition(p, weights.Keys);
    StrandedZero(p, weights.Keys);
  }

  ghost function KeysOn(p: Placement, b: string): set<string> {
    set k | k in p && p[k].backend == b
  }

  lemma GroupKeys(users: map<string, seq<string>>, p: Placement, b: string)
    requires Grouped(users, p) && b in users
    ensures Lists(users[b], p, b)
    ensures Elems(users[b]) == KeysOn(p, b)
  {
  }

  /** One iteration of the outer loop: inactive backends shed everything, overloaded ones their excess. */
  method PlanBackend(t: Table, active: seq<string>, ideal: nat, backend: string, users: seq<string>, weight: nat,
                     planned0: map<string, int>, moves0: seq<Move>)
    returns (planned: map<string, int>, moves: seq<Move>)
    requires Steps(View(t), active, ideal, moves0)
    requires Shadow(planned0, Apply(View(t), moves0)) && forall b :: b in active ==> b in planned0
    requires backend in planned0 && weight == Load(View(t), backend)
    requires backend !in active || weight > ideal + 1 ==> planned0[backend] == weight
    requires Lists(users, View(t), backend)
    requires forall k :: k in users ==> Apply(View(t), moves0)[k] == View(t)[k]
    ensures moves0 <= moves
    ensures Steps(View(t), active, ideal, moves)
    ensures planned.Keys == planned0.Keys && Shadow(planned, Apply(View(t), moves))
    ensures forall k :: k in t && k !in users ==> Apply(View(t), moves)[k] == Apply(View(t), moves0)[k]
    ensures Settled(View(t), active, ideal, moves, Elems(users))
    ensures forall b :: b in planned && b != backend && (b !in active || planned0[b] > ideal + 1) ==>
            planned[b] == planned0[b]
  {
    hide Load, Steps, Apply, Stays, Skipped;
    planned, moves := planned0, moves0;
    if backend !in active {
      planned, moves := ShedBackend(t, active, ideal, backend, users, weight, planned, moves);
    } else if weight > ideal + 1 {
      planned, moves := ShedBackend(t, active, ideal, backend, users, weight - ideal - 1, planned, moves);
    } else {
      forall k | k in users ensures Stays(View(t), active, ideal, moves, k) {
        StaysFromStart(View(t), active, ideal, moves, k);
      }
    }
  }

  /** Keys on backends in `todo` are untouched; all others were moved or had a reason to stay. */
  ghost predicate Progress(p: Placement, active: seq<string>, ideal: int, moves: seq<Move>, todo: set<string>) {
    forall k :: k in p && Apply(p, moves)[k] == p[k] ==> p[k].backend in todo || Stays(p, active, ideal, moves, k)
  }

  ghost predicate Untouched(p: Placement, moves: seq<Move>, todo: set<string>) {
    forall k :: k in p && p[k].backend in todo ==> Apply(p, moves)[k] == p[k]
  }

  lemma ProgressNext(p: Placement, active: seq<string>, ideal: int, earlier: seq<Move>, moves: seq<Move>,
                     todo: set<string>, backend: string, users: seq<string>)
    requires earlier <= moves && Elems(users) == KeysOn(p, backend)
    requires Progress(p, active, ideal, earlier, todo) && Untouched(p, earlier, todo)
    requires Settled(p, active, ideal, moves, Elems(users))
    requires forall k :: k in p && k !in users ==> Apply(p, moves)[k] == Apply(p, earlier)[k]
    ensures Progress(p, active, ideal, moves, todo - {backend})
    ensures Untouched(p, moves, todo - {backend})
  {
    hide Apply, Stays;
    forall k | k in p && Apply(p, moves)[k] == p[k] && p[k].backend !in todo - {backend}
      ensures Stays(p, active, ideal, moves, k)
    {
      if k in users {
        assert k in Elems(users);
      } else {
        assert k !in KeysOn(p, backend);
        StaysLater(p, active, ideal, earlier, moves, k);
      }
    }
    forall k | k in p && p[k].backend in todo - {backend}
      ensures Apply(p, moves)[k] == p[k]
    {
      assert k !in KeysOn(p, backend);
    }
  }

  /** The outer loop over the backends that hold users. */
  method PlanBackends(t: Table, active: seq<string>, ideal: nat, weights: map<string, int>,
                      backendUsers: map<string, seq<string>>)
    returns (moves: seq<Move>, planned: map<string, int>)
    requires Shadow(weights, View(t)) && Knows(weights, View(t), active)
    requires Grouped(backendUsers, View(t))
    requires forall b :: b in backendUsers ==> b in weights
    ensures Steps(View(t), active, ideal, moves)
    ensures planned.Keys == weights.Keys && Shadow(planned, Apply(View(t), moves))
    ensures Progress(View(t), active, ideal, moves, {})
  {
    ghost var p := View(t);
    planned, moves := weights, [];
    var todo := backendUsers.Keys;
    ApplyNone(p, active, ideal);
    assert Untouched(p, moves, todo);
    assert Progress(p, active, ideal, moves, todo);
    hide Load, Steps, Apply, Stays, Lists, Grouped, KeysOn, Progress, Settled;
    while todo != {}
      invariant todo <= backendUsers.Keys
      invariant Steps(p, active, ideal, moves)
      invariant planned.Keys == weights.Keys && Shadow(planned, Apply(p, moves))
      invariant Untouched(p, moves, todo)
      invariant Progress(p, active, ideal, moves, todo)
      invariant forall b :: b in todo && (b !in active || weights[b] > ideal + 1) ==> planned[b] == weights[b]
    {
      var backend :| backend in todo;
      var users := backendUsers[backend];
      GroupKeys(backendUsers, p, backend);
      UntouchedKeys(p, moves, todo, backend, users);
      ghost var earlier := moves;
      planned, moves := PlanBackend(t, active, ideal, backend, users, weights[backend], planned, moves);
      ProgressNext(p, active, ideal, earlier, moves, todo, backend, users);
      todo := todo - {backend};
    }
  }

  lemma UntouchedKeys(p: Placement, moves: seq<Move>, todo: set<string>, backend: string, users: seq<string>)
    requires Elems(users) == KeysOn(p, backend) && backend in todo && Untouched(p, moves, todo)
    ensures forall k :: k in users ==> k in p && Apply(p, moves)[k] == p[k]
  {
    hide Apply;
    forall k | k in users ensures k in p && Apply(p, moves)[k] == p[k] {
      assert k in Elems(users);
    }
  }
}
