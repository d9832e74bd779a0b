/** The assignment table and the weight each backend carries in it. */
module Assignments {
  import opened Sums

  datatype Assignment = Assignment(backend: string, assignedAt: int, source: string, weight: int)

  datatype BulkAssignEntry = BulkAssignEntry(backend: string, weight: int)

  type Table = map<string, Assignment>

  function Normal(weight: int): (w: nat)
    ensures w >= 1
    ensures weight >= 1 ==> w == weight
    ensures weight <= 0 ==> w == 1
  {
    if weight <= 0 then 1 else weight
  }

  function EffectiveWeight(a: Assignment): (w: nat)
    ensures w >= 1
    ensures a.weight >= 1 ==> w == a.weight
    ensures a.weight <= 0 ==> w == 1
  {
    Normal(a.weight)
  }

  /** What routing and balancing see of an assignment: where it is and how much it weighs. */
  datatype Slot = Slot(backend: string, weight: nat)

  type Placement = map<string, Slot>

  function View(t: Table): (p: Placement)
    ensures p.Keys == t.Keys
  {
    map k | k in t :: Slot(t[k].backend, EffectiveWeight(t[k]))
  }

  /** Weights as they are stored: never zero. */
  ghost predicate Weighed(p: Placement) {
    forall k :: k in p ==> p[k].weight >= 1
  }

  lemma ViewWeighed(t: Table)
    ensures Weighed(View(t))
  {
  }

  ghost function Shares(p: Placement, on: iset<string>): (m: map<string, int>)
    ensures m.Keys == p.Keys
  {
    map k | k in p :: if p[k].backend in on then p[k].weight else 0
  }

  /** Total weight of the keys placed on the backends in `on`. */
  ghost function WeightOn(p: Placement, on: iset<string>): (w: nat)
  {
    SumNonNegative(Shares(p, on));
    Sum(Shares(p, on))
  }

  ghost function Load(p: Placement, b: string): nat {
    WeightOn(p, iset{b})
  }

  /** Weight left on backends outside `active`. */
  ghost function Stranded(p: Placement, active: set<string>): nat {
    WeightOn(p, iset b: string | b !in active)
  }

  ghost function Total(p: Placement): nat {
    Stranded(p, {})
  }

  lemma WeightRemove(p: Placement, k: string, on: iset<string>)
    requires k in p
    ensures WeightOn(p, on) == WeightOn(p - {k}, on) + (if p[k].backend in on then p[k].weight else 0)
  {
    SumRemove(Shares(p, on), k);
    assert Shares(p, on) - {k} == Shares(p - {k}, on);
  }

  lemma WeightPut(p: Placement, k: string, s: Slot, on: iset<string>)
    ensures WeightOn(p[k := s], on) == WeightOn(p - {k}, on) + (if s.backend in on then s.weight else 0)
  {
    WeightRemove(p[k := s], k, on);
    assert p[k := s] - {k} == p - {k};
  }

  /** Putting a key that was absent adds its weight to its backend and to nothing else. */
  lemma LoadPut(p: Placement, k: string, s: Slot)
    requires k !in p
    ensures forall b :: Load(p[k := s], b) == Load(p, b) + (if b == s.backend then s.weight else 0)
  {
    forall b
      ensures Load(p[k := s], b) == Load(p, b) + (if b == s.backend then s.weight else 0)
    {
      WeightPut(p, k, s, iset{b});
      assert p - {k} == p;
    }
  }

  lemma LoadRemove(p: Placement, k: string)
    requires k in p
    ensures forall b :: Load(p, b) == Load(p - {k}, b) + (if b == p[k].backend then p[k].weight else 0)
  {
    forall b
      ensures Load(p, b) == Load(p - {k}, b) + (if b == p[k].backend then p[k].weight else 0)
    {
      WeightRemove(p, k, iset{b});
    }
  }

  lemma LoadEmpty(b: string)
    ensures Load(map[], b) == 0
  {
    assert Shares(map[], iset{b}) == map[];
  }

  /** A key's weight is part of its backend's load. */
  lemma LoadAtLeast(p: Placement, k: string)
    requires k in p
    ensures Load(p, p[k].backend) >= p[k].weight
  {
    WeightRemove(p, k, iset{p[k].backend});
  }

  /** A loaded backend holds some key. */
  lemma LoadedHasKey(p: Placement, b: string) returns (k: string)
    requires Load(p, b) > 0
    ensures k in p && p[k].backend == b
  {
    if forall k :: k in p ==> p[k].backend != b {
      LoadZero(p, b);
      assert false;
    }
    k :| k in p && p[k].backend == b;
  }

  lemma {:induction false} LoadZero(p: Placement, b: string)
    requires forall k :: k in p ==> p[k].backend != b
    ensures Load(p, b) == 0
    decreases p.Keys
  {
    if p == map[] {
      LoadEmpty(b);
    } else {
      var k :| k in p;
      assert (p - {k}).Keys == p.Keys - {k};
      LoadRemove(p, k);
      LoadZero(p - {k}, b);
    }
  }
}
