/** How long a lease protects its holder, and that operations under way always come to an end. */
module TransitionProgress {
  import opened Basics
  import opened Sums
  import opened HoldManager
  import opened TransitionSystem

  // -- Leases in terms of the clock ------------------------------------------------------------------------

  function Elapsed(events: seq<Event>): nat {
    if events == [] then 0 else
      var last := events[|events| - 1];
      Elapsed(events[..|events| - 1]) + if last.Tick? then last.d else 0
  }

  /** The clock shows the time that has passed. */
  lemma {:induction false} ClockIs(c: Config, states: seq<Sys>, events: seq<Event>, i: nat)
    requires Run(c, states, events) && i <= |events|
    ensures states[i].now == Elapsed(events[..i])
  {
    hide Mark, Clear, HoldsOf;
    if i > 0 {
      ClockIs(c, states, events, i - 1);
      assert events[..i][..|events[..i]| - 1] == events[..i - 1];
      ClockStep(c, states[i - 1], events[i - 1], states[i]);
    }
  }

  lemma ClockStep(c: Config, s: Sys, e: Event, s': Sys)
    requires Step(c, s, e) == Some(s')
    ensures s'.now == s.now + if e.Tick? then e.d else 0
  {
    hide Mark, Clear, HoldsOf;
  }

  /** Worker `w` took the lock at step `i` and has been under way until state `j`. */
  ghost predicate UnderWaySince(states: seq<Sys>, events: seq<Event>, w: Worker, i: nat, j: nat) {
    && i < j < |states| && i < |events| && events[i] == TryLock(w) && PhaseOf(states[i], w).Idle?
    && forall k :: i < k <= j ==> !PhaseOf(states[k], w).Idle?
  }

  /** When a lease taken at `now` runs out. */
  function RunsOut(c: Config, now: int): Option<int> {
    if c.distributed && c.ttl.Some? then Some(now + c.ttl.value) else None
  }

  lemma UntilStep(c: Config, s: Sys, e: Event, s': Sys, w: Worker)
    requires Step(c, s, e) == Some(s') && !PhaseOf(s', w).Idle?
    ensures PhaseOf(s, w).Idle? ==> e == TryLock(w) && PhaseOf(s', w) == Acquired(RunsOut(c, s.now))
    ensures !PhaseOf(s, w).Idle? ==> PhaseOf(s', w).until == PhaseOf(s, w).until
  {
    hide Mark, Clear, HoldsOf;
  }

  /** Whoever is under way took the lock, and its lease lasts the whole time to live from then on. */
  lemma {:induction false} LeaseLasts(c: Config, states: seq<Sys>, events: seq<Event>, j: nat, w: Worker)
    returns (i: nat)
    requires Run(c, states, events) && j <= |events| && !PhaseOf(states[j], w).Idle?
    ensures UnderWaySince(states, events, w, i, j)
    ensures PhaseOf(states[j], w).until == RunsOut(c, states[i].now)
  {
    hide Step, RunsOut;
    assert j > 0 by { assert PhaseOf(START, w).Idle?; }
    var n := j - 1;
    UntilStep(c, states[n], events[n], states[j], w);
    if PhaseOf(states[n], w).Idle? {
      i := n;
    } else {
      i := LeaseLasts(c, states, events, n, w);
    }
  }

  /** Every operation is over before its lease, which runs from when it took the lock, ends. */
  ghost predicate Prompt(c: Config, states: seq<Sys>, events: seq<Event>) {
    forall w, i: nat, j: nat :: UnderWaySince(states, events, w, i, j) && c.ttl.Some? ==>
      states[j].now < states[i].now + c.ttl.value
  }

  /** If every operation is prompt, no lease is taken over and operations exclude each other on all replicas. */
  lemma PromptRunsExclusive(c: Config, states: seq<Sys>, events: seq<Event>, i: nat)
    requires c.distributed && Run(c, states, events) && i <= |events| && Prompt(c, states, events)
    ensures NoTakeovers(states, events) && Exclusive(states[i])
  {
    hide Step, NoTakeovers, Exclusive;
    forall j, w | 0 <= j < |states| && !PhaseOf(states[j], w).Idle? && PhaseOf(states[j], w).until.Some?
      ensures states[j].now < PhaseOf(states[j], w).until.value
    {
      var k := LeaseLasts(c, states, events, j, w);
    }
    TimelyRunsExclusive(c, states, events, i);
  }

  /** A takeover comes no earlier than the time to live after the owner took the lock. */
  lemma TakeoverAfterTtl(c: Config, states: seq<Sys>, events: seq<Event>, j: nat, w: Worker)
    requires c.distributed && Run(c, states, events) && j < |events|
    requires events[j] == TryLock(w) && !NoTakeover(states[j], events[j]) && LeaseHeld(states[j])
    ensures c.ttl.Some? && states[j].lock.Some?
    ensures exists i: nat :: UnderWaySince(states, events, states[j].lock.value.owner, i, j)
                             && states[j].now >= states[i].now + c.ttl.value
  {
    hide Step;
    var i := LeaseLasts(c, states, events, j, states[j].lock.value.owner);
  }

  /** An unlock by an operation that was taken over frees the lease of the other, and lets a third one in. */
  lemma UnlockFreesOthers(c: Config, s: Sys, w: Worker, v: Worker, x: Worker) returns (s1: Sys, s2: Sys)
    requires c.distributed && PhaseOf(s, w).Releasing? && !PhaseOf(s, v).Idle? && v != w && PhaseOf(s, x).Idle?
    ensures Step(c, s, DistUnlock(w)) == Some(s1) && Step(c, s1, TryLock(x)) == Some(s2)
    ensures !PhaseOf(s2, v).Idle? && PhaseOf(s2, x).Acquired? && !Exclusive(s2)
  {
    s1 := Step(c, s, DistUnlock(w)).value;
    s2 := Step(c, s1, TryLock(x)).value;
  }

  // -- Nobody is stuck ---------------------------------------------------------------------------------------

  /** A step of an operation that is under way. */
  predicate Works(e: Event) {
    Actor(e).Some? && !e.TryLock?
  }

  /** The next step of an operation that does not wait for the mutex. */
  function NextStep(p: Phase, w: Worker): Event {
    match p
    case Inside(_, _) => ClearKeys(w)
    case Leaving(_) => UnlockMutex(w)
    case Releasing(_) => DistUnlock(w)
    case _ => TakeMutex(w)
  }

  lemma CanStep(c: Config, s: Sys, w: Worker)
    requires !PhaseOf(s, w).Idle? && (PhaseOf(s, w).Acquired? ==> w.replica !in s.mutex)
    ensures Works(NextStep(PhaseOf(s, w), w)) && Step(c, s, NextStep(PhaseOf(s, w), w)).Some?
  {
    hide Mark, Clear, HoldsOf;
  }

  /** Inside its critical section an operation can mark any keys once. */
  lemma CanMark(c: Config, s: Sys, w: Worker, keys: seq<string>)
    ensures Step(c, s, MarkKeys(w, keys)).Some? <==> PhaseOf(s, w).Inside? && PhaseOf(s, w).marked.None?
  {
  }

  /** While an operation is under way, some operation can take a step. */
  lemma NoDeadlock(c: Config, states: seq<Sys>, events: seq<Event>, i: nat, w: Worker)
    requires Run(c, states, events) && i <= |events| && !PhaseOf(states[i], w).Idle?
    ensures exists e :: Works(e) && Step(c, states[i], e).Some?
  {
    hide Step, Works, NextStep, HoldsOwned;
    HoldsBelongToHolder(c, states, events, i);
    var s := states[i];
    var v := if w.replica in s.mutex then s.mutex[w.replica] else w;
    assert w.replica in s.mutex ==> Critical(s, v);
    CanStep(c, s, v);
  }

  /** An idle worker can always try the lock; a try that finds it taken changes nothing. */
  lemma TryNeverBlocks(c: Config, s: Sys, w: Worker)
    requires PhaseOf(s, w).Idle?
    ensures Step(c, s, TryLock(w)).Some?
    ensures c.distributed && !Free(s) ==> Step(c, s, TryLock(w)) == Some(s)
    ensures !c.distributed || Free(s) ==> PhaseOf(Step(c, s, TryLock(w)).value, w).Acquired?
  {
  }

  /** A new request waits if and only if the operation in the replica's critical section has its key marked. */
  lemma WaitsIffMarked(c: Config, states: seq<Sys>, events: seq<Event>, i: nat, q: nat, r: nat, key: string)
    requires Run(c, states, events) && i <= |events| && q !in states[i].waiters && q !in states[i].answers
    ensures Step(c, states[i], Wait(q, r, key)).Some?
    ensures var s' := Step(c, states[i], Wait(q, r, key)).value;
            if key in MarkedBy(states[i], r) then q in s'.waiters && q !in s'.answers
            else q !in s'.waiters && q in s'.answers && !s'.answers[q]
  {
    HoldsBelongToHolder(c, states, events, i);
    assert HoldsOf(states[i], r).entries.Keys == MarkedBy(states[i], r);
  }

  /** Without a distributed lock TryLock always lets an idle worker through to the mutex of its replica. */
  lemma LocalLockTaken(c: Config, states: seq<Sys>, events: seq<Event>, i: nat, w: Worker)
    requires !c.distributed && Run(c, states, events) && i < |events| && PhaseOf(states[i], w).Idle?
    ensures Step(c, states[i], TryLock(w)).Some?
    ensures events[i] == TryLock(w) ==> PhaseOf(states[i + 1], w).Acquired?
  {
    assert Step(c, states[i], events[i]) == Some(states[i + 1]);
  }

  /** The mutex is free to take if and only if no goroutine of the replica is in its critical section. */
  lemma MutexTakenIff(c: Config, states: seq<Sys>, events: seq<Event>, i: nat, w: Worker)
    requires Run(c, states, events) && i <= |events| && PhaseOf(states[i], w).Acquired?
    ensures Step(c, states[i], TakeMutex(w)).Some? <==>
            forall v: Worker :: v.replica == w.replica ==> !Critical(states[i], v)
  {
    hide HoldsOwned;
    HoldsBelongToHolder(c, states, events, i);
    var s := states[i];
    if w.replica in s.mutex {
      assert Critical(s, s.mutex[w.replica]) && s.mutex[w.replica].replica == w.replica;
    }
  }

  // -- Operations end ------------------------------------------------------------------------------------------

  /** The most steps an operation can still take. */
  function Remaining(p: Phase): nat {
    match p
    case Idle => 0
    case Releasing(_) => 1
    case Leaving(_) => 2
    case Inside(_, marked) => if marked.Some? then 3 else 4
    case Acquired(_) => 5
  }

  ghost function RemainingOf(phase: map<Worker, Phase>): map<Worker, int> {
    map w | w in phase :: Remaining(phase[w])
  }

  ghost function AllRemaining(s: Sys): int {
    Sum(RemainingOf(s.phase))
  }

  lemma RemainingTo(s: Sys, w: Worker, p: Phase)
    ensures AllRemaining(To(s, w, p)) == AllRemaining(s) - Remaining(PhaseOf(s, w)) + Remaining(p)
  {
    var m := RemainingOf(s.phase);
    SumPut(m, w, Remaining(p));
    assert RemainingOf(To(s, w, p).phase) == m[w := Remaining(p)];
    if w in m {
      SumRemove(m, w);
    } else {
      assert m - {w} == m;
    }
  }

  /** A step of an operation brings it nearer to its end and concerns no other. */
  lemma StepRemaining(c: Config, s: Sys, e: Event, s': Sys)
    requires Step(c, s, e) == Some(s')
    ensures Works(e) ==> s'.phase == To(s, e.w, PhaseOf(s', e.w)).phase
                         && Remaining(PhaseOf(s', e.w)) < Remaining(PhaseOf(s, e.w))
    ensures Actor(e).None? ==> s'.phase == s.phase
  {
    hide Mark, Clear, HoldsOf;
  }

  ghost function CountWorks(events: seq<Event>): nat {
    if events == [] then 0 else CountWorks(events[..|events| - 1]) + if Works(events[|events| - 1]) then 1 else 0
  }

  lemma CountNext(events: seq<Event>, i: nat, j: nat)
    requires i <= j < |events|
    ensures CountWorks(events[i..j + 1]) == CountWorks(events[i..j]) + if Works(events[j]) then 1 else 0
  {
    assert events[i..j + 1][..|events[i..j + 1]| - 1] == events[i..j];
  }

  /** Unless somebody tries the lock again, every step taken uses up what remained. */
  lemma {:induction false} OperationsEnd(c: Config, states: seq<Sys>, events: seq<Event>, i: nat, j: nat)
    requires Run(c, states, events) && i <= j <= |events|
    requires forall k :: i <= k < j ==> !events[k].TryLock?
    ensures CountWorks(events[i..j]) + AllRemaining(states[j]) <= AllRemaining(states[i])
  {
    hide Step, AllRemaining, CountWorks;
    if i == j {
      assert CountWorks(events[i..j]) == 0 by { NoWorks(events[i..j]); }
    } else {
      var n := j - 1;
      OperationsEnd(c, states, events, i, n);
      CountNext(events, i, n);
      var (s, e, s') := (states[n], events[n], states[j]);
      StepRemaining(c, s, e, s');
      if Works(e) {
        RemainingTo(s, e.w, PhaseOf(s', e.w));
        SamePhases(s', To(s, e.w, PhaseOf(s', e.w)));
      } else {
        SamePhases(s', s);
      }
    }
  }

  lemma NoWorks(events: seq<Event>)
    requires events == []
    ensures CountWorks(events) == 0
  {
  }

  lemma SamePhases(s: Sys, s': Sys)
    requires s.phase == s'.phase
    ensures AllRemaining(s) == AllRemaining(s')
  {
  }

  lemma {:induction false} RemainingAtMost(m: map<Worker, int>)
    requires forall w :: w in m ==> 0 <= m[w] <= 5
    ensures 0 <= Sum(m) <= 5 * |m|
  {
    if m != map[] {
      var w :| w in m;
      SumRemove(m, w);
      RemainingAtMost(m - {w});
      assert (m - {w}).Keys == m.Keys - {w} && |(m - {w}).Keys| == |m.Keys| - 1;
    }
  }

  /** So `n` operations take at most five steps each. */
  lemma AtMostFiveEach(c: Config, states: seq<Sys>, events: seq<Event>, i: nat, j: nat)
    requires Run(c, states, events) && i <= j <= |events|
    requires forall k :: i <= k < j ==> !events[k].TryLock?
    ensures CountWorks(events[i..j]) <= 5 * |states[i].phase|
  {
    hide Step;
    OperationsEnd(c, states, events, i, j);
    var m, left := RemainingOf(states[i].phase), RemainingOf(states[j].phase);
    RemainingAtMost(m);
    RemainingAtMost(left);
    assert m.Keys == states[i].phase.Keys && |m| == |m.Keys|;
  }
}
