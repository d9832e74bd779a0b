/**
 * Drains and rebalances of any number of goroutines on any number of replicas, under TransitionLock
 * and HoldManager. The distributed lock is a key that TryLock sets if absent and Unlock deletes; with a
 * time to live it is the Redis lease, without one it is a lock that only its holder's release frees.
 */
module TransitionSystem {
  import opened Basics
  import opened HoldManager

  /** A goroutine and the replica it runs on. */
  datatype Worker = Worker(replica: nat, id: nat)

  /** Where a drain or rebalance stands; `until` is when the lease it took runs out. */
  datatype Phase =
    | Idle
    | Acquired(until: Option<int>)                     // distributed lock taken, local mutex not yet
    | Inside(until: Option<int>, marked: Option<seq<string>>)
    | Leaving(until: Option<int>)                      // holds cleared, mutex still held
    | Releasing(until: Option<int>)                    // mutex released, distributed lock not yet

  datatype Lease = Lease(owner: Worker, until: Option<int>)

  datatype Config = Config(distributed: bool, ttl: Option<nat>)

  datatype Sys = Sys(now: int, lock: Option<Lease>, mutex: map<nat, Worker>, phase: map<Worker, Phase>,
                     holds: map<nat, Holds>, waiters: map<nat, (nat, nat)>, answers: map<nat, bool>)

  function PhaseOf(s: Sys, w: Worker): Phase {
    if w in s.phase then s.phase[w] else Idle
  }

  function HoldsOf(s: Sys, r: nat): Holds {
    if r in s.holds then s.holds[r] else Holds(map[], [], 0)
  }

  predicate Expired(lease: Lease, now: int) {
    lease.until.Some? && now >= lease.until.value
  }

  predicate Free(s: Sys) {
    s.lock.None? || Expired(s.lock.value, s.now)
  }

  datatype Event =
    | TryLock(w: Worker)
    | TakeMutex(w: Worker)
    | MarkKeys(w: Worker, keys: seq<string>)
    | ClearKeys(w: Worker)
    | UnlockMutex(w: Worker)
    | DistUnlock(w: Worker)
    | Tick(d: nat)
    | Wait(request: nat, replica: nat, key: string)
    | Wake(request: nat, cause: Cause)

  /** What ends a wait; the clock and the request's context may do so at any time. */
  datatype Cause = Done | Timeout | Cancelled

  function To(s: Sys, w: Worker, p: Phase): Sys {
    s.(phase := s.phase[w := p])
  }

  /** One step; `None` when the event is not enabled. */
  function Step(c: Config, s: Sys, e: Event): Option<Sys> {
    match e
    case TryLock(w) =>
      if !PhaseOf(s, w).Idle? then None
      else if !c.distributed then Some(To(s, w, Acquired(None)))
      else if !Free(s) then Some(s)
      else
        var until := if c.ttl.Some? then Some(s.now + c.ttl.value) else None;
        Some(To(s, w, Acquired(until)).(lock := Some(Lease(w, until))))
    case TakeMutex(w) =>
      if !PhaseOf(s, w).Acquired? || w.replica in s.mutex then None
      else Some(To(s, w, Inside(PhaseOf(s, w).until, None)).(mutex := s.mutex[w.replica := w]))
    case MarkKeys(w, keys) =>
      var p := PhaseOf(s, w);
      if !p.Inside? || p.marked.Some? then None
      else Some(To(s, w,
        Inside(p.until, Some(keys))).(holds := s.holds[w.replica := Mark(HoldsOf(s, w.replica), keys)]))
    case ClearKeys(w) =>
      var p := PhaseOf(s, w);
      if !p.Inside? then None
      else if p.marked.None? then Some(To(s, w, Leaving(p.until)))
      else Some(To(s, w,
        Leaving(p.until)).(holds := s.holds[w.replica := Clear(HoldsOf(s, w.replica), p.marked.value)]))
    case UnlockMutex(w) =>
      if !PhaseOf(s, w).Leaving? then None
      else Some(To(s, w, if c.distributed then Releasing(PhaseOf(s, w).until)
        else Idle).(mutex := s.mutex - {w.replica}))
    case DistUnlock(w) =>
      if !PhaseOf(s, w).Releasing? then None else Some(To(s, w, Idle).(lock := None))
    case Tick(d) =>
      Some(s.(now := s.now + d))
    case Wait(request, r, key) =>
      if request in s.waiters || request in s.answers then None
      else if key !in HoldsOf(s, r).entries then Some(s.(answers := s.answers[request := false]))
      else Some(s.(waiters := s.waiters[request := (r, HoldsOf(s, r).entries[key])]))
    case Wake(request, cause) =>
      if request !in s.waiters then None
      else if cause.Done? && s.waiters[request].1 !in HoldsOf(s, s.waiters[request].0).closings then None
      else Some(s.(waiters := s.waiters - {request}, answers := s.answers[request := cause.Done?]))
  }

  const START := Sys(0, None, map[], map[], map[], map[], map[])

  ghost predicate Run(c: Config, states: seq<Sys>, events: seq<Event>) {
    && |states| == |events| + 1 && states[0] == START
    && forall i :: 0 <= i < |events| ==> Step(c, states[i], events[i]) == Some(states[i + 1])
  }

  predicate Critical(s: Sys, w: Worker) {
    PhaseOf(s, w).Inside? || PhaseOf(s, w).Leaving?
  }

  // -- The local mutex ---------------------------------------------------------------

  /** The mutex of a replica is held exactly by its worker in the critical section. */
  ghost predicate MutexHeld(s: Sys) {
    forall r, w :: (r in s.mutex && s.mutex[r] == w) <==> (w.replica == r && Critical(s, w))
  }

  function Actor(e: Event): Option<Worker> {
    if e.Tick? || e.Wait? || e.Wake? then None else Some(e.w)
  }

  /** A step of one worker leaves the phase of every other worker alone. */
  lemma OthersKeepPhase(c: Config, s: Sys, e: Event, s': Sys, v: Worker)
    requires Step(c, s, e) == Some(s') && Actor(e) != Some(v)
    ensures PhaseOf(s', v) == PhaseOf(s, v)
  {
    hide Mark, Clear, HoldsOf;
  }

  /** How the mutexes change. */
  lemma MutexChange(c: Config, s: Sys, e: Event, s': Sys)
    requires Step(c, s, e) == Some(s')
    ensures match e
            case TakeMutex(w) => !Critical(s, w) && Critical(s', w) && w.replica !in s.mutex
              && s'.mutex == s.mutex[w.replica := w]
            case UnlockMutex(w) => Critical(s, w) && !Critical(s', w) && s'.mutex == s.mutex - {w.replica}
            case _ =>
              s'.mutex == s.mutex && (Actor(e).Some? ==> Critical(s', Actor(e).value) == Critical(s, Actor(e).value))
  {
    hide Mark, Clear, HoldsOf;
  }

  lemma MutexStep(c: Config, s: Sys, e: Event, s': Sys)
    requires MutexHeld(s) && Step(c, s, e) == Some(s')
    ensures MutexHeld(s')
  {
    hide Step;
    MutexChange(c, s, e, s');
    forall r, w ensures (r in s'.mutex && s'.mutex[r] == w) <==> (w.replica == r && Critical(s', w)) {
      assert (r in s.mutex && s.mutex[r] == w) <==> (w.replica == r && Critical(s, w));
      if Actor(e) != Some(w) {
        OthersKeepPhase(c, s, e, s', w);
      }
    }
  }

  // -- Holds --------------------------------------------------------------------------

  function MarkedIn(p: Phase): Option<seq<string>> {
    if p.Inside? then p.marked else None
  }

  /** The keys the operation in a replica's critical section has marked and not cleared. */
  function MarkedBy(s: Sys, r: nat): set<string> {
    if r in s.mutex && MarkedIn(PhaseOf(s, s.mutex[r])).Some? then Elems(MarkedIn(PhaseOf(s, s.mutex[r])).value) else {}
  }

  /** Held keys are exactly those; hold entries are sound; every waiter's entry is in the map or closed. */
  ghost predicate HoldsOwned(s: Sys) {
    && (forall r :: Sound(HoldsOf(s, r)) && HoldsOf(s, r).entries.Keys == MarkedBy(s, r))
    && (forall q :: q in s.waiters ==> Released(HoldsOf(s, s.waiters[q].0), s.waiters[q].1))
  }

  lemma MutexOf(s: Sys, w: Worker)
    requires MutexHeld(s) && Critical(s, w)
    ensures w.replica in s.mutex && s.mutex[w.replica] == w
  {
  }

  lemma NotMutexOf(s: Sys, w: Worker, r: nat)
    requires MutexHeld(s) && !(Critical(s, w) && w.replica == r)
    ensures r in s.mutex ==> s.mutex[r] != w
  {
  }

  lemma HoldsStep(c: Config, s: Sys, e: Event, s': Sys)
    requires MutexHeld(s) && HoldsOwned(s) && Step(c, s, e) == Some(s')
    ensures HoldsOwned(s')
  {
    hide Mark, Clear, Sound, Released, MutexHeld;
    MutexStep(c, s, e, s');
    forall r ensures Sound(HoldsOf(s', r)) && HoldsOf(s', r).entries.Keys == MarkedBy(s', r) {
      HoldsReplica(c, s, e, s', r);
    }
    forall q | q in s'.waiters ensures Released(HoldsOf(s', s'.waiters[q].0), s'.waiters[q].1) {
      WaiterStep(c, s, e, s', q);
    }
  }

  /** How the holds of a replica change. */
  lemma HoldsChange(c: Config, s: Sys, e: Event, s': Sys, r: nat)
    requires Step(c, s, e) == Some(s')
    ensures HoldsOf(s', r) ==
            if e.MarkKeys? && e.w.replica == r then Mark(HoldsOf(s, r), e.keys)
            else if e.ClearKeys? && e.w.replica == r && MarkedIn(PhaseOf(s, e.w)).Some?
            then Clear(HoldsOf(s, r), MarkedIn(PhaseOf(s, e.w)).value)
            else HoldsOf(s, r)
  {
    hide Mark, Clear;
  }

  /** How the set of marked keys changes. */
  lemma MarkedChange(c: Config, s: Sys, e: Event, s': Sys, r: nat)
    requires MutexHeld(s) && MutexHeld(s') && Step(c, s, e) == Some(s')
    ensures e.MarkKeys? && e.w.replica == r ==> MarkedBy(s, r) == {} && MarkedBy(s', r) == Elems(e.keys)
    ensures e.ClearKeys? && e.w.replica == r ==>
              MarkedBy(s', r) == {} &&
              MarkedBy(s, r) == if MarkedIn(PhaseOf(s, e.w)).Some? then Elems(MarkedIn(PhaseOf(s, e.w)).value) else {}
    ensures !(e.MarkKeys? || e.ClearKeys?) || e.w.replica != r ==> MarkedBy(s', r) == MarkedBy(s, r)
  {
    hide MutexHeld, Step;
    if (e.MarkKeys? || e.ClearKeys?) && e.w.replica == r {
      MarkedByActor(c, s, e, s');
    } else {
      MarkedKept(c, s, e, s', r);
    }
  }

  lemma MarkedByActor(c: Config, s: Sys, e: Event, s': Sys)
    requires MutexHeld(s) && Step(c, s, e) == Some(s') && (e.MarkKeys? || e.ClearKeys?)
    ensures e.MarkKeys? ==> MarkedBy(s, e.w.replica) == {} && MarkedBy(s', e.w.replica) == Elems(e.keys)
    ensures e.ClearKeys? ==>
              MarkedBy(s', e.w.replica) == {} &&
              MarkedBy(s, e.w.replica) == if MarkedIn(PhaseOf(s, e.w)).Some?
                then Elems(MarkedIn(PhaseOf(s, e.w)).value) else {}
  {
    hide Mark, Clear, MutexHeld, HoldsOf;
    MutexOf(s, e.w);
  }

  lemma MarkedKept(c: Config, s: Sys, e: Event, s': Sys, r: nat)
    requires MutexHeld(s) && Step(c, s, e) == Some(s')
    requires !(e.MarkKeys? || e.ClearKeys?) || e.w.replica != r
    ensures MarkedBy(s', r) == MarkedBy(s, r)
  {
    hide MutexHeld, Step, Elems;
    MutexChange(c, s, e, s');
    UnmarkedPhases(c, s, e, s');
    if e.UnlockMutex? {
      MutexOf(s, e.w);
    }
    if r in s.mutex {
      var v := s.mutex[r];
      if Actor(e) != Some(v) {
        OthersKeepPhase(c, s, e, s', v);
      } else if v.replica != r {
        NotMutexOf(s, v, r);
      }
    }
  }

  /** Only marking and clearing change what a worker has marked. */
  lemma UnmarkedPhases(c: Config, s: Sys, e: Event, s': Sys)
    requires Step(c, s, e) == Some(s')
    ensures Actor(e).Some? && !e.MarkKeys? && !e.ClearKeys? ==>
              MarkedIn(PhaseOf(s', e.w)).None? && MarkedIn(PhaseOf(s, e.w)).None?
  {
    hide HoldsOf;
  }

  lemma HoldsReplica(c: Config, s: Sys, e: Event, s': Sys, r: nat)
    requires MutexHeld(s) && MutexHeld(s') && Step(c, s, e) == Some(s')
    requires Sound(HoldsOf(s, r)) && HoldsOf(s, r).entries.Keys == MarkedBy(s, r)
    ensures Sound(HoldsOf(s', r)) && HoldsOf(s', r).entries.Keys == MarkedBy(s', r)
  {
    hide Mark, Clear, Sound, MutexHeld, Step, HoldsOf, MarkedBy;
    HoldsChange(c, s, e, s', r);
    MarkedChange(c, s, e, s', r);
    if e.MarkKeys? && e.w.replica == r {
      MarkHolds(HoldsOf(s, r), e.keys);
    } else if e.ClearKeys? && e.w.replica == r && MarkedIn(PhaseOf(s, e.w)).Some? {
      ClearReleases(HoldsOf(s, r), MarkedIn(PhaseOf(s, e.w)).value);
    }
  }

  lemma WaiterStep(c: Config, s: Sys, e: Event, s': Sys, q: nat)
    requires HoldsOwned(s) && Step(c, s, e) == Some(s') && q in s'.waiters
    ensures Released(HoldsOf(s', s'.waiters[q].0), s'.waiters[q].1)
  {
    hide Mark, Clear, Sound;
    if q in s.waiters && s'.waiters[q] == s.waiters[q] {
      var (r, id) := s.waiters[q];
      if e.MarkKeys? && e.w.replica == r {
        WaitersReleased(HoldsOf(s, r), e.keys, id);
      } else if e.ClearKeys? && e.w.replica == r && PhaseOf(s, e.w).marked.Some? {
        WaitersReleased(HoldsOf(s, r), PhaseOf(s, e.w).marked.value, id);
      }
    }
  }

  /**
   * In every reachable state, with or without a distributed lock: at most one goroutine of a replica is in
   * the critical section, the held keys are exactly those it marked and has not cleared, they are gone
   * before it unlocks, waiters' entries are in the map or closed, and no entry was closed twice.
   */
  lemma {:induction false} HoldsBelongToHolder(c: Config, states: seq<Sys>, events: seq<Event>, i: nat)
    requires Run(c, states, events) && i <= |events|
    ensures MutexHeld(states[i]) && HoldsOwned(states[i])
  {
    hide Step;
    if i == 0 {
      StartSound();
    } else {
      HoldsBelongToHolder(c, states, events, i - 1);
      MutexStep(c, states[i - 1], events[i - 1], states[i]);
      HoldsStep(c, states[i - 1], events[i - 1], states[i]);
    }
  }

  lemma StartSound()
    ensures MutexHeld(START) && HoldsOwned(START)
  {
  }

  lemma OnePerReplica(s: Sys, w: Worker, v: Worker)
    requires MutexHeld(s) && Critical(s, w) && Critical(s, v) && w.replica == v.replica
    ensures w == v
  {
    MutexOf(s, w);
    MutexOf(s, v);
  }

  /** An operation that has left its critical section, or is about to unlock, holds no key. */
  lemma ClearedBeforeUnlock(s: Sys, w: Worker)
    requires MutexHeld(s) && HoldsOwned(s) && PhaseOf(s, w).Leaving?
    ensures HoldsOf(s, w.replica).entries == map[]
  {
    MutexOf(s, w);
    assert HoldsOf(s, w.replica).entries.Keys == {};
  }

  // -- Waiting requests ------------------------------------------------------------------

  /** An entry stays in the map under its key until the operation that marked the key clears it. */
  lemma EntryStep(c: Config, s: Sys, e: Event, s': Sys, r: nat, key: string)
    requires HoldsOwned(s) && Step(c, s, e) == Some(s') && key in HoldsOf(s, r).entries
    ensures var id := HoldsOf(s, r).entries[key];
            if Clears(s, e, r, key) then id in HoldsOf(s', r).closings
            else key in HoldsOf(s', r).entries && HoldsOf(s', r).entries[key] == id
  {
    hide Mark, Clear, Sound, MarkedBy, Step;
    HoldsChange(c, s, e, s', r);
    var h := HoldsOf(s, r);
    if e.MarkKeys? && e.w.replica == r {
      MarkHolds(h, e.keys);
    } else if e.ClearKeys? && e.w.replica == r && MarkedIn(PhaseOf(s, e.w)).Some? {
      ClearReleases(h, MarkedIn(PhaseOf(s, e.w)).value);
    }
  }

  /** The step ends the transition of `key` on replica `r`. */
  predicate Clears(s: Sys, e: Event, r: nat, key: string) {
    e.ClearKeys? && e.w.replica == r && MarkedIn(PhaseOf(s, e.w)).Some? && key in MarkedIn(PhaseOf(s, e.w)).value
  }

  /** The entry a request waits on stays open until the key's transition ends. */
  lemma {:induction false} OpenUntilCleared(c: Config, states: seq<Sys>, events: seq<Event>, i: nat, j: nat, r: nat,
                                            key: string)
    requires Run(c, states, events) && i <= j <= |events| && key in HoldsOf(states[i], r).entries
    requires forall t :: i <= t < j ==> !Clears(states[t], events[t], r, key)
    ensures key in HoldsOf(states[j], r).entries
            && HoldsOf(states[j], r).entries[key] == HoldsOf(states[i], r).entries[key]
  {
    hide Step, HoldsOwned, Clears;
    if i < j {
      OpenUntilCleared(c, states, events, i, j - 1, r, key);
      HoldsBelongToHolder(c, states, events, j - 1);
      assert !Clears(states[j - 1], events[j - 1], r, key);
      EntryStep(c, states[j - 1], events[j - 1], states[j], r, key);
    }
  }

  lemma RequestStep(c: Config, s: Sys, e: Event, s': Sys, q: nat)
    requires Step(c, s, e) == Some(s')
    ensures q in s.answers ==> q in s'.answers && (q !in s.waiters ==> q !in s'.waiters)
    ensures q in s.waiters && !(e.Wake? && e.request == q) ==> q in s'.waiters && s'.waiters[q] == s.waiters[q]
  {
    hide Mark, Clear, HoldsOf, PhaseOf;
  }

  /** A request keeps waiting on the same entry until it is woken. */
  lemma {:induction false} WaitsOn(c: Config, states: seq<Sys>, events: seq<Event>, i: nat, j: nat, q: nat)
    requires Run(c, states, events) && i <= j <= |events| && q in states[i].waiters
    requires forall t :: i <= t < j ==> !(events[t].Wake? && events[t].request == q)
    ensures q in states[j].waiters && states[j].waiters[q] == states[i].waiters[q]
  {
    hide Step;
    if i < j {
      WaitsOn(c, states, events, i, j - 1, q);
      RequestStep(c, states[j - 1], events[j - 1], states[j], q);
    }
  }

  /** Wait answers true only if the key was in transition when it was asked and that transition has ended since. */
  lemma TrueMeansCleared(c: Config, states: seq<Sys>, events: seq<Event>, i: nat, j: nat, q: nat, r: nat, key: string)
    requires Run(c, states, events) && i < j < |events| && events[i] == Wait(q, r, key) && events[j] == Wake(q, Done)
    requires forall t :: i < t < j ==> !(events[t].Wake? && events[t].request == q)
    ensures key in HoldsOf(states[i], r).entries
    ensures exists t :: i < t < j && Clears(states[t], events[t], r, key)
    ensures q in states[j + 1].answers && states[j + 1].answers[q]
  {
    hide Mark, Clear, HoldsOwned, Clears;
    assert Step(c, states[i], events[i]) == Some(states[i + 1]) && Step(c, states[j], events[j]) == Some(states[j + 1]);
    if key !in HoldsOf(states[i], r).entries {
      NeverWaits(c, states, events, i + 1, j, q);
    }
    WaitsOn(c, states, events, i + 1, j, q);
    if forall t :: i < t < j ==> !Clears(states[t], events[t], r, key) {
      OpenUntilCleared(c, states, events, i + 1, j, r, key);
      HoldsBelongToHolder(c, states, events, j);
      OpenNotClosed(states[j], r, key);
    }
  }

  lemma OpenNotClosed(s: Sys, r: nat, key: string)
    requires HoldsOwned(s) && key in HoldsOf(s, r).entries
    ensures HoldsOf(s, r).entries[key] !in HoldsOf(s, r).closings
  {
    assert Sound(HoldsOf(s, r));
  }

  /** An answered request stays answered. */
  lemma {:induction false} NeverWaits(c: Config, states: seq<Sys>, events: seq<Event>, i: nat, j: nat, q: nat)
    requires Run(c, states, events) && i <= j <= |events| && q in states[i].answers && q !in states[i].waiters
    ensures q in states[j].answers && q !in states[j].waiters
  {
    hide Step;
    if i < j {
      NeverWaits(c, states, events, i, j - 1, q);
      RequestStep(c, states[j - 1], events[j - 1], states[j], q);
    }
  }

  /**
   * A waiting request can be answered true if and only if its entry has left the map, and answered false at any time.
   */
  lemma WakesOnceCleared(c: Config, states: seq<Sys>, events: seq<Event>, i: nat, q: nat)
    requires Run(c, states, events) && i <= |events| && q in states[i].waiters
    ensures var (r, id) := states[i].waiters[q];
            Step(c, states[i], Wake(q, Done)).Some? <==>
            forall k :: k in HoldsOf(states[i], r).entries ==> HoldsOf(states[i], r).entries[k] != id
    ensures Step(c, states[i], Wake(q, Timeout)).Some? && Step(c, states[i], Wake(q, Cancelled)).Some?
  {
    hide Mark, Clear;
    HoldsBelongToHolder(c, states, events, i);
    var (r, id) := states[i].waiters[q];
    assert Sound(HoldsOf(states[i], r)) && Released(HoldsOf(states[i], r), id);
  }

  /** The answer a step gives to request `q`, if it gives one. */
  function Reply(s: Sys, e: Event, q: nat): Option<bool> {
    if e.Wait? && e.request == q && e.key !in HoldsOf(s, e.replica).entries then Some(false)
    else if e.Wake? && e.request == q then Some(e.cause == Done)
    else None
  }

  lemma ReplyStep(c: Config, s: Sys, e: Event, s': Sys, q: nat)
    requires Step(c, s, e) == Some(s') && !(q in s.waiters && q in s.answers)
    ensures !(q in s'.waiters && q in s'.answers)
    ensures q in s.answers ==> Reply(s, e, q).None?
    ensures Reply(s, e, q).Some? ==> q in s'.answers && s'.answers[q] == Reply(s, e, q).value
    ensures Reply(s, e, q).None? ==>
              (q in s'.answers <==> q in s.answers) && (q in s.answers ==> s'.answers[q] == s.answers[q])
    ensures q in s'.waiters && q !in s.waiters ==>
            e.Wait? && e.request == q && e.key in HoldsOf(s, e.replica).entries
  {
    if e.Wait? || e.Wake? {
      hide HoldsOf;
    } else {
      RequestsKept(c, s, e, s');
      hide Step;
    }
  }

  lemma RequestsKept(c: Config, s: Sys, e: Event, s': Sys)
    requires Step(c, s, e) == Some(s') && !e.Wait? && !e.Wake?
    ensures s'.waiters == s.waiters && s'.answers == s.answers
  {
    hide Mark, Clear, PhaseOf, HoldsOf;
  }

  /** A request has an answer if and only if some step replied to it, and the answer is that reply. */
  lemma {:induction false} AnsweredBy(c: Config, states: seq<Sys>, events: seq<Event>, j: nat, q: nat, answer: bool)
    requires Run(c, states, events) && j <= |events|
    ensures !(q in states[j].waiters && q in states[j].answers)
    ensures q in states[j].answers && states[j].answers[q] == answer <==>
            exists u :: 0 <= u < j && Reply(states[u], events[u], q) == Some(answer)
    ensures q in states[j].answers ==> exists u :: 0 <= u < j && Reply(states[u], events[u], q).Some?
  {
    hide Step, Reply;
    if j > 0 {
      var n := j - 1;
      AnsweredBy(c, states, events, n, q, answer);
      AnsweredBy(c, states, events, n, q, !answer);
      ReplyStep(c, states[n], events[n], states[j], q);
      if q in states[n].answers && states[n].answers[q] == answer {
        var u :| 0 <= u < n && Reply(states[u], events[u], q) == Some(answer);
        assert 0 <= u < j;
      }
      if u :| 0 <= u < j && Reply(states[u], events[u], q) == Some(answer) && u < n {
        assert 0 <= u < n;
      }
    }
  }

  /** Whoever waits asked for a key that was held. */
  lemma {:induction false} WaiterAsked(c: Config, states: seq<Sys>, events: seq<Event>, j: nat, q: nat) returns (i: nat)
    requires Run(c, states, events) && j <= |events| && q in states[j].waiters
    ensures i < j && events[i].Wait? && events[i].request == q
    ensures events[i].key in HoldsOf(states[i], events[i].replica).entries
    ensures forall t :: i < t < j ==> !(events[t].Wake? && events[t].request == q)
  {
    hide Step, HoldsOf;
    assert states[0].waiters == map[];
    var n := j - 1;
    AnsweredBy(c, states, events, n, q, true);
    ReplyStep(c, states[n], events[n], states[j], q);
    if q in states[n].waiters {
      i := WaiterAsked(c, states, events, n, q);
      WokenLeaves(c, states[n], events[n], states[j], q);
    } else {
      i := n;
    }
  }

  lemma WokenLeaves(c: Config, s: Sys, e: Event, s': Sys, q: nat)
    requires Step(c, s, e) == Some(s') && q in s'.waiters
    ensures !(e.Wake? && e.request == q)
  {
    hide HoldsOf;
  }

  /**
   * Request `q` asked at step `i` for a held key, whose marker cleared it at step `t`, and was woken by that at step
   * `u`.
   */
  predicate Completed(states: seq<Sys>, events: seq<Event>, q: nat, i: nat, t: nat, u: nat)
    requires i < t < u < |events| <= |states|
  {
    && events[i].Wait? && events[i].request == q
    && events[i].key in HoldsOf(states[i], events[i].replica).entries
    && Clears(states[t], events[t], events[i].replica, events[i].key)
    && events[u] == Wake(q, Done)
  }

  /**
   * Wait answers true if and only if the key was held when asked and its marker has cleared it before the request was
   * woken.
   */
  lemma TrueIff(c: Config, states: seq<Sys>, events: seq<Event>, j: nat, q: nat)
    requires Run(c, states, events) && j <= |events|
    ensures q in states[j].answers && states[j].answers[q] <==>
            exists i, t, u :: 0 <= i < t < u < j && Completed(states, events, q, i, t, u)
  {
    hide Step, HoldsOf, Clears;
    AnsweredBy(c, states, events, j, q, true);
    if u :| 0 <= u < j && Reply(states[u], events[u], q) == Some(true) {
      WokenWaits(c, states[u], events[u], states[u + 1], q);
      var i := WaiterAsked(c, states, events, u, q);
      TrueMeansCleared(c, states, events, i, u, q, events[i].replica, events[i].key);
      var t :| i < t < u && Clears(states[t], events[t], events[i].replica, events[i].key);
      assert Completed(states, events, q, i, t, u);
    }
    if i, t, u :| 0 <= i < t < u < j && Completed(states, events, q, i, t, u) {
      assert Reply(states[u], events[u], q) == Some(true);
    }
  }

  lemma WokenWaits(c: Config, s: Sys, e: Event, s': Sys, q: nat)
    requires Step(c, s, e) == Some(s') && Reply(s, e, q) == Some(true)
    ensures q in s.waiters && e == Wake(q, Done)
  {
    hide HoldsOf;
  }

  /** It answers false if and only if the key was not held when asked, or the wait timed out or was cancelled. */
  lemma FalseIff(c: Config, states: seq<Sys>, events: seq<Event>, j: nat, q: nat)
    requires Run(c, states, events) && j <= |events|
    ensures q in states[j].answers && !states[j].answers[q] <==>
            exists u :: 0 <= u < j && Refused(states[u], events[u], q)
  {
    hide Step, HoldsOf;
    AnsweredBy(c, states, events, j, q, false);
    forall u | 0 <= u < j ensures Reply(states[u], events[u], q) == Some(false) <==> Refused(states[u], events[u], q) {
    }
    if u :| 0 <= u < j && Refused(states[u], events[u], q) {
      assert Reply(states[u], events[u], q) == Some(false);
    }
  }

  predicate Refused(s: Sys, e: Event, q: nat) {
    || (e.Wait? && e.request == q && e.key !in HoldsOf(s, e.replica).entries)
    || e == Wake(q, Timeout) || e == Wake(q, Cancelled)
  }

  // -- The distributed lock --------------------------------------------------------------

  /** Every operation under way is still within its lease. */
  ghost predicate Timely(s: Sys) {
    forall w :: !PhaseOf(s, w).Idle? && PhaseOf(s, w).until.Some? ==> s.now < PhaseOf(s, w).until.value
  }

  /** Whoever is past TryLock and before Unlock owns the lease, as recorded. */
  ghost predicate LeaseHeld(s: Sys) {
    forall w :: !PhaseOf(s, w).Idle? ==> s.lock == Some(Lease(w, PhaseOf(s, w).until))
  }

  /** At most one operation, on all replicas together, is between TryLock and Unlock. */
  ghost predicate Exclusive(s: Sys) {
    forall w, v :: !PhaseOf(s, w).Idle? && !PhaseOf(s, v).Idle? ==> w == v
  }

  /** The step does not take over an expired lease whose owner is still under way. */
  predicate NoTakeover(s: Sys, e: Event) {
    e.TryLock? && PhaseOf(s, e.w).Idle? && s.lock.Some? && Expired(s.lock.value, s.now) ==>
      PhaseOf(s, s.lock.value.owner).Idle?
  }

  ghost predicate NoTakeovers(states: seq<Sys>, events: seq<Event>)
    requires |events| < |states|
  {
    forall i :: 0 <= i < |events| ==> NoTakeover(states[i], events[i])
  }

  /** Without a takeover the lock is taken only when no operation is under way. */
  lemma TakenOnlyWhenFree(c: Config, s: Sys, e: Event, s': Sys)
    requires c.distributed && LeaseHeld(s) && NoTakeover(s, e) && e.TryLock? && Step(c, s, e) == Some(s')
    ensures s' == s || forall w :: PhaseOf(s, w).Idle?
  {
    hide Mark, Clear;
    forall w | !PhaseOf(s, w).Idle? ensures !Free(s) {
      assert s.lock == Some(Lease(w, PhaseOf(s, w).until));
    }
  }

  lemma LeaseStep(c: Config, s: Sys, e: Event, s': Sys)
    requires c.distributed && LeaseHeld(s) && NoTakeover(s, e) && Step(c, s, e) == Some(s')
    ensures LeaseHeld(s')
    ensures e.DistUnlock? ==> s.lock.Some? && s.lock.value.owner == e.w
    ensures e.DistUnlock? ==> s'.lock.None? && PhaseOf(s', e.w).Idle?
    ensures e.TryLock? && Free(s) ==> s'.lock.Some? && s'.lock.value.owner == e.w && PhaseOf(s', e.w).Acquired?
  {
    hide Mark, Clear, HoldsOf, NoTakeover;
    if e.TryLock? {
      TakenOnlyWhenFree(c, s, e, s');
    }
    forall w | !PhaseOf(s', w).Idle? ensures s'.lock == Some(Lease(w, PhaseOf(s', w).until)) {
      if Actor(e) == Some(w) {
        assert !e.TryLock? ==> s.lock == Some(Lease(w, PhaseOf(s, w).until));
      } else {
        OthersKeepPhase(c, s, e, s', w);
        assert s.lock == Some(Lease(w, PhaseOf(s, w).until));
      }
    }
  }

  /** A takeover puts two operations between TryLock and Unlock at once. */
  lemma TakeoverOverlaps(c: Config, s: Sys, e: Event, s': Sys)
    requires c.distributed && !NoTakeover(s, e) && Step(c, s, e) == Some(s')
    ensures !Exclusive(s')
  {
    var v := s.lock.value.owner;
    OthersKeepPhase(c, s, e, s', v);
    assert !PhaseOf(s', v).Idle? && !PhaseOf(s', e.w).Idle? && v != e.w;
  }

  /**
   * Without takeovers, in every state at most one operation is between TryLock and Unlock, it owns the lease,
   * and an Unlock deletes the caller's own lease.
   */
  lemma {:induction false} ExclusiveAcrossReplicas(c: Config, states: seq<Sys>, events: seq<Event>, i: nat)
    requires c.distributed && Run(c, states, events) && i <= |events| && NoTakeovers(states, events)
    ensures LeaseHeld(states[i]) && Exclusive(states[i])
    ensures i < |events| && events[i].DistUnlock? ==> states[i].lock.Some? && states[i].lock.value.owner == events[i].w
  {
    hide Step, NoTakeover;
    if i > 0 {
      ExclusiveAcrossReplicas(c, states, events, i - 1);
      LeaseStep(c, states[i - 1], events[i - 1], states[i]);
    }
    AtMostOne(states[i]);
    if i < |events| {
      LeaseStep(c, states[i], events[i], states[i + 1]);
    }
  }

  lemma AtMostOne(s: Sys)
    requires LeaseHeld(s)
    ensures Exclusive(s)
  {
    forall w, v | !PhaseOf(s, w).Idle? && !PhaseOf(s, v).Idle? ensures w == v {
      assert s.lock == Some(Lease(w, PhaseOf(s, w).until)) && s.lock == Some(Lease(v, PhaseOf(s, v).until));
    }
  }

  /**
   * Mutual exclusion across replicas holds throughout a run if and only if nobody takes over an expired lease from
   * an operation under way.
   */
  lemma ExclusiveIff(c: Config, states: seq<Sys>, events: seq<Event>)
    requires c.distributed && Run(c, states, events)
    ensures (forall i :: 0 <= i < |states| ==> Exclusive(states[i])) <==> NoTakeovers(states, events)
  {
    hide Step, Exclusive, NoTakeover;
    if NoTakeovers(states, events) {
      forall i | 0 <= i < |states| ensures Exclusive(states[i]) {
        ExclusiveAcrossReplicas(c, states, events, i);
      }
    } else {
      var i :| 0 <= i < |events| && !NoTakeover(states[i], events[i]);
      TakeoverOverlaps(c, states[i], events[i], states[i + 1]);
    }
  }

  /** The lock is taken exactly while an operation is under way, and that operation is its owner. */
  ghost predicate LockTells(s: Sys) {
    && (s.lock.Some? ==> !PhaseOf(s, s.lock.value.owner).Idle?)
    && (forall w :: !PhaseOf(s, w).Idle? ==> s.lock.Some? && s.lock.value.owner == w)
  }

  /** The lock changes hands only when it is taken or released; only a release makes an operation idle. */
  lemma LockChange(c: Config, s: Sys, e: Event, s': Sys)
    requires c.distributed && Step(c, s, e) == Some(s')
    ensures e.DistUnlock? ==> s'.lock.None?
    ensures !e.DistUnlock? ==>
              || s'.lock == s.lock
              || (e.TryLock? && s'.lock.Some? && s'.lock.value.owner == e.w && PhaseOf(s', e.w).Acquired?)
    ensures !e.DistUnlock? && Actor(e).Some? && !PhaseOf(s, e.w).Idle? ==> !PhaseOf(s', e.w).Idle?
  {
    hide Mark, Clear, HoldsOf;
  }

  lemma LockTellsStep(c: Config, s: Sys, e: Event, s': Sys)
    requires c.distributed && LeaseHeld(s) && LockTells(s) && NoTakeover(s, e) && Step(c, s, e) == Some(s')
    ensures LockTells(s')
  {
    hide Step, NoTakeover, PhaseOf;
    LeaseStep(c, s, e, s');
    LockChange(c, s, e, s');
    if s'.lock.Some? && Actor(e) != Some(s'.lock.value.owner) {
      OthersKeepPhase(c, s, e, s', s'.lock.value.owner);
    }
  }

  lemma {:induction false} LockIffUnderWay(c: Config, states: seq<Sys>, events: seq<Event>, i: nat)
    requires c.distributed && Run(c, states, events) && i <= |events| && NoTakeovers(states, events)
    ensures LockTells(states[i])
  {
    hide Step, NoTakeover, LeaseHeld;
    if i > 0 {
      LockIffUnderWay(c, states, events, i - 1);
      ExclusiveAcrossReplicas(c, states, events, i - 1);
      LockTellsStep(c, states[i - 1], events[i - 1], states[i]);
    }
  }

  /** Without takeovers an idle worker gets the lock if and only if no operation is under way on any replica. */
  lemma TryLockSucceedsIff(c: Config, states: seq<Sys>, events: seq<Event>, i: nat, w: Worker)
    requires c.distributed && Run(c, states, events) && i < |events| && NoTakeovers(states, events)
    requires events[i] == TryLock(w) && PhaseOf(states[i], w).Idle?
    ensures PhaseOf(states[i + 1], w).Acquired? <==> forall v :: PhaseOf(states[i], v).Idle?
  {
    hide Mark, Clear, HoldsOf;
    LockIffUnderWay(c, states, events, i);
    assert Step(c, states[i], events[i]) == Some(states[i + 1]) && NoTakeover(states[i], events[i]);
  }

  /** Holders that release before their leases run out are never taken over. */
  lemma {:induction false} TimelyHoldersKeepLease(c: Config, states: seq<Sys>, events: seq<Event>, i: nat)
    requires c.distributed && Run(c, states, events) && i <= |events|
    requires forall j :: 0 <= j < |states| ==> Timely(states[j])
    ensures LeaseHeld(states[i]) && (i < |events| ==> NoTakeover(states[i], events[i]))
  {
    hide Step;
    if i > 0 {
      TimelyHoldersKeepLease(c, states, events, i - 1);
      LeaseStep(c, states[i - 1], events[i - 1], states[i]);
    }
    assert Timely(states[i]);
  }

  /** So exclusion holds in every run in which each holder releases before its lease runs out. */
  lemma TimelyRunsExclusive(c: Config, states: seq<Sys>, events: seq<Event>, i: nat)
    requires c.distributed && Run(c, states, events) && i <= |events|
    requires forall j :: 0 <= j < |states| ==> Timely(states[j])
    ensures NoTakeovers(states, events) && Exclusive(states[i])
  {
    hide Step, Timely, NoTakeover, Exclusive;
    forall j | 0 <= j < |events| ensures NoTakeover(states[j], events[j]) {
      TimelyHoldersKeepLease(c, states, events, j);
    }
    ExclusiveIff(c, states, events);
  }

  /** In distributed mode without takeovers the local mutex is free whenever it is reached: taking it never blocks. */
  lemma MutexFreeWhenReached(c: Config, states: seq<Sys>, events: seq<Event>, i: nat, w: Worker)
    requires c.distributed && Run(c, states, events) && i <= |events| && NoTakeovers(states, events)
    requires PhaseOf(states[i], w).Acquired?
    ensures w.replica !in states[i].mutex && Step(c, states[i], TakeMutex(w)).Some?
  {
    hide NoTakeover, Mark, Clear, HoldsOf;
    HoldsBelongToHolder(c, states, events, i);
    ExclusiveAcrossReplicas(c, states, events, i);
    var s := states[i];
    assert w.replica in s.mutex ==> Critical(s, s.mutex[w.replica]);
    assert forall v :: Critical(s, v) ==> v == w;
  }

  lemma {:induction false} WithoutTtlAlwaysTimely(c: Config, states: seq<Sys>, events: seq<Event>, i: nat)
    requires c.ttl.None? && Run(c, states, events) && i <= |events|
    ensures Timely(states[i])
    ensures forall w :: !PhaseOf(states[i], w).Idle? ==> PhaseOf(states[i], w).until.None?
  {
    hide Step;
    if i > 0 {
      WithoutTtlAlwaysTimely(c, states, events, i - 1);
      forall w | !PhaseOf(states[i], w).Idle? ensures PhaseOf(states[i], w).until.None? {
        UntilKept(c, states[i - 1], events[i - 1], states[i], w);
      }
    }
  }

  /** A lock without a time to live is exclusive in every distributed run. */
  lemma WithoutTtlExclusive(c: Config, states: seq<Sys>, events: seq<Event>, i: nat)
    requires c.distributed && c.ttl.None? && Run(c, states, events) && i <= |events|
    ensures NoTakeovers(states, events) && Exclusive(states[i])
  {
    hide Step, Timely, NoTakeover, Exclusive;
    forall j | 0 <= j < |states| ensures Timely(states[j]) {
      WithoutTtlAlwaysTimely(c, states, events, j);
    }
    TimelyRunsExclusive(c, states, events, i);
  }

  lemma UntilKept(c: Config, s: Sys, e: Event, s': Sys, w: Worker)
    requires c.ttl.None? && Step(c, s, e) == Some(s') && !PhaseOf(s', w).Idle?
    requires !PhaseOf(s, w).Idle? ==> PhaseOf(s, w).until.None?
    ensures PhaseOf(s', w).until.None?
  {
    hide Mark, Clear, HoldsOf;
  }

  ghost predicate Steps(c: Config, s: Sys, events: seq<Event>, s': Sys)
    decreases |events|
  {
    if events == [] then s == s' else
      var t := Step(c, s, events[0]);
      t.Some? && Steps(c, t.value, events[1..], s')
  }

  /**
   * A holder that outlives a contended lease lets another replica in, and its Unlock then deletes the other's
   * lease.
   */
  lemma OverrunBreaksExclusion(ttl: nat) returns (c: Config, s: Sys, s': Sys, w: Worker, v: Worker)
    ensures c == Config(true, Some(ttl)) && w != v
    ensures Steps(c, START, [TryLock(w), TakeMutex(w), Tick(ttl), TryLock(v), TakeMutex(v)], s)
    ensures Critical(s, w) && Critical(s, v)
    ensures Steps(c, s, [ClearKeys(w), UnlockMutex(w)], s')
    ensures PhaseOf(s', w).Releasing? && s'.lock.Some? && s'.lock.value.owner == v
  {
    c, w, v := Config(true, Some(ttl)), Worker(0, 0), Worker(1, 0);
    var s1 := Step(c, START, TryLock(w)).value;
    var s2 := Step(c, s1, TakeMutex(w)).value;
    var s3 := Step(c, s2, Tick(ttl)).value;
    assert s3.phase == map[w := Inside(Some(ttl), None)] && s3.lock == Some(Lease(w, Some(ttl)));
    var s4 := Step(c, s3, TryLock(v)).value;
    s := Step(c, s4, TakeMutex(v)).value;
    StepsCons(c, s4, TakeMutex(v), [], s);
    StepsCons(c, s3, TryLock(v), [TakeMutex(v)], s);
    StepsCons(c, s2, Tick(ttl), [TryLock(v), TakeMutex(v)], s);
    StepsCons(c, s1, TakeMutex(w), [Tick(ttl), TryLock(v), TakeMutex(v)], s);
    StepsCons(c, START, TryLock(w), [TakeMutex(w), Tick(ttl), TryLock(v), TakeMutex(v)], s);
    s' := LeaveAfterOverrun(c, s, w, v);
  }

  lemma LeaveAfterOverrun(c: Config, s: Sys, w: Worker, v: Worker) returns (s': Sys)
    requires c.distributed && w != v && PhaseOf(s, w).Inside? && PhaseOf(s, w).marked.None?
    requires s.lock.Some? && s.lock.value.owner == v
    ensures Steps(c, s, [ClearKeys(w), UnlockMutex(w)], s')
    ensures PhaseOf(s', w).Releasing? && s'.lock == s.lock
  {
    var s1 := Step(c, s, ClearKeys(w)).value;
    s' := Step(c, s1, UnlockMutex(w)).value;
    StepsCons(c, s1, UnlockMutex(w), [], s');
    StepsCons(c, s, ClearKeys(w), [UnlockMutex(w)], s');
  }

  lemma StepsCons(c: Config, s: Sys, e: Event, events: seq<Event>, s': Sys)
    requires Step(c, s, e).Some? && Steps(c, Step(c, s, e).value, events, s')
    ensures Steps(c, s, [e] + events, s')
  {
    assert ([e] + events)[1..] == events;
  }
}
