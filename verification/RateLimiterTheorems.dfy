/** The token-bucket bound and the effect of evictions, over every history with an ordered clock. */
module RateLimiterTheorems {
  import opened RateLimiter

  /** Events in clock order; the cleanup's tick is not in the future. */
  ghost predicate Ordered(h: seq<Event>) {
    && (forall i, j :: 0 <= i < j < |h| ==> h[i].at <= h[j].at)
    && (forall i :: 0 <= i < |h| && h[i].Judge? ==> h[i].tick <= h[i].at)
  }

  ghost predicate Sane(c: Config) {
    c.rate >= 0.0 && c.burst >= 0
  }

  /** Long idleness refills a bucket completely. */
  predicate RefillsWhileStale(c: Config) {
    Gain(c, STALE) >= c.burst as real
  }

  /** No request slips in between the judging of its user's bucket and the deletion. */
  predicate Undisturbing(s: Limiter, e: Event) {
    !e.Late? && (e.Ask? ==> e.user !in s.doomed)
  }

  predicate Calm(c: Config, h: seq<Event>) {
    h == [] || (Calm(c, h[..|h| - 1]) && Undisturbing(Run(c, h[..|h| - 1]), h[|h| - 1]))
  }

  // -- Basic facts --------------------------------------------------------------------------

  /** Buckets hold between 0 and burst tokens and were not refilled in the future. */
  ghost predicate Filled(c: Config, m: Buckets, now: real) {
    forall u :: u in m ==> 0.0 <= m[u].tokens <= c.burst as real && m[u].lastRefill <= now
  }

  lemma Refill(c: Config, elapsed: real)
    requires Sane(c) && elapsed >= 0.0
    ensures Gain(c, elapsed) >= 0.0
  {
  }

  /** Refill over two consecutive waits. */
  lemma RefillTwice(c: Config, first: real, second: real)
    ensures Gain(c, first + second) == Gain(c, first) + Gain(c, second)
    ensures Gain(c, 0.0) == 0.0
  {
  }

  lemma AvailableBounds(c: Config, m: Buckets, u: string, now: real)
    requires Sane(c) && Filled(c, m, now)
    ensures 0.0 <= Available(c, m, u, now) <= c.burst as real
  {
    hide Gain;
    RefillTwice(c, 0.0, 0.0);
    if u in m {
      Refill(c, now - m[u].lastRefill);
    }
  }

  lemma FilledStep(c: Config, s: Limiter, e: Event, now: real)
    requires Sane(c) && Filled(c, s.buckets, e.at) && Filled(c, s.orphans, e.at) && e.at <= now
    ensures Filled(c, Next(c, s, e).buckets, now) && Filled(c, Next(c, s, e).orphans, now)
  {
    hide Available;
    AvailableBounds(c, s.buckets, e.user, e.at);
    AvailableBounds(c, s.orphans, e.user, e.at);
  }

  lemma {:induction false} FilledAlways(c: Config, h: seq<Event>, now: real)
    requires Sane(c) && Ordered(h) && (h != [] ==> h[|h| - 1].at <= now)
    ensures Filled(c, Run(c, h).buckets, now) && Filled(c, Run(c, h).orphans, now)
  {
    hide Filled, Next;
    if h == [] {
      NothingFilled(c, now);
    } else {
      var before, e := h[..|h| - 1], h[|h| - 1];
      assert before != [] ==> before[|before| - 1].at <= e.at;
      FilledAlways(c, before, e.at);
      FilledStep(c, Run(c, before), e, now);
    }
  }

  lemma NothingFilled(c: Config, now: real)
    ensures Filled(c, map[], now)
  {
  }

  /** Waiting adds at most rate times the wait. */
  lemma AvailableLater(c: Config, m: Buckets, u: string, now: real, later: real)
    requires Sane(c) && now <= later && Filled(c, m, now)
    ensures Available(c, m, u, later) <= Available(c, m, u, now) + Gain(c, later - now)
  {
    hide Gain;
    Refill(c, later - now);
    RefillTwice(c, 0.0, 0.0);
    if u in m {
      RefillTwice(c, now - m[u].lastRefill, later - now);
      assert (now - m[u].lastRefill) + (later - now) == later - m[u].lastRefill;
    }
  }

  /** A stale bucket is full, so evicting it changes nothing that can be seen. */
  lemma StaleIsFull(c: Config, m: Buckets, u: string, now: real, later: real)
    requires Sane(c) && RefillsWhileStale(c) && Filled(c, m, now) && now <= later
    requires u in m && Stale(m[u], now)
    ensures Available(c, m, u, later) == c.burst as real
  {
    hide Gain;
    var elapsed := later - m[u].lastRefill;
    RefillTwice(c, STALE, elapsed - STALE);
    assert STALE + (elapsed - STALE) == elapsed;
    Refill(c, elapsed - STALE);
  }

  lemma MissingIsFull(c: Config, m: Buckets, u: string, now: real)
    requires u !in m
    ensures Available(c, m, u, now) == c.burst as real
  {
    hide Gain;
    RefillTwice(c, 0.0, 0.0);
  }

  /** A request takes one token if it is allowed. */
  lemma AfterAsk(c: Config, m: Buckets, u: string, now: real)
    ensures Available(c, Spent(c, m, u, now), u, now) == Available(c, m, u, now) - if Allows(c, m, u, now) then 1.0
            else 0.0
  {
    hide Gain;
    RefillTwice(c, 0.0, 0.0);
    var m' := Spent(c, m, u, now);
    assert now - m'[u].lastRefill == 0.0;
  }

  lemma SameBucket(c: Config, m: Buckets, m': Buckets, u: string, now: real)
    requires u in m <==> u in m'
    requires u in m ==> m[u] == m'[u]
    ensures Available(c, m, u, now) == Available(c, m', u, now)
  {
    hide Gain;
  }

  /** Doomed buckets are stale. */
  ghost predicate DoomedStale(s: Limiter, now: real) {
    forall u :: u in s.doomed && u in s.buckets ==> Stale(s.buckets[u], now)
  }

  lemma DoomedStep(c: Config, s: Limiter, e: Event, now: real)
    requires DoomedStale(s, e.at) && Undisturbing(s, e) && e.at <= now && (e.Judge? ==> e.tick <= e.at)
    ensures DoomedStale(Next(c, s, e), now)
  {
    hide Available;
  }

  /** In a calm history a bucket found stale is still stale when it is deleted. */
  lemma {:induction false} DoomedAlways(c: Config, h: seq<Event>, now: real)
    requires Ordered(h) && Calm(c, h) && (h != [] ==> h[|h| - 1].at <= now)
    ensures DoomedStale(Run(c, h), now)
  {
    hide Next, DoomedStale, Undisturbing;
    if h == [] {
      NothingDoomed(now);
    } else {
      var before, e := h[..|h| - 1], h[|h| - 1];
      assert before != [] ==> before[|before| - 1].at <= e.at;
      DoomedAlways(c, before, e.at);
      DoomedStep(c, Run(c, before), e, now);
    }
  }

  lemma NothingDoomed(now: real)
    ensures DoomedStale(EMPTY, now)
  {
  }

  // -- The bound ------------------------------------------------------------------------------

  /** Requests of `u` that were allowed among the events from index `a` on. */
  function Allowed(c: Config, h: seq<Event>, u: string, a: nat): nat {
    if |h| <= a then 0 else
      var before, e := h[..|h| - 1], h[|h| - 1];
      Allowed(c, before, u, a) + if e.user == u && Grants(c, Run(c, before), e) then 1 else 0
  }

  /** Idle buckets refill and nothing interferes with the cleanup, or there is no cleanup. */
  ghost predicate Steady(c: Config, h: seq<Event>) {
    (RefillsWhileStale(c) && Calm(c, h)) || forall i :: 0 <= i < |h| ==> h[i].Ask?
  }

  lemma SteadyPrefix(c: Config, h: seq<Event>)
    requires h != [] && Steady(c, h) && Ordered(h)
    ensures Steady(c, h[..|h| - 1])
    ensures h[|h| - 1].Ask? ||
            (RefillsWhileStale(c) && !h[|h| - 1].Late? && DoomedStale(Run(c, h[..|h| - 1]), h[|h| - 1].at))
  {
    hide Run, DoomedStale;
    var before := h[..|h| - 1];
    if RefillsWhileStale(c) && Calm(c, h) {
      assert before != [] ==> before[|before| - 1].at <= h[|h| - 1].at;
      DoomedAlways(c, before, h[|h| - 1].at);
    }
  }

  lemma {:induction false} BucketBound(c: Config, h: seq<Event>, u: string, a: nat)
    requires Sane(c) && Steady(c, h) && Ordered(h) && a < |h|
    ensures Allowed(c, h, u, a) as real + Available(c, Run(c, h).buckets, u, h[|h| - 1].at)
            <= c.burst as real + Gain(c, h[|h| - 1].at - h[a].at)
  {
    hide Available, Filled, Grants, Next, RefillsWhileStale, Steady, DoomedStale;
    var before, e := h[..|h| - 1], h[|h| - 1];
    var s, start := Run(c, before), h[a].at;
    assert before != [] ==> before[|before| - 1].at <= e.at;
    FilledAlways(c, before, e.at);
    SteadyPrefix(c, h);
    EventCost(c, s, e, u);
    RefillTwice(c, 0.0, 0.0);
    if a == |before| {
      AvailableBounds(c, s.buckets, u, e.at);
      assert Allowed(c, before, u, a) == 0;
    } else {
      BucketBound(c, before, u, a);
      var prev := before[|before| - 1].at;
      FilledAlways(c, before, prev);
      AvailableLater(c, s.buckets, u, prev, e.at);
      RefillTwice(c, prev - start, e.at - prev);
      assert (prev - start) + (e.at - prev) == e.at - start;
    }
  }

  /** An event takes one token for an allowed request of the user and nothing otherwise. */
  lemma EventCost(c: Config, s: Limiter, e: Event, u: string)
    requires Sane(c) && Filled(c, s.buckets, e.at)
    requires e.Ask? || (RefillsWhileStale(c) && !e.Late? && DoomedStale(s, e.at))
    ensures Available(c, Next(c, s, e).buckets, u, e.at) + (if e.user == u && Grants(c, s, e) then 1.0 else 0.0)
            == Available(c, s.buckets, u, e.at)
  {
    hide Available, Filled, Allows;
    var m := s.buckets;
    if e.user != u {
      SameBucket(c, m, Next(c, s, e).buckets, u, e.at);
    } else if e.Ask? {
      AfterAsk(c, m, u, e.at);
    } else if e.Delete? && u in s.doomed && u in m {
      StaleIsFull(c, m, u, e.at, e.at);
      MissingIsFull(c, m - {u}, u, e.at);
    }
  }

  ghost predicate WithinBound(c: Config, h: seq<Event>, u: string, a: nat)
    requires a < |h|
  {
    Allowed(c, h, u, a) as real <= c.burst as real + c.rate * (h[|h| - 1].at - h[a].at)
  }

  /** In every window of every such run: allowed requests <= burst + rate * window length. */
  lemma WindowBound(c: Config, h: seq<Event>, u: string, a: nat)
    requires Sane(c) && Steady(c, h) && Ordered(h) && a < |h|
    ensures WithinBound(c, h, u, a)
  {
    hide Available, Allowed, Run, Filled, Ordered, Steady;
    BucketBound(c, h, u, a);
    FilledAlways(c, h, h[|h| - 1].at);
    AvailableBounds(c, Run(c, h).buckets, u, h[|h| - 1].at);
    assert Gain(c, h[|h| - 1].at - h[a].at) == c.rate * (h[|h| - 1].at - h[a].at);
  }

  /** Admitting one more request at `now` would break the bound of the window that starts with event `a`. */
  ghost predicate Exhausts(c: Config, h: seq<Event>, u: string, now: real, a: nat)
    requires a < |h|
  {
    Allowed(c, h, u, a) as real + 1.0 > c.burst as real + Gain(c, now - h[a].at)
  }

  /** Some window is used up to the token: what is left at `now` is what its bound leaves. */
  ghost predicate Tight(c: Config, h: seq<Event>, u: string, now: real, a: nat)
    requires a < |h|
  {
    Allowed(c, h, u, a) as real + Available(c, Run(c, h).buckets, u, now) == c.burst as real + Gain(c, now - h[a].at)
  }

  lemma {:induction false} FullOrTight(c: Config, h: seq<Event>, u: string, now: real)
    requires Sane(c) && Steady(c, h) && Ordered(h) && (h != [] ==> h[|h| - 1].at <= now)
    ensures || Available(c, Run(c, h).buckets, u, now) == c.burst as real
            || exists a :: 0 <= a < |h| && Tight(c, h, u, now, a)
  {
    hide Available, Filled, Grants, Next, RefillsWhileStale, Steady, DoomedStale, Gain;
    if h == [] {
      MissingIsFull(c, map[], u, now);
    } else {
      var n := |h| - 1;
      var before, e := h[..n], h[n];
      var s := Run(c, before);
      assert before != [] ==> before[|before| - 1].at <= e.at;
      FilledAlways(c, before, e.at);
      FilledAlways(c, h, e.at);
      SteadyPrefix(c, h);
      EventCost(c, s, e, u);
      FullOrTight(c, before, u, e.at);
      RefillTwice(c, 0.0, 0.0);
      FullOrGained(c, Run(c, h).buckets, u, e.at, now);
      if Available(c, Run(c, h).buckets, u, now) != c.burst as real {
        if Available(c, s.buckets, u, e.at) == c.burst as real {
          assert Allowed(c, before, u, n) == 0;
          assert Tight(c, h, u, now, n);
        } else {
          var a :| 0 <= a < |before| && Tight(c, before, u, e.at, a);
          RefillTwice(c, e.at - h[a].at, now - e.at);
          assert (e.at - h[a].at) + (now - e.at) == now - h[a].at;
          assert Tight(c, h, u, now, a);
        }
      }
    }
  }

  lemma AtMostBurst(c: Config, m: Buckets, u: string, now: real)
    ensures Available(c, m, u, now) <= c.burst as real
  {
    hide Gain;
  }

  /** Waiting fills a bucket up or adds exactly rate times the wait. */
  lemma FullOrGained(c: Config, m: Buckets, u: string, now: real, later: real)
    requires Sane(c) && now <= later && Filled(c, m, now)
    ensures Available(c, m, u, later) == c.burst as real
            || Available(c, m, u, later) == Available(c, m, u, now) + Gain(c, later - now)
  {
    hide Gain;
    Refill(c, later - now);
    RefillTwice(c, 0.0, 0.0);
    if u in m {
      RefillTwice(c, now - m[u].lastRefill, later - now);
      assert (now - m[u].lastRefill) + (later - now) == later - m[u].lastRefill;
    }
  }

  /**
   * A request is refused if and only if nothing is ever handed out or letting it through would break some window's
   * bound.
   */
  lemma RefusedIff(c: Config, h: seq<Event>, u: string, now: real)
    requires Sane(c) && Steady(c, h) && Ordered(h) && (h != [] ==> h[|h| - 1].at <= now)
    ensures !Allows(c, Run(c, h).buckets, u, now) <==>
            c.burst == 0 || exists a :: 0 <= a < |h| && Exhausts(c, h, u, now, a)
  {
    hide Available, Allowed, Steady, Ordered, Filled, Gain, Run;
    AtMostBurst(c, Run(c, h).buckets, u, now);
    FullOrTight(c, h, u, now);
    if a :| 0 <= a < |h| && Tight(c, h, u, now, a) && !Allows(c, Run(c, h).buckets, u, now) {
      assert Exhausts(c, h, u, now, a);
    }
    if a :| 0 <= a < |h| && Exhausts(c, h, u, now, a) {
      BucketBound(c, h, u, a);
      var last := h[|h| - 1].at;
      FilledAlways(c, h, last);
      AvailableLater(c, Run(c, h).buckets, u, last, now);
      RefillTwice(c, last - h[a].at, now - last);
      assert (last - h[a].at) + (now - last) == now - h[a].at;
    }
  }

  // -- Evictions and decisions -----------------------------------------------------------------

  /** The same requests to a limiter that never evicts. */
  function Requests(h: seq<Event>): seq<Event> {
    if h == [] then [] else
      var before, e := Requests(h[..|h| - 1]), h[|h| - 1];
      if e.Ask? || e.Late? then before + [Ask(e.user, e.at)] else before
  }

  /** The two bucket maps agree, except for buckets that were evicted and are full from now on. */
  ghost predicate Alike(c: Config, m: Buckets, full: Buckets, now: real) {
    && (forall u :: u in m ==> u in full && full[u] == m[u])
    && (forall u :: u in full && u !in m ==> Stale(full[u], now))
  }

  lemma AlikeAvailable(c: Config, m: Buckets, full: Buckets, u: string, now: real, later: real)
    requires Sane(c) && RefillsWhileStale(c) && Alike(c, m, full, now) && Filled(c, full, now) && now <= later
    ensures Available(c, m, u, later) == Available(c, full, u, later)
  {
    hide Available, Filled;
    if u in full && u !in m {
      StaleIsFull(c, full, u, now, later);
      MissingIsFull(c, m, u, later);
    } else {
      SameBucket(c, m, full, u, later);
    }
  }

  lemma AlikeStep(c: Config, s: Limiter, full: Buckets, e: Event, now: real)
    requires Sane(c) && RefillsWhileStale(c) && Alike(c, s.buckets, full, e.at) && Filled(c, full, e.at) && e.at <= now
    requires DoomedStale(s, e.at) && !e.Late?
    ensures Alike(c, Next(c, s, e).buckets, if e.Ask? then Spent(c, full, e.user, e.at) else full, now)
  {
    hide Available, Filled;
    AlikeAvailable(c, s.buckets, full, e.user, e.at, e.at);
  }

  lemma {:induction false} RunsAlike(c: Config, h: seq<Event>, now: real)
    requires Sane(c) && RefillsWhileStale(c) && Ordered(h) && Calm(c, h) && (h != [] ==> h[|h| - 1].at <= now)
    ensures Alike(c, Run(c, h).buckets, Run(c, Requests(h)).buckets, now)
    ensures Filled(c, Run(c, Requests(h)).buckets, now) && Filled(c, Run(c, Requests(h)).orphans, now)
  {
    hide Available, Filled, Next, DoomedStale;
    if h == [] {
      NothingFilled(c, now);
    } else {
      var before, e := h[..|h| - 1], h[|h| - 1];
      assert before != [] ==> before[|before| - 1].at <= e.at;
      RunsAlike(c, before, e.at);
      DoomedAlways(c, before, e.at);
      var s, full := Run(c, before), Run(c, Requests(before));
      hide Alike;
      AlikeStep(c, s, full.buckets, e, now);
      if e.Ask? {
        assert Requests(h)[..|Requests(h)| - 1] == Requests(before);
        FilledStep(c, full, e, now);
        AskSpends(c, full, e);
      } else {
        FilledLater(c, full.buckets, e.at, now);
        FilledLater(c, full.orphans, e.at, now);
      }
    }
  }

  lemma AskSpends(c: Config, s: Limiter, e: Event)
    requires e.Ask?
    ensures Next(c, s, e).buckets == Spent(c, s.buckets, e.user, e.at)
  {
  }

  lemma FilledLater(c: Config, m: Buckets, now: real, later: real)
    requires Filled(c, m, now) && now <= later
    ensures Filled(c, m, later)
  {
  }

  /** The decision on a request is the same with and without evictions. */
  ghost predicate SameDecision(c: Config, h: seq<Event>, u: string, now: real) {
    Allows(c, Run(c, h).buckets, u, now) <==> Allows(c, Run(c, Requests(h)).buckets, u, now)
  }

  lemma OrderedPrefix(h: seq<Event>, e: Event)
    requires Ordered(h + [e])
    ensures Ordered(h) && (h != [] ==> h[|h| - 1].at <= e.at)
  {
    var all := h + [e];
    forall i | 0 <= i < |h| ensures all[i] == h[i] {
    }
    assert h != [] ==> all[|h| - 1].at <= all[|h|].at;
  }

  lemma CalmDecisions(c: Config, h: seq<Event>, u: string, now: real)
    requires Sane(c) && RefillsWhileStale(c) && Calm(c, h) && Ordered(h + [Ask(u, now)])
    ensures SameDecision(c, h, u, now)
  {
    hide Available, Alike, Filled, RefillsWhileStale;
    OrderedPrefix(h, Ask(u, now));
    RunsAlike(c, h, now);
    AlikeAvailable(c, Run(c, h).buckets, Run(c, Requests(h)).buckets, u, now, now);
  }

  // -- Requests that hold a deleted bucket -----------------------------------------------------------------

  predicate Concerns(e: Event, u: string) {
    (e.Late? || e.Delete?) && e.user == u
  }

  lemma {:induction false} OrphanKept(c: Config, s: Limiter, h: seq<Event>, u: string)
    requires u in s.orphans && forall i :: 0 <= i < |h| ==> !Concerns(h[i], u)
    ensures u in RunFrom(c, s, h).orphans && RunFrom(c, s, h).orphans[u] == s.orphans[u]
  {
    if h != [] {
      OrphanKept(c, s, h[..|h| - 1], u);
      assert !Concerns(h[|h| - 1], u);
    }
  }

  /**
   * Whatever others do meanwhile, a request that looked its bucket up before the cleanup deleted it is decided as if
   * the bucket were still there.
   */
  lemma LateSeesOldBucket(c: Config, s: Limiter, u: string, at: real, h: seq<Event>, now: real)
    requires u in s.doomed && u in s.buckets && forall i :: 0 <= i < |h| ==> !Concerns(h[i], u)
    ensures u !in Next(c, s, Delete(u, at)).buckets
    ensures Grants(c, RunFrom(c, Next(c, s, Delete(u, at)), h), Late(u, now)) <==> Allows(c, s.buckets, u, now)
  {
    var s' := Next(c, s, Delete(u, at));
    assert s'.orphans[u] == s.buckets[u] && u !in s'.buckets;
    OrphanKept(c, s', h, u);
    hide Next, RunFrom, Concerns, Available;
    SameBucket(c, RunFrom(c, s', h).orphans, s.buckets, u, now);
  }

  /** The late requests of a user, as requests to a limiter of their own. */
  function AsAsks(h: seq<Event>, u: string): seq<Event> {
    if h == [] then [] else
      var last := h[|h| - 1];
      AsAsks(h[..|h| - 1], u) + if last.Late? && last.user == u then [Ask(u, last.at)] else []
  }

  /** Until the next deletion, a deleted bucket serves its late requests as a limiter with only that bucket would. */
  lemma {:induction false} OrphanServes(c: Config, s: Limiter, h: seq<Event>, u: string)
    requires u in s.orphans && forall i :: 0 <= i < |h| ==> !(h[i].Delete? && h[i].user == u)
    ensures var own := RunFrom(c, Limiter(map[u := s.orphans[u]], {}, map[]), AsAsks(h, u));
            && u in RunFrom(c, s, h).orphans && u in own.buckets
            && RunFrom(c, s, h).orphans[u] == own.buckets[u]
  {
    if h != [] {
      var before, last := h[..|h| - 1], h[|h| - 1];
      OrphanServes(c, s, before, u);
      if last.Late? && last.user == u {
        RunFromPush(c, Limiter(map[u := s.orphans[u]], {}, map[]), AsAsks(before, u), Ask(u, last.at));
      } else {
        assert AsAsks(h, u) == AsAsks(before, u);
      }
    }
  }

  /** The cleanup is about to delete a user's bucket if and only if it found it stale and has not deleted since. */
  lemma {:induction false} DoomedIff(c: Config, h: seq<Event>, u: string)
    ensures u in Run(c, h).doomed <==>
            exists i :: 0 <= i < |h| && FoundStale(c, h, i, u) && forall j :: i < j < |h| ==> h[j] != Delete(u, h[j].at)
  {
    if h != [] {
      var n := |h| - 1;
      DoomedIff(c, h[..n], u);
      forall i | 0 <= i < n ensures FoundStale(c, h, i, u) <==> FoundStale(c, h[..n], i, u) {
        assert h[..n][..i] == h[..i];
      }
      if u in Run(c, h).doomed && u !in Run(c, h[..n]).doomed {
        assert FoundStale(c, h, n, u);
      }
    }
  }

  predicate FoundStale(c: Config, h: seq<Event>, i: nat, u: string)
    requires i < |h|
  {
    && h[i].Judge? && h[i].user == u
    && u in Run(c, h[..i]).buckets && Stale(Run(c, h[..i]).buckets[u], h[i].tick)
  }
}
