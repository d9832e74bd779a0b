/**
 * When the token-bucket bound and the invisibility of evictions hold: exact conditions, with the runs that break
 * them.
 */
module RateLimiterLimits {
  import opened RateLimiter
  import opened RateLimiterTheorems

  // -- Bursts of requests at one instant ------------------------------------------------------------

  /** `n` requests of `u` at time `now`. */
  function Times(u: string, now: real, n: nat): seq<Event> {
    if n == 0 then [] else Times(u, now, n - 1) + [Ask(u, now)]
  }

  lemma {:induction false} TimesAt(u: string, now: real, n: nat)
    ensures |Times(u, now, n)| == n && forall i :: 0 <= i < n ==> Times(u, now, n)[i] == Ask(u, now)
  {
    if n > 0 {
      TimesAt(u, now, n - 1);
    }
  }

  lemma TimesPush(h: seq<Event>, u: string, now: real, n: nat)
    requires n > 0
    ensures h + Times(u, now, n) == h + Times(u, now, n - 1) + [Ask(u, now)]
  {
  }

  lemma Push(c: Config, h: seq<Event>, e: Event)
    ensures Run(c, h + [e]) == Next(c, Run(c, h), e)
    ensures Requests(h + [e]) == if e.Ask? || e.Late? then Requests(h) + [Ask(e.user, e.at)] else Requests(h)
    ensures Calm(c, h + [e]) <==> Calm(c, h) && Undisturbing(Run(c, h), e)
    ensures forall u, a: nat :: a <= |h| ==>
              Allowed(c, h + [e], u, a) == Allowed(c, h, u, a) + if e.user == u && Grants(c, Run(c, h), e) then 1 else 0
  {
    hide Next, Grants;
    assert (h + [e])[..|h + [e]| - 1] == h;
  }

  /** Requests at one instant take one token each while there are that many. */
  lemma {:induction false} TimesSpend(c: Config, h: seq<Event>, u: string, now: real, n: nat, a: nat)
    requires Available(c, Run(c, h).buckets, u, now) >= n as real && a <= |h|
    ensures var s, s' := Run(c, h), Run(c, h + Times(u, now, n));
            && Available(c, s'.buckets, u, now) == Available(c, s.buckets, u, now) - n as real
            && s'.doomed == s.doomed && (u in s.buckets || n > 0 ==> u in s'.buckets)
    ensures Allowed(c, h + Times(u, now, n), u, a) == Allowed(c, h, u, a) + n
    ensures Requests(h + Times(u, now, n)) == Requests(h) + Times(u, now, n)
    ensures Calm(c, h) && u !in Run(c, h).doomed ==> Calm(c, h + Times(u, now, n))
  {
    hide Available, Run, Allowed, Requests, Calm;
    if n == 0 {
      assert h + Times(u, now, n) == h && Requests(h) + Times(u, now, n) == Requests(h);
    } else {
      var before := h + Times(u, now, n - 1);
      TimesSpend(c, h, u, now, n - 1, a);
      TimesPush(h, u, now, n);
      TimesPush(Requests(h), u, now, n);
      Push(c, before, Ask(u, now));
      AfterAsk(c, Run(c, before).buckets, u, now);
    }
  }

  /** The last refill of a bucket that was asked at one instant. */
  lemma LastTimes(c: Config, u: string, n: nat)
    requires n > 0
    ensures var s := Run(c, Times(u, 0.0, n));
            u in s.buckets && s.buckets[u].lastRefill == 0.0 && s.buckets[u].tokens <= c.burst as real
  {
    Push(c, Times(u, 0.0, n - 1), Ask(u, 0.0));
  }

  /** A user spends the whole burst at time 0. */
  lemma SpendBurst(c: Config, u: string)
    requires Sane(c) && c.burst > 0
    ensures var h := Times(u, 0.0, c.burst);
            var s := Run(c, h);
            && u in s.buckets && s.buckets[u].lastRefill == 0.0 && s.buckets[u].tokens <= c.burst as real
            && Available(c, s.buckets, u, 0.0) == 0.0 && s.doomed == {}
            && Calm(c, h) && Requests(h) == h && Allowed(c, h, u, 0) == c.burst
  {
    hide Available, Next;
    var first := Times(u, 0.0, c.burst);
    assert [] + first == first && Run(c, []) == EMPTY && Requests([]) == [];
    MissingIsFull(c, map[], u, 0.0);
    TimesSpend(c, [], u, 0.0, c.burst, 0);
    LastTimes(c, u, c.burst);
  }

  // -- Calm histories: exactly when idle buckets refill ------------------------------------------------

  /** A time past staleness at which an emptied bucket is not full again. */
  lemma SlowRefill(c: Config) returns (t: real)
    requires Sane(c) && !RefillsWhileStale(c)
    ensures t > STALE && Gain(c, t) < c.burst as real
  {
    if c.rate == 0.0 {
      t := STALE + 1.0;
      RefillTwice(c, STALE, 1.0);
    } else {
      var slack := c.burst as real - Gain(c, STALE);
      var extra := slack / (2.0 * c.rate);
      assert Gain(c, extra) == slack / 2.0;
      t := STALE + extra;
      RefillTwice(c, STALE, extra);
      assert extra > 0.0;
    }
  }

  lemma RefillFloor(c: Config, t: real)
    requires Sane(c) && t > STALE && Gain(c, t) < c.burst as real
    ensures 0 <= Gain(c, t).Floor < c.burst
    ensures Gain(c, t).Floor as real <= Gain(c, t) < Gain(c, t).Floor as real + 1.0
  {
    hide Gain;
    Refill(c, t);
  }

  lemma EmptiedLater(c: Config, m: Buckets, u: string, t: real)
    requires Sane(c) && u in m && m[u].lastRefill == 0.0 && m[u].tokens <= c.burst as real
    requires Available(c, m, u, 0.0) == 0.0 && 0.0 < t && Gain(c, t) < c.burst as real
    ensures Available(c, m, u, t) == Gain(c, t)
  {
    hide Gain;
    RefillTwice(c, 0.0, 0.0);
    Refill(c, t);
    assert c.burst as real > 0.0;
    assert m[u].tokens == 0.0;
  }

  /** After `h` the cleanup finds the user's bucket stale and deletes it at once. */
  function Evicted(h: seq<Event>, u: string, t: real): seq<Event> {
    h + [Judge(u, t, t)] + [Delete(u, t)]
  }

  lemma EvictedRun(c: Config, h: seq<Event>, u: string, t: real, a: nat)
    requires u in Run(c, h).buckets && Stale(Run(c, h).buckets[u], t) && Run(c, h).doomed == {} && a <= |h|
    ensures var h' := Evicted(h, u, t);
            && Available(c, Run(c, h').buckets, u, t) == c.burst as real && Run(c, h').doomed == {}
            && (Calm(c, h) ==> Calm(c, h')) && Requests(h') == Requests(h)
              && Allowed(c, h', u, a) == Allowed(c, h, u, a)
  {
    hide Available, Run, Calm, Requests, Allowed;
    Push(c, h, Judge(u, t, t));
    Push(c, h + [Judge(u, t, t)], Delete(u, t));
    MissingIsFull(c, Run(c, h).buckets - {u}, u, t);
  }

  lemma EvictedOrdered(c: Config, u: string, t: real, k: nat)
    requires t > 0.0 && c.burst > 0
    ensures var h := Evicted(Times(u, 0.0, c.burst), u, t) + Times(u, t, k);
            && Ordered(h) && Ordered(h + [Ask(u, t)]) && h[0].at == 0.0 && h[|h| - 1].at == t
  {
    TimesAt(u, 0.0, c.burst);
    TimesAt(u, t, k);
  }

  ghost predicate CalmBounded(c: Config) {
    forall h: seq<Event>, u: string, a: nat :: Ordered(h) && Calm(c, h) && a < |h| ==> WithinBound(c, h, u, a)
  }

  ghost predicate CalmInvisible(c: Config) {
    forall h, u, now :: Ordered(h + [Ask(u, now)]) && Calm(c, h) ==> SameDecision(c, h, u, now)
  }

  /** Spending the burst, being evicted and spending it again breaks the bound. */
  lemma SlowBreaksBound(c: Config)
    requires Sane(c) && !RefillsWhileStale(c)
    ensures !CalmBounded(c)
  {
    hide Available, Gain, Run, Times, RefillsWhileStale, Allowed, Calm, Ordered, Requests;
    var u := "u";
    var t := SlowRefill(c);
    RefillFloor(c, t);
    SpendBurst(c, u);
    var first := Times(u, 0.0, c.burst);
    EvictedRun(c, first, u, t, 0);
    var h := Evicted(first, u, t);
    TimesSpend(c, h, u, t, c.burst, 0);
    EvictedOrdered(c, u, t, c.burst);
    var all := h + Times(u, t, c.burst);
    assert Allowed(c, all, u, 0) == 2 * c.burst;
    GainIs(c, t);
    assert !WithinBound(c, all, u, 0);
  }

  lemma GainIs(c: Config, t: real)
    ensures Gain(c, t) == c.rate * (t - 0.0)
  {
  }

  /** Spending the burst, being evicted and asking again shows the eviction. */
  lemma SlowShowsEviction(c: Config)
    requires Sane(c) && !RefillsWhileStale(c)
    ensures !CalmInvisible(c)
  {
    hide Available, Gain, Run, Times, RefillsWhileStale, Allowed, Calm, Ordered, Requests;
    var u := "u";
    var t := SlowRefill(c);
    RefillFloor(c, t);
    SpendBurst(c, u);
    var first, k := Times(u, 0.0, c.burst), Gain(c, t).Floor;
    EmptiedLater(c, Run(c, first).buckets, u, t);
    EvictedRun(c, first, u, t, 0);
    var h := Evicted(first, u, t);
    TimesSpend(c, h, u, t, k, 0);
    TimesSpend(c, first, u, t, k, 0);
    EvictedOrdered(c, u, t, k);
    assert !SameDecision(c, h + Times(u, t, k), u, t);
  }

  /**
   * Without requests that slip in, the bound holds with evictions anywhere if and only if five minutes refill the
   * burst.
   */
  lemma CalmBoundedIff(c: Config)
    requires Sane(c)
    ensures CalmBounded(c) <==> RefillsWhileStale(c)
  {
    hide WithinBound, Ordered;
    if RefillsWhileStale(c) {
      forall h: seq<Event>, u: string, a: nat | Ordered(h) && Calm(c, h) && a < |h| ensures WithinBound(c, h, u, a) {
        WindowBound(c, h, u, a);
      }
    } else {
      SlowBreaksBound(c);
    }
  }

  /** Without requests that slip in, evictions change no decision if and only if five minutes refill the burst. */
  lemma CalmInvisibleIff(c: Config)
    requires Sane(c)
    ensures CalmInvisible(c) <==> RefillsWhileStale(c)
  {
    hide SameDecision, Ordered, Calm;
    if RefillsWhileStale(c) {
      forall h, u, now | Ordered(h + [Ask(u, now)]) && Calm(c, h) ensures SameDecision(c, h, u, now) {
        CalmDecisions(c, h, u, now);
      }
    } else {
      SlowShowsEviction(c);
    }
  }

  // -- All histories: requests may slip in between judging and deleting ---------------------------------

  ghost predicate AllBounded(c: Config) {
    forall h: seq<Event>, u: string, a: nat :: Ordered(h) && a < |h| ==> WithinBound(c, h, u, a)
  }

  ghost predicate AllInvisible(c: Config) {
    forall h, u, now :: Ordered(h + [Ask(u, now)]) ==> SameDecision(c, h, u, now)
  }

  const LATER: real := STALE + 1.0

  /** A bucket is found stale; before it is deleted, its user spends the refilled burst. */
  function Slipped(c: Config, u: string): seq<Event>
    requires c.burst >= 0
  {
    [Ask(u, 0.0)] + [Judge(u, LATER, LATER)] + Times(u, LATER, c.burst) + [Delete(u, LATER)]
  }

  lemma JudgedStale(c: Config, u: string)
    requires Sane(c) && RefillsWhileStale(c) && c.burst > 0
    ensures var s := Run(c, [Ask(u, 0.0)] + [Judge(u, LATER, LATER)]);
            && s.doomed == {u} && Available(c, s.buckets, u, LATER) == c.burst as real
            && Run(c, [Ask(u, 0.0)]).buckets == s.buckets
    ensures Requests([Ask(u, 0.0)] + [Judge(u, LATER, LATER)]) == [Ask(u, 0.0)] == Requests([Ask(u, 0.0)])
    ensures Allowed(c, [Ask(u, 0.0)] + [Judge(u, LATER, LATER)], u, 2) == 0
  {
    hide Available, Gain, RefillsWhileStale;
    assert [] + [Ask(u, 0.0)] == [Ask(u, 0.0)];
    Push(c, [], Ask(u, 0.0));
    Push(c, [Ask(u, 0.0)], Judge(u, LATER, LATER));
    FilledAlways(c, [Ask(u, 0.0)], LATER);
    StaleIsFull(c, Run(c, [Ask(u, 0.0)]).buckets, u, LATER, LATER);
  }

  /** The bucket is gone and the user finds a full one, although the burst is spent at this very moment. */
  lemma SlippedRun(c: Config, u: string)
    requires Sane(c) && RefillsWhileStale(c) && c.burst > 0
    ensures var h := Slipped(c, u);
            && Available(c, Run(c, h).buckets, u, LATER) == c.burst as real && Allowed(c, h, u, 2) == c.burst
            && Available(c, Run(c, Requests(h)).buckets, u, LATER) == 0.0
  {
    hide Available, Run, Allowed, Requests, RefillsWhileStale;
    JudgedStale(c, u);
    var start, judged := [Ask(u, 0.0)], [Ask(u, 0.0)] + [Judge(u, LATER, LATER)];
    TimesSpend(c, judged, u, LATER, c.burst, 2);
    TimesSpend(c, start, u, LATER, c.burst, 0);
    var spent := judged + Times(u, LATER, c.burst);
    Push(c, spent, Delete(u, LATER));
    TimesAt(u, LATER, c.burst);
    MissingIsFull(c, Run(c, spent).buckets - {u}, u, LATER);
  }

  lemma SlippedOrdered(c: Config, u: string)
    requires c.burst > 0
    ensures var h := Slipped(c, u) + Times(u, LATER, c.burst);
            && |h| > 2 && Ordered(h) && Ordered(Slipped(c, u) + [Ask(u, LATER)]) && h[2].at == LATER == h[|h| - 1].at
  {
    TimesAt(u, LATER, c.burst);
    hide Times;
    var h := Slipped(c, u) + Times(u, LATER, c.burst);
    assert h[0].at == 0.0 && forall i :: 0 < i < |h| ==> h[i].at == LATER;
    var slipped := Slipped(c, u) + [Ask(u, LATER)];
    assert slipped[0].at == 0.0 && forall i :: 0 < i < |slipped| ==> slipped[i].at == LATER;
  }

  /** Requests that slip in get the burst twice at one moment. */
  lemma SlipBreaksBound(c: Config)
    requires Sane(c) && RefillsWhileStale(c) && c.burst > 0
    ensures !AllBounded(c) && !AllInvisible(c)
  {
    hide Available, Run, Allowed, Requests, RefillsWhileStale, Ordered, Slipped, Times;
    var u := "u";
    SlippedRun(c, u);
    SlippedOrdered(c, u);
    var h := Slipped(c, u);
    assert !SameDecision(c, h, u, LATER);
    assert |h| >= 2 by { SlippedLength(c, u); }
    TimesSpend(c, h, u, LATER, c.burst, 2);
    var all := h + Times(u, LATER, c.burst);
    assert Allowed(c, all, u, 2) == 2 * c.burst;
    assert c.rate * (all[|all| - 1].at - all[2].at) == 0.0;
    assert !WithinBound(c, all, u, 2);
  }

  lemma SlippedLength(c: Config, u: string)
    requires c.burst >= 0
    ensures |Slipped(c, u)| == c.burst + 3
  {
    TimesAt(u, LATER, c.burst);
  }

  lemma {:induction false} NothingAllowed(c: Config, h: seq<Event>, u: string, a: nat)
    requires c.burst == 0
    ensures Allowed(c, h, u, a) == 0
  {
    hide Run, Gain;
    if |h| > a {
      NothingAllowed(c, h[..|h| - 1], u, a);
    }
  }

  /**
   * With requests that slip in, the bound and the invisibility of evictions hold for every run only if there is
   * nothing to hand out.
   */
  lemma AllRunsIff(c: Config)
    requires Sane(c)
    ensures AllBounded(c) <==> c.burst == 0
    ensures AllInvisible(c) <==> c.burst == 0
  {
    hide Allowed, Run, Requests, Gain;
    if c.burst == 0 {
      forall h: seq<Event>, u: string, a: nat | Ordered(h) && a < |h| ensures WithinBound(c, h, u, a) {
        NothingAllowed(c, h, u, a);
        assert h[a].at <= h[|h| - 1].at;
        assert c.rate * (h[|h| - 1].at - h[a].at) >= 0.0;
      }
    } else if RefillsWhileStale(c) {
      SlipBreaksBound(c);
    } else {
      SlowBreaksBound(c);
      SlowShowsEviction(c);
      CalmIsSome(c);
    }
  }

  lemma CalmIsSome(c: Config)
    ensures AllBounded(c) ==> CalmBounded(c)
    ensures AllInvisible(c) ==> CalmInvisible(c)
  {
    hide WithinBound, SameDecision, Ordered, Calm;
  }

  /** The configured limits: 100 tokens per second, bursts of 200. */
  lemma ConfiguredLimits()
    ensures var c := Config(100.0, 200);
            Sane(c) && CalmBounded(c) && CalmInvisible(c) && !AllBounded(c) && !AllInvisible(c)
  {
    hide CalmBounded, CalmInvisible, AllBounded, AllInvisible;
    var c := Config(100.0, 200);
    CalmBoundedIff(c);
    CalmInvisibleIff(c);
    AllRunsIff(c);
  }
}
