/** The Redis circuit breaker is a predicate on the history of failures and successes. */
module CircuitBreaker {

  datatype CbState = Closed | Open | HalfOpen

  datatype Breaker = Breaker(failures: nat, state: CbState, openedAt: int)

  datatype Config = Config(threshold: int, cooldown: int)

  const INITIAL := Breaker(0, Closed, 0)

  datatype Event = Failure(at: int) | Success(at: int) | Query(at: int)

  predicate AnswersOpen(c: Config, b: Breaker, now: int) {
    b.state.Open? && now - b.openedAt < c.cooldown
  }

  function Next(c: Config, b: Breaker, e: Event): Breaker {
    match e
    case Failure(now) =>
      if b.failures + 1 >= c.threshold then Breaker(b.failures + 1, Open, now) else b.(failures := b.failures + 1)
    case Success(now) => Breaker(0, Closed, b.openedAt)
    case Query(now) =>
      if b.state.Open? && now - b.openedAt >= c.cooldown then b.(state := HalfOpen) else b
  }

  class RedisBreaker {
    const config: Config
    var cbFailures: nat
    var cbState: CbState
    var cbOpenedAt: int

    constructor (config: Config)
      ensures this.config == config && State() == INITIAL
    {
      this.config := config;
      cbFailures, cbState, cbOpenedAt := 0, Closed, 0;
    }

    ghost function State(): Breaker
      reads this
    {
      Breaker(cbFailures, cbState, cbOpenedAt)
    }

    method IsCBOpen(now: int) returns (open: bool)
      modifies this
      ensures open == AnswersOpen(config, old(State()), now)
      ensures State() == Next(config, old(State()), Query(now))
    {
      match cbState
      case Open =>
        if now - cbOpenedAt >= config.cooldown {
          cbState := HalfOpen;
          return false;
        }
        return true;
      case HalfOpen =>
        return false;
      case Closed =>
        return false;
    }

    method RecordCBFailure(now: int)
      modifies this
      ensures State() == Next(config, old(State()), Failure(now))
    {
      cbFailures := cbFailures + 1;
      if cbFailures >= config.threshold {
        cbState := Open;
        cbOpenedAt := now;
      }
    }

    method RecordCBSuccess(ghost now: int)
      modifies this
      ensures State() == Next(config, old(State()), Success(now))
    {
      cbFailures := 0;
      if !cbState.Closed? {
        cbState := Closed;
      }
    }
  }

  // -- The history specification ---------------------------------------------------------

  function Run(c: Config, h: seq<Event>): Breaker {
    if h == [] then INITIAL else Next(c, Run(c, h[..|h| - 1]), h[|h| - 1])
  }

  ghost predicate Ordered(h: seq<Event>) {
    forall i, j :: 0 <= i < j < |h| ==> h[i].at <= h[j].at
  }

  /** Failures since the last success. */
  function Streak(h: seq<Event>): nat {
    if h == [] then 0 else
      match h[|h| - 1]
      case Failure(_) => Streak(h[..|h| - 1]) + 1
      case Success(_) => 0
      case Query(_) => Streak(h[..|h| - 1])
  }

  function LastFailure(h: seq<Event>): int
    requires Streak(h) > 0
  {
    match h[|h| - 1]
    case Failure(now) => now
    case Query(_) => LastFailure(h[..|h| - 1])
  }

  /** A threshold of zero or less opens on the first failure, like a threshold of one. */
  function Limit(c: Config): int {
    if c.threshold >= 1 then c.threshold else 1
  }

  lemma {:induction false} BreakerInvariant(c: Config, h: seq<Event>)
    requires Ordered(h)
    ensures Run(c, h).failures == Streak(h)
    ensures Run(c, h).state.Closed? <==> Streak(h) < Limit(c)
    ensures Streak(h) >= Limit(c) ==> Run(c, h).openedAt == LastFailure(h)
    ensures Run(c, h).state.HalfOpen? ==> h != [] && h[|h| - 1].at - Run(c, h).openedAt >= c.cooldown
  {
    if h != [] {
      var before := h[..|h| - 1];
      BreakerInvariant(c, before);
      assert before != [] ==> before[|before| - 1].at <= h[|h| - 1].at;
    }
  }

  /**
   * isCBOpen answers true exactly when the failure streak has reached the threshold and the last failure is younger
   * than the cooldown.
   */
  lemma BreakerIsHistoryPredicate(c: Config, h: seq<Event>, now: int)
    requires Ordered(h + [Query(now)])
    ensures AnswersOpen(c, Run(c, h), now) <==> Streak(h) >= Limit(c) && now - LastFailure(h) < c.cooldown
    ensures Run(c, h).state.Closed? <==> Streak(h) < Limit(c)
  {
    var all := h + [Query(now)];
    forall i, j | 0 <= i < j < |h| ensures h[i].at <= h[j].at {
      assert all[i].at <= all[j].at;
    }
    BreakerInvariant(c, h);
    assert h != [] ==> all[|h| - 1].at <= all[|h|].at;
  }
}
