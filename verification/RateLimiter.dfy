/** Per-user token buckets with idle eviction, over real time and real tokens. */
module RateLimiter {

  datatype Config = Config(rate: real, burst: int)

  datatype Bucket = Bucket(tokens: real, lastRefill: real)

  type Buckets = map<string, Bucket>

  const STALE: real := 300.0

  /** A missing bucket is created full. */
  function BucketOf(c: Config, m: Buckets, user: string, now: real): Bucket {
    if user in m then m[user] else Bucket(c.burst as real, now)
  }

  function Min(a: real, b: real): real {
    if a > b then b else a
  }

  /** Tokens that accrue while waiting. */
  function Gain(c: Config, elapsed: real): real {
    elapsed * c.rate
  }

  /** Tokens the user would find at `now`. */
  function Available(c: Config, m: Buckets, user: string, now: real): real {
    var b := BucketOf(c, m, user, now);
    Min(b.tokens + Gain(c, now - b.lastRefill), c.burst as real)
  }

  predicate Allows(c: Config, m: Buckets, user: string, now: real) {
    Available(c, m, user, now) >= 1.0
  }

  /** The buckets after a request. */
  function Spent(c: Config, m: Buckets, user: string, now: real): Buckets {
    var tokens := Available(c, m, user, now);
    m[user := Bucket(if tokens >= 1.0 then tokens - 1.0 else tokens, now)]
  }

  predicate Stale(b: Bucket, now: real) {
    now - b.lastRefill > STALE
  }

  /**
   * The cleanup first finds a bucket stale and then, having let go of the bucket's mutex, deletes the user's
   * entry: `doomed` are the users in between. `orphans` are deleted buckets that a request may still hold.
   */
  datatype Limiter = Limiter(buckets: Buckets, doomed: set<string>, orphans: Buckets)

  const EMPTY := Limiter(map[], {}, map[])

  datatype Event =
    | Ask(user: string, at: real)
    | Late(user: string, at: real)               // a request that looked its bucket up before it was deleted
    | Judge(user: string, at: real, tick: real)  // the cleanup's clock is that of its last tick
    | Delete(user: string, at: real)

  function Next(c: Config, s: Limiter, e: Event): Limiter {
    match e
    case Ask(user, now) =>
      s.(buckets := Spent(c, s.buckets, user, now))
    case Late(user, now) =>
      if user in s.orphans then s.(orphans := Spent(c, s.orphans, user, now)) else s
    case Judge(user, _, tick) =>
      if user in s.buckets && Stale(s.buckets[user], tick) then s.(doomed := s.doomed + {user}) else s
    case Delete(user, _) =>
      if user !in s.doomed then s
      else if user !in s.buckets then s.(doomed := s.doomed - {user})
      else Limiter(s.buckets - {user}, s.doomed - {user}, s.orphans[user := s.buckets[user]])
  }

  /** The event is a request that is let through. */
  predicate Grants(c: Config, s: Limiter, e: Event) {
    match e
    case Ask(user, now) => Allows(c, s.buckets, user, now)
    case Late(user, now) => user in s.orphans && Allows(c, s.orphans, user, now)
    case _ => false
  }

  function RunFrom(c: Config, s: Limiter, h: seq<Event>): Limiter {
    if h == [] then s else Next(c, RunFrom(c, s, h[..|h| - 1]), h[|h| - 1])
  }

  lemma RunFromPush(c: Config, s: Limiter, h: seq<Event>, e: Event)
    ensures RunFrom(c, s, h + [e]) == Next(c, RunFrom(c, s, h), e)
  {
    assert (h + [e])[..|h + [e]| - 1] == h;
  }

  function Run(c: Config, h: seq<Event>): Limiter {
    RunFrom(c, EMPTY, h)
  }

  class RateLimiter {
    const config: Config
    var limiters: Buckets

    constructor (rate: real, burst: int)
      ensures config == Config(rate, burst) && limiters == map[]
    {
      config := Config(rate, burst);
      limiters := map[];
    }

    method Allow(user: string, now: real) returns (ok: bool)
      modifies this
      ensures ok == Allows(config, old(limiters), user, now)
      ensures limiters == Spent(config, old(limiters), user, now)
    {
      var ul := if user in limiters then limiters[user] else Bucket(config.burst as real, now);
      var elapsed := now - ul.lastRefill;
      var tokens := ul.tokens + elapsed * config.rate;
      if tokens > config.burst as real {
        tokens := config.burst as real;
      }
      if tokens >= 1.0 {
        tokens := tokens - 1.0;
        limiters := limiters[user := Bucket(tokens, now)];
        return true;
      }
      limiters := limiters[user := Bucket(tokens, now)];
      return false;
    }

    /** One tick of the cleanup loop that no request interrupts: all users, in some order, judged and then deleted. */
    method Sweep(now: real) returns (ghost events: seq<Event>)
      modifies this
      ensures limiters == map u | u in old(limiters) && !Stale(old(limiters)[u], now) :: old(limiters)[u]
      ensures limiters == RunFrom(config, Limiter(old(limiters), {}, map[]), events).buckets
      ensures forall e :: e in events ==> e.at == now && (e.Delete? || (e.Judge? && e.tick == now))
    {
      events := [];
      var todo := limiters.Keys;
      ghost var s := Limiter(old(limiters), {}, map[]);
      while todo != {}
        invariant todo <= limiters.Keys
        invariant limiters == map u | u in old(limiters) && (u in todo || !Stale(old(limiters)[u], now)) ::
                  old(limiters)[u]
        invariant RunFrom(config, s, events).buckets == limiters && RunFrom(config, s, events).doomed == {}
        invariant forall e :: e in events ==> e.at == now && (e.Delete? || (e.Judge? && e.tick == now))
      {
        var user :| user in todo;
        todo := todo - {user};
        RunFromPush(config, s, events, Judge(user, now, now));
        RunFromPush(config, s, events + [Judge(user, now, now)], Delete(user, now));
        events := events + [Judge(user, now, now)] + [Delete(user, now)];
        if Stale(limiters[user], now) {
          limiters := limiters - {user};
        }
      }
    }
  }
}
