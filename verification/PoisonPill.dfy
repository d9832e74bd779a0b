/** Poison-pill detection: trimmed event lists answer like the full reassignment history. */
module PoisonPill {

  datatype Config = Config(threshold: int, window: int)

  datatype Detector = Detector(events: map<string, seq<int>>, quarantine: set<string>, gauge: int)

  const INITIAL := Detector(map[], {}, 0)

  /** Drops the leading events that lie before the cutoff. */
  function Trim(times: seq<int>, cutoff: int): seq<int> {
    if times != [] && times[0] < cutoff then Trim(times[1..], cutoff) else times
  }

  function Stored(d: Detector, key: string): seq<int> {
    if key in d.events then d.events[key] else []
  }

  /** The event list a recording leaves before it is compared with the threshold. */
  function Window(c: Config, d: Detector, key: string, now: int): seq<int> {
    Trim(Stored(d, key) + [now], now - c.window)
  }

  predicate Answer(c: Config, d: Detector, key: string, now: int) {
    key in d.quarantine || |Window(c, d, key, now)| >= c.threshold
  }

  datatype Event = Reassigned(key: string, at: int) | Released(key: string, at: int) | Pruned(at: int)

  function PruneAll(events: map<string, seq<int>>, cutoff: int): map<string, seq<int>> {
    map k | k in events && Trim(events[k], cutoff) != [] :: Trim(events[k], cutoff)
  }

  function Next(c: Config, d: Detector, e: Event): Detector {
    match e
    case Reassigned(key, now) =>
      if key in d.quarantine then d
      else if Answer(c, d, key, now) then Detector(d.events - {key}, d.quarantine + {key}, d.gauge + 1)
      else d.(events := d.events[key := Window(c, d, key, now)])
    case Released(key, now) =>
      if key in d.quarantine then d.(quarantine := d.quarantine - {key}, gauge := d.gauge - 1) else d
    case Pruned(now) =>
      d.(events := PruneAll(d.events, now - c.window))
  }

  /** The index the trimming loops stop at. */
  method FirstKept(times: seq<int>, cutoff: int) returns (i: nat)
    ensures i <= |times| && times[i..] == Trim(times, cutoff)
  {
    i := 0;
    while i < |times| && times[i] < cutoff
      invariant 0 <= i <= |times|
      invariant Trim(times[i..], cutoff) == Trim(times, cutoff)
    {
      assert times[i..][1..] == times[i + 1..];
      i := i + 1;
    }
    assert i < |times| ==> times[i..][0] == times[i];
  }

  class PoisonPillDetector {
    const config: Config
    var events: map<string, seq<int>>
    var quarantine: set<string>
    var gauge: int  // the quarantined-accounts metric

    constructor (config: Config)
      ensures this.config == config && State() == INITIAL
    {
      this.config := config;
      events, quarantine, gauge := map[], {}, 0;
    }

    ghost function State(): Detector
      reads this
    {
      Detector(events, quarantine, gauge)
    }

    method RecordReassignment(key: string, now: int) returns (quarantined: bool)
      modifies this
      ensures quarantined == Answer(config, old(State()), key, now)
      ensures State() == Next(config, old(State()), Reassigned(key, now))
    {
      if key in quarantine {
        return true;
      }
      var cutoff := now - config.window;
      var list := (if key in events then events[key] else []) + [now];
      var i := FirstKept(list, cutoff);
      if i > 0 {
        list := list[i..];
      }
      assert list == Window(config, old(State()), key, now);
      events := events[key := list];
      if |list| >= config.threshold {
        quarantine := quarantine + {key};
        events := events - {key};
        assert events == old(events) - {key};
        gauge := gauge + 1;
        return true;
      }
      return false;
    }

    /**
     * After any history `h` of calls the answer is the history's own: the threshold was reached and the key not
     * released since.
     */
    method IsQuarantined(key: string, ghost h: seq<Event>) returns (q: bool)
      requires config.window > 0 && Ordered(h) && State() == Run(config, h)
      ensures q == Quarantined(config, h, key)
    {
      hide Run, Quarantined, Ordered;
      QuarantineIsHistoryPredicate(config, h, key);
      q := key in quarantine;
    }

    method Unquarantine(key: string, ghost now: int)
      modifies this
      ensures State() == Next(config, old(State()), Released(key, now))
    {
      if key in quarantine {
        quarantine := quarantine - {key};
        gauge := gauge - 1;
      }
    }

    /** The map is visited in some order; each list is trimmed, and dropped when nothing is left. */
    method Prune(now: int)
      modifies this
      ensures State() == Next(config, old(State()), Pruned(now))
    {
      var cutoff := now - config.window;
      var todo := events.Keys;
      while todo != {}
        invariant todo <= old(events).Keys
        invariant quarantine == old(quarantine) && gauge == old(gauge)
        invariant forall k :: k in todo ==> k in events && events[k] == old(events)[k]
        invariant forall k :: k !in todo ==> (k in events <==> k in PruneAll(old(events), cutoff))
        invariant forall k :: k !in todo && k in events ==> events[k] == PruneAll(old(events), cutoff)[k]
      {
        var key :| key in todo;
        todo := todo - {key};
        var list := events[key];
        var i := FirstKept(list, cutoff);
        if i == |list| {
          events := events - {key};
        } else if i > 0 {
          events := events[key := list[i..]];
        }
      }
      assert events == PruneAll(old(events), cutoff);
    }
  }

  // -- The history specification ------------------------------------------------------------

  function Run(c: Config, h: seq<Event>): Detector {
    if h == [] then INITIAL else Next(c, Run(c, h[..|h| - 1]), h[|h| - 1])
  }

  /** The reassignments at or after the cutoff. */
  function Recent(times: seq<int>, cutoff: int): seq<int> {
    if times == [] then [] else
      var before, last := Recent(times[..|times| - 1], cutoff), times[|times| - 1];
      if last >= cutoff then before + [last] else before
  }

  /** All reassignments of the key since it was last let out of quarantine. */
  function Since(c: Config, h: seq<Event>, k: string): seq<int>
    decreases |h|, 0
  {
    if h == [] then [] else
      var before, e := h[..|h| - 1], h[|h| - 1];
      match e
      case Reassigned(key, now) => if key == k then Since(c, before, k) + [now] else Since(c, before, k)
      case Released(key, _) => if key == k && Quarantined(c, before, k) then [] else Since(c, before, k)
      case Pruned(_) => Since(c, before, k)
  }

  /** Whether one more reassignment now reaches the threshold inside the window. */
  predicate Poisoned(c: Config, h: seq<Event>, k: string, now: int)
    decreases |h|, 1
  {
    Quarantined(c, h, k) || |Recent(Since(c, h, k) + [now], now - c.window)| >= c.threshold
  }

  predicate Quarantined(c: Config, h: seq<Event>, k: string)
    decreases |h|, 0
  {
    if h == [] then false else
      var before, e := h[..|h| - 1], h[|h| - 1];
      match e
      case Reassigned(key, now) => if key == k then Poisoned(c, before, k, now) else Quarantined(c, before, k)
      case Released(key, _) => key != k && Quarantined(c, before, k)
      case Pruned(_) => Quarantined(c, before, k)
  }

  ghost predicate Ordered(h: seq<Event>) {
    forall i, j :: 0 <= i < j < |h| ==> h[i].at <= h[j].at
  }

  ghost predicate Ascending(times: seq<int>) {
    forall i, j :: 0 <= i < j < |times| ==> times[i] <= times[j]
  }

  lemma {:induction false} RecentOfOld(times: seq<int>, cutoff: int)
    requires forall i :: 0 <= i < |times| ==> times[i] < cutoff
    ensures Recent(times, cutoff) == []
  {
    if times != [] {
      RecentOfOld(times[..|times| - 1], cutoff);
    }
  }

  lemma {:induction false} RecentOfNew(times: seq<int>, cutoff: int)
    requires forall i :: 0 <= i < |times| ==> times[i] >= cutoff
    ensures Recent(times, cutoff) == times
  {
    if times != [] {
      RecentOfNew(times[..|times| - 1], cutoff);
      assert times == times[..|times| - 1] + [times[|times| - 1]];
    }
  }

  lemma {:induction false} RecentConcat(one: seq<int>, two: seq<int>, cutoff: int)
    ensures Recent(one + two, cutoff) == Recent(one, cutoff) + Recent(two, cutoff)
  {
    if two == [] {
      assert one + two == one;
    } else {
      RecentConcat(one, two[..|two| - 1], cutoff);
      assert (one + two)[..|one + two| - 1] == one + two[..|two| - 1];
    }
  }

  /** `kept` is `full` without a prefix of events older than the cutoff. */
  ghost predicate Suffix(full: seq<int>, kept: seq<int>, cutoff: int) {
    && |kept| <= |full| && kept == full[|full| - |kept|..]
    && forall i :: 0 <= i < |full| - |kept| ==> full[i] < cutoff
  }

  lemma {:induction false} TrimSuffix(times: seq<int>, cutoff: int)
    ensures Suffix(times, Trim(times, cutoff), cutoff)
    ensures Trim(times, cutoff) != [] ==> Trim(times, cutoff)[0] >= cutoff
  {
    if times != [] && times[0] < cutoff {
      TrimSuffix(times[1..], cutoff);
      assert forall i :: 0 < i < |times| ==> times[i] == times[1..][i - 1];
    }
  }

  lemma SuffixAscending(full: seq<int>, kept: seq<int>, cutoff: int)
    requires Suffix(full, kept, cutoff) && Ascending(full)
    ensures Ascending(kept)
  {
    forall i, j | 0 <= i < j < |kept| ensures kept[i] <= kept[j] {
      assert kept[i] == full[|full| - |kept| + i] && kept[j] == full[|full| - |kept| + j];
    }
  }

  /** On an ascending list, trimming the front keeps exactly the recent events. */
  lemma TrimIsRecent(times: seq<int>, cutoff: int)
    requires Ascending(times)
    ensures Trim(times, cutoff) == Recent(times, cutoff)
  {
    hide Trim, Recent;
    TrimSuffix(times, cutoff);
    var rest := Trim(times, cutoff);
    SuffixAscending(times, rest, cutoff);
    SuffixRecent(times, rest, cutoff, cutoff);
    RecentOfNew(rest, cutoff);
  }

  lemma SuffixRecent(full: seq<int>, kept: seq<int>, cutoff: int, later: int)
    requires Suffix(full, kept, cutoff) && cutoff <= later
    ensures Recent(full, later) == Recent(kept, later)
  {
    var older := full[..|full| - |kept|];
    assert full == older + kept;
    RecentOfOld(older, later);
    RecentConcat(older, kept, later);
  }

  lemma SuffixTrim(full: seq<int>, kept: seq<int>, cutoff: int, later: int)
    requires Suffix(full, kept, cutoff) && cutoff <= later && Ascending(full)
    ensures Suffix(full, Trim(kept, later), later)
    ensures Trim(kept, later) == Recent(full, later)
  {
    hide Trim, Recent;
    SuffixAscending(full, kept, cutoff);
    TrimSuffix(kept, later);
    TrimIsRecent(kept, later);
    SuffixRecent(full, kept, cutoff, later);
    var rest := Trim(kept, later);
    var n := |full| - |kept|;
    assert full[|full| - |rest|..] == kept[|kept| - |rest|..];
    forall i | 0 <= i < |full| - |rest| ensures full[i] < later {
      if i >= n {
        assert full[i] == kept[i - n];
      }
    }
  }

  /** What the detector stores about one key, given its history and the current time. */
  ghost predicate KeyInv(c: Config, h: seq<Event>, d: Detector, k: string, now: int) {
    && (k in d.quarantine <==> Quarantined(c, h, k))
    && (k in d.quarantine ==> k !in d.events)
    && (k in d.events ==> d.events[k] != [] && |d.events[k]| < c.threshold)
    && (k !in d.quarantine ==> Suffix(Since(c, h, k), Stored(d, k), now - c.window))
    && Ascending(Since(c, h, k))
    && forall i :: 0 <= i < |Since(c, h, k)| ==> Since(c, h, k)[i] <= now
  }

  lemma RecentLast(times: seq<int>, now: int, cutoff: int)
    requires now >= cutoff
    ensures Recent(times + [now], cutoff) == Recent(times, cutoff) + [now]
  {
    assert (times + [now])[..|times + [now]| - 1] == times;
  }

  lemma SuffixPush(full: seq<int>, kept: seq<int>, cutoff: int, now: int)
    requires Suffix(full, kept, cutoff)
    ensures Suffix(full + [now], kept + [now], cutoff)
  {
    assert (full + [now])[|full| - |kept|..] == full[|full| - |kept|..] + [now];
  }

  /** Recording one more reassignment. */
  lemma Push(c: Config, full: seq<int>, kept: seq<int>, earlier: int, now: int)
    requires Suffix(full, kept, earlier - c.window) && earlier <= now && c.window > 0
    requires Ascending(full) && forall i :: 0 <= i < |full| ==> full[i] <= earlier
    ensures Ascending(full + [now])
    ensures Trim(kept + [now], now - c.window) == Recent(full + [now], now - c.window)
    ensures Trim(kept + [now], now - c.window) != []
    ensures Suffix(full + [now], Trim(kept + [now], now - c.window), now - c.window)
  {
    hide Trim, Recent, Suffix;
    SuffixPush(full, kept, earlier - c.window, now);
    SuffixTrim(full + [now], kept + [now], earlier - c.window, now - c.window);
    RecentLast(full, now, now - c.window);
  }

  /** The history specification, one event further. */
  lemma SpecStep(c: Config, before: seq<Event>, e: Event, k: string)
    ensures Since(c, before + [e], k) ==
            if e.Reassigned? && e.key == k then Since(c, before, k) + [e.at]
            else if e.Released? && e.key == k && Quarantined(c, before, k) then []
            else Since(c, before, k)
    ensures Quarantined(c, before + [e], k) ==
            if e.Reassigned? && e.key == k then Poisoned(c, before, k, e.at)
            else if e.Released? && e.key == k then false
            else Quarantined(c, before, k)
  {
    assert (before + [e])[..|before + [e]| - 1] == before;
  }

  lemma SuffixLater(full: seq<int>, kept: seq<int>, cutoff: int, later: int)
    requires Suffix(full, kept, cutoff) && cutoff <= later
    ensures Suffix(full, kept, later)
  {
  }

  lemma KeyReassigned(c: Config, before: seq<Event>, d: Detector, k: string, earlier: int, now: int)
    requires c.window > 0 && earlier <= now && KeyInv(c, before, d, k, earlier)
    ensures KeyInv(c, before + [Reassigned(k, now)], Next(c, d, Reassigned(k, now)), k, now)
    ensures Answer(c, d, k, now) == Poisoned(c, before, k, now)
  {
    hide Recent, Trim, Suffix, Since, Quarantined;
    SpecStep(c, before, Reassigned(k, now), k);
    var full, kept := Since(c, before, k), Stored(d, k);
    if k !in d.quarantine {
      Push(c, full, kept, earlier, now);
    }
  }

  lemma KeyReleased(c: Config, before: seq<Event>, d: Detector, k: string, earlier: int, now: int)
    requires earlier <= now && KeyInv(c, before, d, k, earlier)
    ensures KeyInv(c, before + [Released(k, now)], Next(c, d, Released(k, now)), k, now)
  {
    hide Since, Quarantined;
    SpecStep(c, before, Released(k, now), k);
    if k !in d.quarantine {
      SuffixLater(Since(c, before, k), Stored(d, k), earlier - c.window, now - c.window);
    }
  }

  lemma KeyPruned(c: Config, before: seq<Event>, d: Detector, k: string, earlier: int, now: int)
    requires earlier <= now && KeyInv(c, before, d, k, earlier)
    ensures KeyInv(c, before + [Pruned(now)], Next(c, d, Pruned(now)), k, now)
  {
    hide Since, Quarantined, Trim, Recent, Suffix;
    SpecStep(c, before, Pruned(now), k);
    if k !in d.quarantine {
      SuffixTrim(Since(c, before, k), Stored(d, k), earlier - c.window, now - c.window);
      PrunedLength(Stored(d, k), now - c.window);
    }
  }

  lemma KeyUntouched(c: Config, before: seq<Event>, e: Event, d: Detector, k: string, earlier: int)
    requires earlier <= e.at && KeyInv(c, before, d, k, earlier) && !e.Pruned? && e.key != k
    ensures KeyInv(c, before + [e], Next(c, d, e), k, e.at)
  {
    hide Since, Quarantined, Trim, Suffix, Window, Answer;
    SpecStep(c, before, e, k);
    if k !in d.quarantine {
      SuffixLater(Since(c, before, k), Stored(d, k), earlier - c.window, e.at - c.window);
    }
  }

  lemma KeyStep(c: Config, before: seq<Event>, e: Event, d: Detector, k: string, earlier: int)
    requires c.window > 0 && earlier <= e.at && KeyInv(c, before, d, k, earlier)
    ensures KeyInv(c, before + [e], Next(c, d, e), k, e.at)
    ensures e.Reassigned? && e.key == k ==> Answer(c, d, k, e.at) == Poisoned(c, before, k, e.at)
  {
    hide KeyInv, Next, Answer, Poisoned;
    if e.Pruned? {
      KeyPruned(c, before, d, k, earlier, e.at);
    } else if e.key != k {
      KeyUntouched(c, before, e, d, k, earlier);
    } else if e.Reassigned? {
      KeyReassigned(c, before, d, k, earlier, e.at);
    } else {
      KeyReleased(c, before, d, k, earlier, e.at);
    }
  }

  lemma {:induction false} PrunedLength(kept: seq<int>, cutoff: int)
    ensures |Trim(kept, cutoff)| <= |kept|
  {
    if kept != [] && kept[0] < cutoff {
      PrunedLength(kept[1..], cutoff);
    }
  }

  function Clock(h: seq<Event>): int {
    if h == [] then 0 else h[|h| - 1].at
  }

  lemma GaugeStep(c: Config, d: Detector, e: Event)
    requires d.gauge == |d.quarantine|
    ensures Next(c, d, e).gauge == |Next(c, d, e).quarantine|
  {
    hide Answer, Window, PruneAll;
  }

  lemma {:induction false} GaugeIsSize(c: Config, h: seq<Event>)
    ensures Run(c, h).gauge == |Run(c, h).quarantine|
  {
    hide Next;
    if h != [] {
      GaugeIsSize(c, h[..|h| - 1]);
      GaugeStep(c, Run(c, h[..|h| - 1]), h[|h| - 1]);
    }
  }

  /**
   * Event lists are sorted, non-empty, below the threshold and disjoint from quarantine; the gauge is the
   * quarantine's size.
   */
  lemma {:induction false} DetectorInvariant(c: Config, h: seq<Event>, k: string)
    requires c.window > 0 && Ordered(h)
    ensures KeyInv(c, h, Run(c, h), k, Clock(h))
    ensures k in Run(c, h).events ==> Ascending(Run(c, h).events[k])
    ensures Run(c, h).gauge == |Run(c, h).quarantine|
  {
    hide KeyInv, Next, Ascending;
    GaugeIsSize(c, h);
    if h == [] {
      EmptyAnyTime(c, k, 0);
    } else {
      var before, e := h[..|h| - 1], h[|h| - 1];
      DetectorInvariant(c, before, k);
      assert h == before + [e];
      assert before != [] ==> before[|before| - 1].at <= e.at;
      if before == [] {
        EmptyAnyTime(c, k, e.at);
        KeyStep(c, before, e, Run(c, before), k, e.at);
      } else {
        KeyStep(c, before, e, Run(c, before), k, Clock(before));
      }
    }
    StoredAscending(c, h, Run(c, h), k);
  }

  lemma EmptyAnyTime(c: Config, k: string, now: int)
    ensures KeyInv(c, [], INITIAL, k, now)
  {
  }

  lemma StoredAscending(c: Config, h: seq<Event>, d: Detector, k: string)
    requires KeyInv(c, h, d, k, Clock(h))
    ensures k in d.events ==> Ascending(d.events[k])
  {
    if k in d.events {
      SuffixAscending(Since(c, h, k), d.events[k], Clock(h) - c.window);
    }
  }

  lemma QuarantineIsHistoryPredicate(c: Config, h: seq<Event>, k: string)
    requires c.window > 0 && Ordered(h)
    ensures k in Run(c, h).quarantine <==> Quarantined(c, h, k)
  {
    hide Run, Quarantined;
    DetectorInvariant(c, h, k);
  }

  /**
   * After a prune every stored list is what lies inside the window of the list before, and lists without such events
   * are gone.
   */
  lemma PruneKeepsWindow(c: Config, h: seq<Event>, now: int, k: string)
    requires c.window > 0 && Ordered(h + [Pruned(now)])
    ensures var before, after := Run(c, h), Run(c, h + [Pruned(now)]);
            && after.quarantine == before.quarantine
            && (k in after.events <==>
                k in before.events && exists i :: 0 <= i < |before.events[k]| && before.events[k][i] >= now - c.window)
            && (k in after.events ==> after.events[k] == Recent(before.events[k], now - c.window))
            && (k in after.events ==> forall i :: 0 <= i < |after.events[k]| ==> after.events[k][i] >= now - c.window)
  {
    hide Run, Trim, Recent;
    var all, e := h + [Pruned(now)], Pruned(now);
    forall i, j | 0 <= i < j < |h| ensures h[i].at <= h[j].at {
      assert all[i].at <= all[j].at;
    }
    RunPrune(c, h, now);
    var d := Run(c, h);
    if k in d.events {
      DetectorInvariant(c, h, k);
      TrimIsRecent(d.events[k], now - c.window);
      RecentInWindow(d.events[k], now - c.window);
    }
  }

  lemma RunPrune(c: Config, h: seq<Event>, now: int)
    ensures Run(c, h + [Pruned(now)]) == Next(c, Run(c, h), Pruned(now))
  {
    assert (h + [Pruned(now)])[..|h + [Pruned(now)]| - 1] == h;
  }

  lemma {:induction false} RecentInWindow(times: seq<int>, cutoff: int)
    ensures forall i :: 0 <= i < |Recent(times, cutoff)| ==> Recent(times, cutoff)[i] >= cutoff
    ensures Recent(times, cutoff) != [] <==> exists i :: 0 <= i < |times| && times[i] >= cutoff
  {
    if times != [] {
      var before := times[..|times| - 1];
      RecentInWindow(before, cutoff);
      if i :| 0 <= i < |before| && before[i] >= cutoff {
        assert times[i] >= cutoff;
      }
      if i :| 0 <= i < |times| && times[i] >= cutoff && i < |before| {
        assert before[i] >= cutoff;
      }
    }
  }

  /**
   * With prune calls anywhere, recording answers true exactly when the key is already quarantined or its
   * reassignments since its last release that lie in the window reach the threshold.
   */
  lemma DetectionIsHistoryPredicate(c: Config, h: seq<Event>, k: string, now: int)
    requires c.window > 0 && Ordered(h + [Reassigned(k, now)])
    ensures Answer(c, Run(c, h), k, now) == Poisoned(c, h, k, now)
    ensures k in Run(c, h).quarantine <==> Quarantined(c, h, k)
  {
    hide Poisoned, Answer;
    var e := Reassigned(k, now);
    var all := h + [e];
    forall i, j | 0 <= i < j < |h| ensures h[i].at <= h[j].at {
      assert all[i].at <= all[j].at;
    }
    DetectorInvariant(c, h, k);
    if h == [] {
      EmptyAnyTime(c, k, now);
      KeyStep(c, h, e, Run(c, h), k, now);
    } else {
      assert all[|h| - 1].at <= all[|h|].at;
      KeyStep(c, h, e, Run(c, h), k, Clock(h));
    }
  }
}
