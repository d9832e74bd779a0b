/** What the bridge guarantees in every run, for every interleaving and any number of swaps. */
module BridgeTheorems {
  import opened Basics
  import opened BridgeParts
  import opened WebSocketBridge
  import opened BridgeBuffers
  import opened BridgeOrder
  import opened BridgeCurrent
  import opened BridgeDelivery

  // -- Payloads ------------------------------------------------------------------------------------------

  ghost predicate AllFaithful(ps: seq<Pump>, payload: Payload) {
    forall g :: 0 <= g < |ps| ==> Faithful(ps[g], payload)
  }

  ghost predicate Truthful(b: Bridge, payload: Payload) {
    AllFaithful(b.pumps, payload) && Faithful(b.clientPump, payload)
  }

  lemma {:induction false} PumpLiveWithin(ps: seq<Pump>, g: nat)
    requires g < |ps|
    ensures PumpLive(ps[g]) <= PumpsLive(ps)
  {
    hide PumpLive;
    if g < |ps| - 1 {
      PumpLiveWithin(ps[..|ps| - 1], g);
    }
  }

  lemma PumpLiveLive(b: Bridge)
    ensures PumpLive(b.clientPump) <= Live(b) && PumpsLive(b.pumps) <= Live(b)
  {
    hide PumpLive, InletLive, PumpsLive, ReadersLive;
  }

  /** A buffer is written from outside the pool, and with the payload of its message. */
  lemma SideTruthful(b: Bridge, e: Event, payload: Payload)
    requires Truthful(b, payload) && Owns(b.heap, Live(b), payload) && SideStep(b, e).Some?
    ensures Truthful(SideStep(b, e).value.b, payload)
    ensures e.ClientWrites? && e.p.WriteOk? ==> b.clientPump.batch != [] && b.clientPump.batch[0].buf !in b.heap.pool
    ensures e.BackendWrites? && e.p.WriteOk? ==> b.pumps[e.g].batch != [] && b.pumps[e.g].batch[0].buf !in b.heap.pool
  {
    hide Faithful, PumpLive, PumpsLive, Live, Owns, InletStep;
    PumpLiveLive(b);
    match e
    case ClientWrites(p) =>
      PumpStepFaithful(b.clientPump, p, b.heap, Live(b), payload);
    case BackendWrites(g, p) =>
      PumpLiveWithin(b.pumps, g);
      PumpStepFaithful(b.pumps[g], p, b.heap, Live(b), payload);
    case ClientReads(r) =>
    case BackendReads(g, r) =>
  }

  lemma SameWritten(p: Pump, q: Pump, payload: Payload)
    requires Faithful(p, payload) && q.written == p.written
    ensures Faithful(q, payload)
  {
  }

  lemma LastFaithful(ps: seq<Pump>, q: Pump, payload: Payload)
    requires ps != [] && AllFaithful(ps, payload) && q.written == Last(ps).written
    ensures AllFaithful(WithLast(ps, q), payload)
  {
    hide Faithful;
    SameWritten(Last(ps), q, payload);
  }

  lemma StopTruthful(b: Bridge, swap: bool, payload: Payload)
    requires Truthful(b, payload) && b.pumps != [] && b.readers != []
    ensures Truthful(StopBackend(b), payload) && Truthful(ErrTaken(b), payload)
            && Truthful(SwapOrClose(b, swap), payload)
  {
    hide Faithful, AllFaithful;
    LastFaithful(b.pumps, Last(b.pumps).(done := true), payload);
    LastFaithful(b.pumps, Last(b.pumps).(err := false), payload);
  }

  lemma RelayTruthful(b: Bridge, e: Event, payload: Payload)
    requires Truthful(b, payload) && RelayStep(b, e).Some?
    ensures Truthful(RelayStep(b, e).value.b, payload)
  {
    hide Faithful, AllFaithful, SwapOrClose;
    match e
    case SendBackend =>
      LastFaithful(b.pumps, Queued(Last(b.pumps), b.main.m), payload);
    case SendBackendFails(swap) =>
      StopTruthful(b, swap, payload);
      StopTruthful(ErrTaken(b), swap, payload);
    case SendClient =>
      SameWritten(b.clientPump, Queued(b.clientPump, b.main.m), payload);
    case BackendEnded(swap) =>
      StopTruthful(b, swap, payload);
    case BackendWriteErr(swap) =>
      StopTruthful(b, swap, payload);
      StopTruthful(ErrTaken(b), swap, payload);
    case SwapRequested =>
      StopTruthful(b, true, payload);
    case _ =>
  }

  lemma SwapTruthful(b: Bridge, e: Event, payload: Payload)
    requires Truthful(b, payload) && SwapStep(b, e).Some?
    ensures Truthful(SwapStep(b, e).value.b, payload)
  {
    hide Faithful, AllFaithful;
    match e
    case DrainOne =>
      LastFaithful(b.pumps, Dequeued(Last(b.pumps)), payload);
    case Dialed(ok) =>
      NewFaithful(b.pumps, payload);
    case ForwardOne =>
      if b.client.ch != [] {
        LastFaithful(b.pumps, Queued(Last(b.pumps), b.client.ch[0]), payload);
      }
    case Shut =>
      StopTruthful(b, true, payload);
      SameWritten(b.clientPump, b.clientPump.(done := true), payload);
    case ShutDrain =>
      LastFaithful(b.pumps, Dequeued(Last(b.pumps)), payload);
    case _ =>
  }

  lemma NewFaithful(ps: seq<Pump>, payload: Payload)
    requires AllFaithful(ps, payload)
    ensures AllFaithful(ps + [NEW_PUMP], payload)
  {
  }

  lemma TruthfulStep(payload: Payload, b: Bridge, e: Event, b': Bridge)
    requires Truthful(b, payload) && Owns(b.heap, Live(b), payload) && Next(payload, b, e) == Some(b')
    ensures Truthful(b', payload)
  {
    hide Faithful, AllFaithful, Owns, Live, SideStep, RelayStep, SwapStep, Next;
    StepKinds(payload, b, e, b');
    if SideStep(b, e).Some? { SideTruthful(b, e, payload); }
    if RelayStep(b, e).Some? { RelayTruthful(b, e, payload); }
    if SwapStep(b, e).Some? { SwapTruthful(b, e, payload); }
  }

  // -- Every run -----------------------------------------------------------------------------------------

  ghost predicate Inv(payload: Payload, b: Bridge) {
    Owns(b.heap, Live(b), payload) && Truthful(b, payload) && Sends(b) && Forwards(b)
  }

  lemma NothingAtStart()
    ensures Live(START) == multiset{}
  {
    PumpsAppend([]);
    ReadersAppend([], Backend(0));
    assert [] + [NEW_PUMP] == [NEW_PUMP];
    assert [] + [NewInlet(Backend(0))] == [NewInlet(Backend(0))];
  }

  lemma StartForwards()
    ensures Forwards(START)
  {
    assert Line(NEW_PUMP) == [];
  }

  lemma StartInv(payload: Payload)
    ensures Inv(payload, START)
  {
    hide Live, Sends, Forwards;
    NothingAtStart();
    StartCurrent();
    StartForwards();
  }

  lemma InvStep(payload: Payload, b: Bridge, e: Event, b': Bridge)
    requires Inv(payload, b) && Next(payload, b, e) == Some(b')
    ensures Inv(payload, b')
  {
    hide Next, Owns, Live, Truthful, Sends, Forwards;
    OwnsStep(payload, b, e, b');
    TruthfulStep(payload, b, e, b');
    SendsStep(payload, b, e, b');
    ForwardsStep(payload, b, e, b');
  }

  lemma {:induction false} InvReached(payload: Payload, states: seq<Bridge>, events: seq<Event>, i: nat)
    requires Run(payload, states, events) && i < |states|
    ensures Inv(payload, states[i])
  {
    hide Next, Inv;
    if i == 0 {
      StartInv(payload);
    } else {
      InvReached(payload, states, events, i - 1);
      InvStep(payload, states[i - 1], events[i - 1], states[i]);
    }
  }

  /** Each backend connection gets an ordered, duplicate-free part of the client's messages, payloads intact. */
  lemma BackendsGetClientOrder(payload: Payload, states: seq<Bridge>, events: seq<Event>, i: nat)
    requires Run(payload, states, events) && i < |states|
    ensures var ps := states[i].pumps;
            && (forall g, k :: 0 <= g < |ps| && 0 <= k < |ps[g].written| ==>
                  ps[g].written[k].src == Client && ps[g].written[k].data == payload(Client, ps[g].written[k].n))
            && (forall g, k, l :: 0 <= g < |ps| && 0 <= k < l < |ps[g].written| ==>
                  ps[g].written[k].n < ps[g].written[l].n)
            && (forall g, h, k, l :: 0 <= g < h < |ps| && 0 <= k < |ps[g].written| && 0 <= l < |ps[h].written| ==>
                  ps[g].written[k].n < ps[h].written[l].n)
  {
    hide Next;
    InvReached(payload, states, events, i);
    WrittenOrdered(states[i], payload);
  }

  lemma WrittenOrdered(b: Bridge, payload: Payload)
    requires Sends(b) && Truthful(b, payload)
    ensures var ps := b.pumps;
            && (forall g, k :: 0 <= g < |ps| && 0 <= k < |ps[g].written| ==>
                  ps[g].written[k].src == Client && ps[g].written[k].data == payload(Client, ps[g].written[k].n))
            && (forall g, k, l :: 0 <= g < |ps| && 0 <= k < l < |ps[g].written| ==>
                  ps[g].written[k].n < ps[g].written[l].n)
            && (forall g, h, k, l :: 0 <= g < h < |ps| && 0 <= k < |ps[g].written| && 0 <= l < |ps[h].written| ==>
                  ps[g].written[k].n < ps[h].written[l].n)
  {
    hide Line;
    var ps := b.pumps;
    forall g | 0 <= g < |ps|
      ensures |ps[g].written| <= |Lines(ps)[g]|
      ensures forall k :: 0 <= k < |ps[g].written| ==> Lines(ps)[g][k] == Tag(ps[g].written[k].src, ps[g].written[k].n)
    {
      WrittenPrefix(ps[g]);
    }
  }

  /**
   * While a connection is current, it got the client's messages from the one that was next when it was dialed;
   * and while its pump works and the bridge is open, its line and the message in hand are exactly all messages
   * from there to the last one received from the client.
   */
  lemma CurrentBackendMissesNothing(payload: Payload, states: seq<Bridge>, events: seq<Event>, i: nat)
    requires Run(payload, states, events) && i < |states|
    ensures states[i].pumps != []
    ensures var (p, start) := (Last(states[i].pumps), OpenedAt(states, events, i));
            && (!p.done ==>
                  forall k :: 0 <= k < |p.written| ==>
                    p.written[k].src == Client && p.written[k].n == start + k)
            && (!p.done && !Failed(p) && Open(states[i].main) ==>
                  && start <= states[i].client.taken
                  && Line(p) + InHand(states[i])
                     == seq(states[i].client.taken - start, k requires k >= 0 => Tag(Client, start + k)))
  {
    hide Next, Line, Ordered, Consecutive;
    CurrentReached(payload, states, events, i);
    var p := Last(states[i].pumps);
    assert forall k :: 0 <= k < |p.written| ==> WroteTags(p.written)[k].n == p.written[k].n;
  }

  /**
   * The client gets a prefix of what was forwarded, and that is each connection's messages from 0 on, in turn. While
   * the client's pump works nothing forwarded is missing from its line, and while the loop serves the last
   * connection, every message received from it was forwarded or is in hand.
   */
  lemma ClientGetsPrefix(payload: Payload, states: seq<Bridge>, events: seq<Event>, i: nat)
    requires Run(payload, states, events) && i < |states|
    ensures var w := states[i].clientPump.written;
            && WroteTags(w) <= states[i].forwarded
            && Sequenced(states[i].forwarded)
            && (forall k :: 0 <= k < |w| ==> w[k].data == payload(w[k].src, w[k].n))
    ensures !Failed(states[i].clientPump) ==> Line(states[i].clientPump) == states[i].forwarded
    ensures states[i].readers != []
    ensures var (main, last) := (states[i].main, |states[i].readers| - 1);
            main.Select? || main.ToBackend? || main.ToClient? ==>
              CountOf(states[i].forwarded, last) + (if main.ToClient? then 1 else 0) == Last(states[i].readers).taken
  {
    hide Next, Sends, Owns, Sequenced;
    InvReached(payload, states, events, i);
  }

  /** No buffer is released while it is in the pool, nor written from there. */
  lemma BuffersReleasedOnce(payload: Payload, states: seq<Bridge>, events: seq<Event>, i: nat)
    requires Run(payload, states, events) && i < |events|
    ensures var (b, e) := (states[i], events[i]);
            && (Move(b, e).Some? && Move(b, e).value.freed.Some? ==> Move(b, e).value.freed.value.buf !in b.heap.pool)
            && (e.ClientWrites? && e.p.WriteOk? ==>
              b.clientPump.batch != [] && b.clientPump.batch[0].buf !in b.heap.pool)
            && (e.BackendWrites? && e.p.WriteOk? ==>
                  e.g < |b.pumps| && b.pumps[e.g].batch != [] && b.pumps[e.g].batch[0].buf !in b.heap.pool)
  {
    hide Owns, Live, Truthful, Sends, Forwards, RelayStep, SwapStep;
    InvReached(payload, states, events, i);
    OwnsStep(payload, states[i], events[i], states[i + 1]);
    if SideStep(states[i], events[i]).Some? {
      SideTruthful(states[i], events[i], payload);
    }
  }

  // -- Why a message is released -----------------------------------------------------------------------

  /** The step wrote `m` to the connection of the pump, with its payload. */
  predicate Delivered(p: Pump, p': Pump, m: Msg, payload: Payload) {
    p'.written == p.written + [Wrote(m.src, m.n, payload(m.src, m.n))]
  }

  /** `m` left the batch of a pump: it was delivered, or the pump has failed. */
  predicate PumpReleases(p: Pump, p': Pump, m: Msg, payload: Payload) {
    m in p.batch && (Delivered(p, p', m, payload) || Failed(p'))
  }

  predicate ReaderReleases(i: Inlet, m: Msg) {
    i.cancelled && i.hand == Holding(m)
  }

  /** The loop gives `m` up: its pump reported an error, was stopped, or has a full queue as the bridge closes. */
  predicate LoopReleases(b: Bridge, m: Msg, main: Main)
    requires b.pumps != []
  {
    || (b.main == ToBackend(m) && Last(b.pumps).err)
    || (b.main == ToClient(m) && b.clientPump.err)
    || (m in Last(b.pumps).queue && Last(b.pumps).done)
    || (b.main.Forwarding? && b.client.ch != [] && m == b.client.ch[0] && |Last(b.pumps).queue| >= QUEUE
        && main.Closing?)
  }

  lemma PumpReleasesStep(p: Pump, e: PumpEvent, h: Heap, live: multiset<Msg>, payload: Payload)
    requires PumpStep(p, e, h.mem).Some? && Owns(h, live, payload) && PumpLive(p) <= live
    ensures var (p', freed) := PumpStep(p, e, h.mem).value;
            freed.Some? ==> PumpReleases(p, p', freed.value, payload)
  {
    if p.batch != [] {
      assert p.batch[0] in PumpLive(p);
      assert p.batch[0] in live;
    }
  }

  lemma SideReleases(b: Bridge, e: Event, payload: Payload)
    requires Owns(b.heap, Live(b), payload) && SideStep(b, e).Some? && SideStep(b, e).value.freed.Some?
    ensures var (b', m) := (SideStep(b, e).value.b, SideStep(b, e).value.freed.value);
            match e
            case ClientWrites(_) => PumpReleases(b.clientPump, b'.clientPump, m, payload)
            case BackendWrites(g, _) => g < |b.pumps| == |b'.pumps| && PumpReleases(b.pumps[g], b'.pumps[g], m, payload)
            case ClientReads(_) => ReaderReleases(b.client, m)
            case BackendReads(g, _) => g < |b.readers| && ReaderReleases(b.readers[g], m)
            case _ => false
  {
    hide PumpReleases, PumpLive, PumpsLive, Live, Owns, PumpStep;
    PumpLiveLive(b);
    match e
    case ClientWrites(p) =>
      PumpReleasesStep(b.clientPump, p, b.heap, Live(b), payload);
    case BackendWrites(g, p) =>
      PumpLiveWithin(b.pumps, g);
      PumpReleasesStep(b.pumps[g], p, b.heap, Live(b), payload);
    case _ =>
  }

  lemma LoopReleasesStep(b: Bridge, e: Event, start: nat)
    requires Current(b, start) && b.readers != [] && SideStep(b, e).None?
    requires Move(b, e).Some? && Move(b, e).value.freed.Some?
    ensures LoopReleases(b, Move(b, e).value.freed.value, Move(b, e).value.b.main)
  {
    hide Steady, PumpStep, InletStep;
  }

  /** A message is released only when it was written, or when its connection, its pump or the bridge is given up. */
  lemma ReleasedOnlyWhen(payload: Payload, states: seq<Bridge>, events: seq<Event>, i: nat)
    requires Run(payload, states, events) && i < |events|
    requires Move(states[i], events[i]).Some? && Move(states[i], events[i]).value.freed.Some?
    ensures states[i].pumps != [] && states[i].readers != []
    ensures var (b, b', m) := (states[i], states[i + 1], Move(states[i], events[i]).value.freed.value);
            match events[i]
            case ClientWrites(_) => PumpReleases(b.clientPump, b'.clientPump, m, payload)
            case BackendWrites(g, _) => g < |b.pumps| == |b'.pumps| && PumpReleases(b.pumps[g], b'.pumps[g], m, payload)
            case ClientReads(_) => ReaderReleases(b.client, m)
            case BackendReads(g, _) => g < |b.readers| && ReaderReleases(b.readers[g], m)
            case _ => LoopReleases(b, m, b'.main)
  {
    hide Owns, Live, Truthful, Steady, SideStep, RelayStep, SwapStep, PumpReleases, LoopReleases;
    InvReached(payload, states, events, i);
    CurrentReached(payload, states, events, i);
    GotOrFreed(states[i], events[i]);
    assert Next(payload, states[i], events[i]) == Some(states[i + 1]);
    if SideStep(states[i], events[i]).Some? {
      SideIsMove(states[i], events[i]);
      SideReleases(states[i], events[i], payload);
    } else {
      LoopReleasesStep(states[i], events[i], OpenedAt(states, events, i));
    }
  }

  lemma SideIsMove(b: Bridge, e: Event)
    requires SideStep(b, e).Some?
    ensures Move(b, e) == SideStep(b, e)
    ensures e.ClientWrites? || e.BackendWrites? || e.ClientReads? || e.BackendReads?
  {
    hide PumpStep, InletStep;
  }
}
