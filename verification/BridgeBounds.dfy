/**
 * Back pressure: queues, batches and channels stay within their capacities; and a connection ends after its last
 * message.
 */
module BridgeBounds {
  import opened Basics
  import opened BridgeParts
  import opened WebSocketBridge
  import opened BridgeBuffers
  import opened BridgeOrder
  import opened BridgeCurrent
  import opened BridgeDelivery
  import opened BridgeTheorems

  predicate PumpFits(p: Pump) {
    |p.queue| <= QUEUE && |p.batch| <= BATCH
  }

  /** The read error takes a place in the channel, and nothing is read after it. */
  predicate InletFits(i: Inlet) {
    |i.ch| + (if i.ended then 1 else 0) <= INBOX && (i.ended ==> i.hand.Gone?)
  }

  ghost predicate Fits(b: Bridge) {
    && PumpFits(b.clientPump) && InletFits(b.client)
    && (forall g :: 0 <= g < |b.pumps| ==> PumpFits(b.pumps[g]))
    && (forall g :: 0 <= g < |b.readers| ==> InletFits(b.readers[g]))
  }

  lemma PumpStepFits(p: Pump, e: PumpEvent, mem: map<nat, string>)
    requires PumpFits(p) && PumpStep(p, e, mem).Some?
    ensures PumpFits(PumpStep(p, e, mem).value.0)
  {
  }

  lemma InletStepFits(i: Inlet, e: ReadEvent)
    requires InletFits(i) && InletStep(i, e).Some?
    ensures InletFits(InletStep(i, e).value.0)
  {
  }

  lemma SideFits(b: Bridge, e: Event)
    requires Fits(b) && SideStep(b, e).Some?
    ensures Fits(SideStep(b, e).value.b)
  {
    hide PumpStep, InletStep, PumpFits, InletFits;
    match e
    case ClientWrites(p) => PumpStepFits(b.clientPump, p, b.heap.mem);
    case BackendWrites(g, p) => PumpStepFits(b.pumps[g], p, b.heap.mem);
    case ClientReads(r) => InletStepFits(b.client, r);
    case BackendReads(g, r) => InletStepFits(b.readers[g], r);
  }

  lemma RelayFits(b: Bridge, e: Event)
    requires Fits(b) && RelayStep(b, e).Some?
    ensures Fits(RelayStep(b, e).value.b)
  {
    assert PumpFits(Last(b.pumps)) && InletFits(Last(b.readers));
  }

  lemma SwapFits(b: Bridge, e: Event)
    requires Fits(b) && SwapStep(b, e).Some?
    ensures Fits(SwapStep(b, e).value.b)
  {
    assert PumpFits(Last(b.pumps)) && InletFits(Last(b.readers));
  }

  lemma FitsStep(payload: Payload, b: Bridge, e: Event, b': Bridge)
    requires Fits(b) && Next(payload, b, e) == Some(b')
    ensures Fits(b')
  {
    hide Next, SideStep, RelayStep, SwapStep, PumpFits, InletFits;
    StepKinds(payload, b, e, b');
    if SideStep(b, e).Some? { SideFits(b, e); }
    if RelayStep(b, e).Some? { RelayFits(b, e); }
    if SwapStep(b, e).Some? { SwapFits(b, e); }
  }

  lemma {:induction false} FitsReached(payload: Payload, states: seq<Bridge>, events: seq<Event>, i: nat)
    requires Run(payload, states, events) && i < |states|
    ensures Fits(states[i])
  {
    hide Next, Fits;
    if i == 0 {
      assert Fits(START) by { StartFits(); }
    } else {
      FitsReached(payload, states, events, i - 1);
      FitsStep(payload, states[i - 1], events[i - 1], states[i]);
    }
  }

  lemma StartFits()
    ensures Fits(START)
  {
  }

  // -- How many buffers a bridge ties up -------------------------------------------------------------------

  lemma {:induction false} PumpsLiveSize(ps: seq<Pump>)
    requires forall g :: 0 <= g < |ps| ==> PumpFits(ps[g])
    ensures |PumpsLive(ps)| <= (QUEUE + BATCH) * |ps|
  {
    if ps != [] {
      PumpsLiveSize(ps[..|ps| - 1]);
    }
  }

  lemma {:induction false} ReadersLiveSize(rs: seq<Inlet>)
    requires forall g :: 0 <= g < |rs| ==> InletFits(rs[g])
    ensures |ReadersLive(rs)| <= (INBOX + 1) * |rs|
  {
    if rs != [] {
      ReadersLiveSize(rs[..|rs| - 1]);
    }
  }

  /** A pump ties up at most 32 buffers, a reader 9 and the loop one. */
  lemma BuffersBounded(payload: Payload, states: seq<Bridge>, events: seq<Event>, i: nat)
    requires Run(payload, states, events) && i < |states|
    ensures var b := states[i];
            |Live(b)| <= (QUEUE + BATCH) * (|b.pumps| + 1) + (INBOX + 1) * (|b.readers| + 1) + 1
  {
    hide Next, PumpsLive, ReadersLive;
    FitsReached(payload, states, events, i);
    PumpsLiveSize(states[i].pumps);
    ReadersLiveSize(states[i].readers);
  }

  // -- A connection ends after its last message ------------------------------------------------------------

  /** When the loop notices that a backend connection ended, every message read from it was forwarded. */
  lemma BackendEndsAfterLast(payload: Payload, states: seq<Bridge>, events: seq<Event>, i: nat)
    requires Run(payload, states, events) && i < |events| && events[i].BackendEnded?
    ensures states[i].readers != []
    ensures var r := Last(states[i].readers);
            r.hand.Gone? && CountOf(states[i].forwarded, |states[i].readers| - 1) == Upcoming(r)
  {
    hide Owns, Live, Truthful, Sends, Sequenced, Below, Delivers, Readers;
    InvReached(payload, states, events, i);
    FitsReached(payload, states, events, i);
    assert Next(payload, states[i], events[i]) == Some(states[i + 1]);
  }

  /** What the current connection was handed, when the client's channel is empty and the loop holds nothing. */
  lemma AllHanded(payload: Payload, states: seq<Bridge>, events: seq<Event>, i: nat)
    requires Run(payload, states, events) && i < |states| && states[i].client.ch == []
    requires states[i].main.Select? || states[i].main.Forwarding?
    ensures states[i].pumps != []
    ensures var (p, start) := (Last(states[i].pumps), OpenedAt(states, events, i));
            !p.done && !Failed(p) ==>
              && start <= Upcoming(states[i].client)
              && Line(p) == seq(Upcoming(states[i].client) - start, k requires k >= 0 => Tag(Client, start + k))
  {
    hide Run, Line, OpenedAt;
    CurrentBackendMissesNothing(payload, states, events, i);
    assert InHand(states[i]) == [];
  }

  lemma Quiet(payload: Payload, b: Bridge, e: Event)
    requires (e.ClientEnded? || e.ForwardDone?) && Next(payload, b, e).Some?
    ensures b.client.ch == [] && (b.main.Select? || b.main.Forwarding?)
    ensures b.client.ended <==> e.ClientEnded?
  {
  }

  /** When it notices that the client's connection ended, every message from the client was handed on. */
  lemma ClientEndsAfterLast(payload: Payload, states: seq<Bridge>, events: seq<Event>, i: nat)
    requires Run(payload, states, events) && i < |events| && events[i].ClientEnded?
    ensures states[i].pumps != [] && states[i].client.hand.Gone?
    ensures var (p, start) := (Last(states[i].pumps), OpenedAt(states, events, i));
            !p.done && !Failed(p) ==>
              && start <= Upcoming(states[i].client)
              && Line(p) == seq(Upcoming(states[i].client) - start, k requires k >= 0 => Tag(Client, start + k))
  {
    hide Next, Line, OpenedAt;
    assert Next(payload, states[i], events[i]) == Some(states[i + 1]);
    Quiet(payload, states[i], events[i]);
    FitsReached(payload, states, events, i);
    AllHanded(payload, states, events, i);
  }

  /** When a swap completes, the new connection was handed every message the client's reader has passed on. */
  lemma SwapForwardsAll(payload: Payload, states: seq<Bridge>, events: seq<Event>, i: nat)
    requires Run(payload, states, events) && i < |events| && events[i].ForwardDone?
    ensures states[i].pumps != [] && !states[i].client.ended
    ensures var (p, start) := (Last(states[i].pumps), OpenedAt(states, events, i));
            !p.done && !Failed(p) ==>
              && start <= Upcoming(states[i].client)
              && Line(p) == seq(Upcoming(states[i].client) - start, k requires k >= 0 => Tag(Client, start + k))
  {
    hide Next, Line, OpenedAt;
    assert Next(payload, states[i], events[i]) == Some(states[i + 1]);
    Quiet(payload, states[i], events[i]);
    AllHanded(payload, states, events, i);
  }
}
