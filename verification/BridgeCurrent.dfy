/**
 * Client to backend, while a connection is current: it is handed every client message from the one that was next
 * when the connection was opened, and none is skipped.
 */
module BridgeCurrent {
  import opened Basics
  import opened BridgeParts
  import opened WebSocketBridge
  import opened BridgeOrder

  /** `t` is the client's messages from number `start` on. */
  ghost predicate IsRun(t: seq<Tag>, start: nat) {
    forall i :: 0 <= i < |t| ==> t[i] == Tag(Client, start + i)
  }

  /** Unless it failed, the pump's line is a run from `start`, up to `bound` while the loop is open. */
  ghost predicate Steady(p: Pump, start: nat, bound: nat, open: bool) {
    && (p.err ==> p.mode.Stopped?)
    && (!p.done ==> IsRun(WroteTags(p.written), start))
    && (!p.done && !Failed(p) ==> IsRun(Line(p), start))
    && (!p.done && !Failed(p) && open ==> start + |Line(p)| == bound)
  }

  ghost predicate Open(main: Main) {
    !main.Closing? && !main.Closed?
  }

  ghost predicate Current(b: Bridge, start: nat) {
    && b.pumps != []
    && (b.main.Draining? || b.main.Closed? ==> Last(b.pumps).done)
    && Steady(Last(b.pumps), start, Bound(b), Open(b.main))
  }

  /** The first message of the connection that is current after the step. */
  function StartAfter(b: Bridge, e: Event, start: nat): nat {
    if e == Dialed(true) then b.client.taken else start
  }

  lemma WrittenPrefix(p: Pump)
    ensures WroteTags(p.written) <= Line(p)
  {
  }

  lemma RunPrefix(s: seq<Tag>, t: seq<Tag>, start: nat)
    requires IsRun(t, start) && s <= t
    ensures IsRun(s, start)
  {
    assert forall i :: 0 <= i < |s| ==> s[i] == t[i];
  }

  lemma SteadyPumpStep(p: Pump, e: PumpEvent, mem: map<nat, string>, start: nat, bound: nat, open: bool)
    requires Steady(p, start, bound, open) && PumpStep(p, e, mem).Some?
    ensures Steady(PumpStep(p, e, mem).value.0, start, bound, open) && PumpStep(p, e, mem).value.0.done == p.done
  {
    hide Line, IsRun, Without;
    var p' := PumpStep(p, e, mem).value.0;
    PumpStepLine(p, e, mem);
    WrittenPrefix(p');
    if !p.done && !Failed(p) && !Failed(p') {
      RunPrefix(WroteTags(p'.written), Line(p'), start);
    }
  }

  lemma SteadyQueued(p: Pump, m: Msg, start: nat)
    requires Steady(p, start, m.n, true) && m.src == Client
    ensures Steady(Queued(p, m), start, m.n + 1, true)
  {
    hide Line;
    QueuedLine(p, m);
  }

  lemma SideCurrent(b: Bridge, e: Event, start: nat)
    requires Current(b, start) && Sends(b) && SideStep(b, e).Some?
    ensures Current(SideStep(b, e).value.b, start)
  {
    hide Steady, Ordered, Consecutive, PumpStep, InletStep;
    match e
    case ClientWrites(p) =>
    case BackendWrites(g, p) =>
      if g == |b.pumps| - 1 {
        SteadyPumpStep(b.pumps[g], p, b.heap.mem, start, Bound(b), Open(b.main));
      }
    case ClientReads(r) =>
      InletStepConsecutive(b.client, r);
    case BackendReads(g, r) =>
  }

  /** A stopped pump, or one whose error was taken, promises nothing more. */
  lemma StopCurrent(b: Bridge, start: nat)
    requires Current(b, start) && b.readers != []
    ensures Current(StopBackend(b), start)
  {
    hide Line, IsRun;
  }

  lemma ErrTakenCurrent(b: Bridge, main: Main, start: nat)
    requires Current(b, start) && b.readers != [] && Last(b.pumps).err && !main.Draining? && !main.Closed?
    ensures Current(ErrTaken(b).(main := main), start)
  {
    hide Line, IsRun;
  }

  lemma CloseCurrent(b: Bridge, start: nat)
    requires Current(b, start)
    ensures Current(b.(main := Closing), start)
  {
    hide Line, IsRun;
  }

  lemma RelayCurrent(b: Bridge, e: Event, start: nat)
    requires Current(b, start) && Sends(b) && RelayStep(b, e).Some?
    ensures Current(RelayStep(b, e).value.b, start)
  {
    hide Steady, Ordered, Consecutive, Queued;
    match e
    case TakeClient =>
      ReceivedFacts(b.client);
    case SendBackend =>
      SteadyQueued(Last(b.pumps), b.main.m, start);
    case SendBackendFails(swap) =>
      ErrTakenCurrent(b, Closing, start);
      StopCurrent(ErrTaken(b).(main := Closing), start);
    case SendClientFails =>
      CloseCurrent(b, start);
    case ClientEnded =>
      CloseCurrent(b, start);
    case BackendEnded(swap) =>
      CloseCurrent(b, start);
      StopCurrent(b, start);
    case BackendWriteErr(swap) =>
      ErrTakenCurrent(b, Closing, start);
      StopCurrent(ErrTaken(b).(main := Closing), start);
    case ClientWriteErr =>
      CloseCurrent(b, start);
    case SwapRequested =>
      StopCurrent(b, start);
    case _ =>
  }

  lemma SwapCurrent(b: Bridge, e: Event, start: nat)
    requires Current(b, start) && Sends(b) && SwapStep(b, e).Some?
    ensures Current(SwapStep(b, e).value.b, StartAfter(b, e, start))
  {
    hide Ordered, Consecutive, Line, IsRun;
    match e
    case Dialed(ok) =>
      NewSteady(b.client.taken);
    case ForwardOne =>
      if b.client.ch != [] {
        ReceivedFacts(b.client);
        SteadyQueued(Last(b.pumps), b.client.ch[0], start);
      }
    case _ =>
  }

  lemma NewSteady(start: nat)
    ensures Steady(NEW_PUMP, start, start, true)
  {
  }

  lemma CurrentStep(payload: Payload, b: Bridge, e: Event, b': Bridge, start: nat)
    requires Current(b, start) && Sends(b) && Next(payload, b, e) == Some(b')
    ensures Current(b', StartAfter(b, e, start))
  {
    hide Steady, Sends, SideStep, RelayStep, SwapStep;
    if e.Dialed? {
      SwapCurrent(b, e, start);
    } else {
      StepKinds(payload, b, e, b');
      hide Next;
      if SideStep(b, e).Some? { SideCurrent(b, e, start); }
      if RelayStep(b, e).Some? { RelayCurrent(b, e, start); }
      if SwapStep(b, e).Some? { SwapCurrent(b, e, start); }
    }
  }

  // -- Over a run ------------------------------------------------------------------------------------

  /** The number of the next client message when the connection that is current in state `i` was dialed. */
  function OpenedAt(states: seq<Bridge>, events: seq<Event>, i: nat): nat
    requires i <= |events| <= |states|
  {
    if i == 0 then 0
    else if events[i - 1] == Dialed(true) then states[i - 1].client.taken
    else OpenedAt(states, events, i - 1)
  }

  lemma StartCurrent()
    ensures Current(START, 0) && Sends(START)
  {
    assert Line(NEW_PUMP) == [];
  }

  lemma {:induction false} CurrentReached(payload: Payload, states: seq<Bridge>, events: seq<Event>, i: nat)
    requires Run(payload, states, events) && i < |states|
    ensures Current(states[i], OpenedAt(states, events, i)) && Sends(states[i])
  {
    hide Next, Current, Sends;
    if i == 0 {
      StartCurrent();
    } else {
      CurrentReached(payload, states, events, i - 1);
      CurrentStep(payload, states[i - 1], events[i - 1], states[i], OpenedAt(states, events, i - 1));
      SendsStep(payload, states[i - 1], events[i - 1], states[i]);
    }
  }

  /** The client message the loop holds for the current connection. */
  function InHand(b: Bridge): seq<Tag> {
    if b.main.ToBackend? then [Tag(b.main.m.src, b.main.m.n)] else []
  }
}
