/** Runs of the bridge that leave buffers behind. */
module BridgeWitnesses {
  import opened Basics
  import opened BridgeParts
  import opened WebSocketBridge
  import opened BridgeBuffers
  import opened BridgeStranding
  import opened BridgeAccounts

  lemma Extend(payload: Payload, states: seq<Bridge>, events: seq<Event>, e: Event, b: Bridge)
    requires Run(payload, states, events) && Next(payload, states[|events|], e) == Some(b)
    ensures Run(payload, states + [b], events + [e])
  {
    hide Next;
  }

  /** The backend's first `n` messages wait in the channel of its reader. */
  function Waiting(n: nat): seq<Msg> {
    seq(n, i requires 0 <= i < n => Msg(Backend(0), i, i))
  }

  ghost function Arrived(payload: Payload, n: nat): Bridge {
    START.(heap := Heap(map i: nat | 0 <= i < n :: payload(Backend(0), i), {}, n),
           readers := [Inlet(Backend(0), 0, Waiting(n), false, Reading, false)])
  }

  /** Messages arrive one after the other, up to what the channel holds. */
  lemma {:induction false} Arrivals(payload: Payload, n: nat) returns (states: seq<Bridge>, events: seq<Event>)
    requires n <= INBOX
    ensures Run(payload, states, events) && states[|events|] == Arrived(payload, n)
  {
    if n == 0 {
      states, events := [START], [];
      assert Waiting(0) == [];
    } else {
      states, events := Arrivals(payload, n - 1);
      var b := states[|events|];
      var m := Msg(Backend(0), n - 1, n - 1);
      var held := b.(heap := Get(b.heap, n - 1, payload(Backend(0), n - 1)),
        readers := [b.readers[0].(hand := Holding(m))]);
      assert b.readers[0 := b.readers[0].(hand := Holding(m))] == held.readers;
      Extend(payload, states, events, BackendReads(0, ReadOk(n - 1)), held);
      states, events := states + [held], events + [BackendReads(0, ReadOk(n - 1))];
      var pushed := Arrived(payload, n);
      assert Waiting(n) == Waiting(n - 1) + [m];
      assert held.readers[0 := pushed.readers[0]] == pushed.readers && held.heap == pushed.heap;
      Extend(payload, states, events, BackendReads(0, Push), pushed);
      states, events := states + [pushed], events + [BackendReads(0, Push)];
    }
  }

  /** A swap request that finds `n` messages waiting drops the first and abandons the others. */
  lemma SwapRequestStrands(payload: Payload, n: nat) returns (states: seq<Bridge>, events: seq<Event>)
    requires 0 < n <= INBOX
    ensures Run(payload, states, events) && |events| > 0 && events[|events| - 1] == SwapRequested
    ensures states[|events|].readers != [] && Abandoned(states[|events|]) == multiset(Waiting(n)[1..])
    ensures Moved(states[|events| - 1], SwapRequested).leaked == Some(Waiting(n)[0])
  {
    states, events := Arrivals(payload, n);
    var b := states[|events|];
    var last := Received(b.readers[0]);
    var swapped := StopBackend(b.(readers := WithLast(b.readers, last)));
    Extend(payload, states, events, SwapRequested, swapped);
    states, events := states + [swapped], events + [SwapRequested];
    assert swapped.readers[..0] == [];
  }

  /** The client hangs up while `n` backend messages wait: the loop returns without taking them. */
  lemma HangUp(payload: Payload, n: nat) returns (states: seq<Bridge>, events: seq<Event>, b: Bridge)
    requires n <= INBOX
    ensures Run(payload, states, events) && states[|events|] == b && b.heap == Arrived(payload, n).heap
    ensures b.main.Closed? && b.client.hand.Gone? && b.client.ch == [] && b.clientPump == NEW_PUMP.(done := true)
    ensures b.pumps == [NEW_PUMP.(done := true)]
            && b.readers == [Inlet(Backend(0), 0, Waiting(n), false, Reading, true)]
  {
    states, events := Arrivals(payload, n);
    b := Arrived(payload, n);
    var broken := b.(client := b.client.(hand := Broken));
    Extend(payload, states, events, ClientReads(ReadErr), broken);
    states, events := states + [broken], events + [ClientReads(ReadErr)];
    var ended := b.(client := b.client.(hand := Gone, ended := true));
    Extend(payload, states, events, ClientReads(PushErr), ended);
    states, events := states + [ended], events + [ClientReads(PushErr)];
    var closing := ended.(main := Closing);
    Extend(payload, states, events, ClientEnded, closing);
    states, events := states + [closing], events + [ClientEnded];
    b := StopBackend(closing).(client := closing.client.(cancelled := true), clientPump := NEW_PUMP.(done := true),
      main := Closed);
    Extend(payload, states, events, Shut, b);
    states, events := states + [b], events + [Shut];
  }

  /** Then every goroutine ends, the messages are still in the channel, and none of their buffers was returned. */
  lemma {:induction false} CloseStrands(payload: Payload, n: nat) returns (states: seq<Bridge>, events: seq<Event>)
    requires n <= INBOX
    ensures Run(payload, states, events) && Finished(states[|events|])
    ensures Abandoned(states[|events|]) == multiset(Waiting(n))
    ensures n > 0 ==> Read(states, events, |events|) != Released(states, events, |events|)
  {
    states, events := AllEnd(payload, n);
    var last := |events|;
    TidyReached(payload, states, events, last);
    FinishedIsAbandoned(states[last]);
    LiveConserved(payload, states, events, last);
    Leftover(Read(states, events, last), Live(states[last]), Released(states, events, last),
      Dropped(states, events, last));
    EmptyChannel(Waiting(n));
  }

  lemma AllEnd(payload: Payload, n: nat) returns (states: seq<Bridge>, events: seq<Event>)
    requires n <= INBOX
    ensures Run(payload, states, events) && Finished(states[|events|])
    ensures Abandoned(states[|events|]) == multiset(Waiting(n))
  {
    var b;
    states, events, b := HangUp(payload, n);
    var quit := b.(pumps := [b.pumps[0].(mode := Stopped)]);
    assert b.pumps[0 := b.pumps[0].(mode := Stopped)] == quit.pumps;
    Extend(payload, states, events, BackendWrites(0, Quit), quit);
    states, events := states + [quit], events + [BackendWrites(0, Quit)];
    var stopped := quit.(clientPump := b.clientPump.(mode := Stopped));
    Extend(payload, states, events, ClientWrites(Quit), stopped);
    states, events := states + [stopped], events + [ClientWrites(Quit)];
    var r := b.readers[0];
    var broken := stopped.(readers := [r.(hand := Broken)]);
    assert stopped.readers[0 := r.(hand := Broken)] == broken.readers;
    Extend(payload, states, events, BackendReads(0, ReadErr), broken);
    states, events := states + [broken], events + [BackendReads(0, ReadErr)];
    var gone := stopped.(readers := [r.(hand := Gone)]);
    assert broken.readers[0 := r.(hand := Gone)] == gone.readers;
    Extend(payload, states, events, BackendReads(0, Cancelled), gone);
    states, events := states + [gone], events + [BackendReads(0, Cancelled)];
    assert gone.readers[..0] == [];
  }

  /** A write to the backend fails; the pump reports it and the client's message is gone. */
  lemma WriteFails(payload: Payload) returns (states: seq<Bridge>, events: seq<Event>, b: Bridge)
    ensures Run(payload, states, events) && states[|events|] == b && b.main == Select && b.clientPump == NEW_PUMP
    ensures b.pumps == [NEW_PUMP.(mode := Stopped, err := true)] && b.readers == [NewInlet(Backend(0))]
    ensures b.heap.pool == {0} && b.heap.next == 1 && b.client == Inlet(Client, 1, [], false, Reading, false)
  {
    var m := Msg(Client, 0, 0);
    assert [] + [m] == [m] && [m][1..] == [];
    states, events := [START], [];
    b := START.(heap := Get(START.heap, 0, payload(Client, 0)), client := START.client.(hand := Holding(m)));
    Extend(payload, states, events, ClientReads(ReadOk(0)), b);
    states, events := states + [b], events + [ClientReads(ReadOk(0))];
    var sent := b.(client := Inlet(Client, 0, [m], false, Reading, false));
    Extend(payload, states, events, ClientReads(Push), sent);
    states, events := states + [sent], events + [ClientReads(Push)];
    var taken := sent.(client := Inlet(Client, 1, [], false, Reading, false), main := ToBackend(m));
    Extend(payload, states, events, TakeClient, taken);
    states, events := states + [taken], events + [TakeClient];
    b := taken.(pumps := [NEW_PUMP.(queue := [m])], main := Select);
    assert WithLast(taken.pumps, Queued(NEW_PUMP, m)) == b.pumps;
    Extend(payload, states, events, SendBackend, b);
    states, events := states + [b], events + [SendBackend];
    states, events, b := PumpFails(payload, states, events, b, m);
  }

  lemma PumpFails(payload: Payload, before: seq<Bridge>, past: seq<Event>, b0: Bridge, m: Msg)
    returns (states: seq<Bridge>, events: seq<Event>, b: Bridge)
    requires Run(payload, before, past) && before[|past|] == b0 && b0.pumps == [NEW_PUMP.(queue := [m])]
    ensures Run(payload, states, events) && states[|events|] == b
    ensures b == b0.(pumps := [NEW_PUMP.(mode := Stopped, err := true)], heap := Put(b0.heap, m.buf))
  {
    var batch := b0.(pumps := [NEW_PUMP.(batch := [m])]);
    assert b0.pumps[0 := NEW_PUMP.(batch := [m])] == batch.pumps && [] + [m] == [m] && [m][1..] == [];
    Extend(payload, before, past, BackendWrites(0, Take), batch);
    states, events := before + [batch], past + [BackendWrites(0, Take)];
    var writing := b0.(pumps := [NEW_PUMP.(batch := [m], mode := Writing)]);
    assert batch.pumps[0 := NEW_PUMP.(batch := [m], mode := Writing)] == writing.pumps;
    Extend(payload, states, events, BackendWrites(0, StartWrite), writing);
    states, events := states + [writing], events + [BackendWrites(0, StartWrite)];
    var failing := b0.(pumps := [NEW_PUMP.(mode := Failing)], heap := Put(b0.heap, m.buf));
    assert writing.pumps[0 := NEW_PUMP.(mode := Failing)] == failing.pumps;
    Extend(payload, states, events, BackendWrites(0, WriteFail), failing);
    states, events := states + [failing], events + [BackendWrites(0, WriteFail)];
    b := failing.(pumps := [NEW_PUMP.(mode := Stopped, err := true)]);
    assert failing.pumps[0 := NEW_PUMP.(mode := Stopped, err := true)] == b.pumps;
    Extend(payload, states, events, BackendWrites(0, EndBatch), b);
    states, events := states + [b], events + [BackendWrites(0, EndBatch)];
  }

  /**
   * A swap that strands nothing by itself, because the old reader's channel is empty; then the reader pushes what
   * it holds.
   */
  lemma LatePushStrands(payload: Payload) returns (states: seq<Bridge>, events: seq<Event>)
    ensures Run(payload, states, events) && |events| > 2
    ensures events[|events| - 2] == BackendWriteErr(true) && events[|events| - 1] == BackendReads(0, Push)
    ensures StrandedAt(states[|events| - 2], BackendWriteErr(true)) == multiset{}
    ensures states[|events|].readers != [] && Abandoned(states[|events|]) == multiset{Msg(Backend(0), 0, 0)}
  {
    var b;
    states, events, b := WriteFails(payload);
    var m := Msg(Backend(0), 0, 0);
    var held := b.(heap := Get(b.heap, 0, payload(Backend(0), 0)),
      readers := [NewInlet(Backend(0)).(hand := Holding(m))]);
    assert b.readers[0 := NewInlet(Backend(0)).(hand := Holding(m))] == held.readers;
    Extend(payload, states, events, BackendReads(0, ReadOk(0)), held);
    states, events := states + [held], events + [BackendReads(0, ReadOk(0))];
    var left := StopBackend(ErrTaken(held));
    Extend(payload, states, events, BackendWriteErr(true), left);
    states, events := states + [left], events + [BackendWriteErr(true)];
    var r := left.readers[0].(ch := [m], hand := Reading);
    var pushed := left.(readers := [r]);
    assert left.readers[0 := r] == pushed.readers && [] + [m] == [m];
    Extend(payload, states, events, BackendReads(0, Push), pushed);
    states, events := states + [pushed], events + [BackendReads(0, Push)];
    assert pushed.readers[..0] == [];
  }
}
