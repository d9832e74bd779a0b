/** Nothing gets stuck: while a message is within reach some goroutine can move, and a closed bridge winds down. */
module BridgeProgress {
  import opened Basics
  import opened BridgeParts
  import opened WebSocketBridge
  import opened BridgeBuffers
  import opened BridgeStranding
  import opened BridgeTheorems
  import opened BridgeAccounts

  /** A step that does not wait for a connection, a swap request or the buffer pool. */
  predicate Internal(e: Event) {
    && !e.Abort? && !e.PoolDrop? && !e.SwapRequested?
    && (e.ClientReads? || e.BackendReads? ==> e.r.Push? || e.r.PushErr? || e.r.Cancelled?)
  }

  ghost predicate Idle(payload: Payload, b: Bridge) {
    forall e :: Internal(e) ==> Next(payload, b, e).None?
  }

  // -- Who is stopped, and who is told ---------------------------------------------------------------------

  /** A pump that stopped by itself has an error report pending, unless the loop has taken it. */
  predicate Reports(p: Pump) {
    p.mode.Stopped? && !p.done ==> p.err
  }

  predicate Serving(main: Main) {
    main.Select? || main.ToBackend? || main.ToClient? || main.Forwarding?
  }

  ghost predicate Told(b: Bridge) {
    && b.pumps != [] && b.readers != []
    && (forall g :: 0 <= g < |b.pumps| - 1 ==> b.pumps[g].done)
    && (forall g :: 0 <= g < |b.readers| - 1 ==> b.readers[g].cancelled)
    && (b.main.Draining? || b.main.Forwarding? ==> Last(b.readers).cancelled)
    && (Serving(b.main) ==> !Last(b.pumps).done && Reports(Last(b.pumps)))
    && (b.main.Draining? ==> Last(b.pumps).done)
    && Reports(b.clientPump) && (b.clientPump.done <==> b.main.Closed?)
    && (b.main.Closed? ==> Last(b.pumps).done && Last(b.readers).cancelled && b.client.cancelled)
  }

  lemma PumpTold(p: Pump, e: PumpEvent, mem: map<nat, string>)
    requires PumpStep(p, e, mem).Some?
    ensures var p' := PumpStep(p, e, mem).value.0;
            p'.done == p.done && (Reports(p) ==> Reports(p'))
  {
  }

  lemma InletTold(i: Inlet, e: ReadEvent)
    requires InletStep(i, e).Some?
    ensures InletStep(i, e).value.0.cancelled == i.cancelled
  {
  }

  lemma SideTold(b: Bridge, e: Event)
    requires Told(b) && SideStep(b, e).Some?
    ensures Told(SideStep(b, e).value.b)
  {
    hide PumpStep, InletStep, Reports;
    match e
    case ClientWrites(p) => PumpTold(b.clientPump, p, b.heap.mem);
    case BackendWrites(g, p) => PumpTold(b.pumps[g], p, b.heap.mem);
    case ClientReads(r) => InletTold(b.client, r);
    case BackendReads(g, r) => InletTold(b.readers[g], r);
  }

  lemma RelayTold(b: Bridge, e: Event)
    requires Told(b) && RelayStep(b, e).Some?
    ensures Told(RelayStep(b, e).value.b)
  {
  }

  lemma SwapTold(b: Bridge, e: Event)
    requires Told(b) && SwapStep(b, e).Some?
    ensures Told(SwapStep(b, e).value.b)
  {
  }

  lemma ToldStep(payload: Payload, b: Bridge, e: Event, b': Bridge)
    requires Told(b) && Next(payload, b, e) == Some(b')
    ensures Told(b')
  {
    hide Next, SideStep, RelayStep, SwapStep, Reports;
    StepKinds(payload, b, e, b');
    if SideStep(b, e).Some? { SideTold(b, e); }
    if RelayStep(b, e).Some? { RelayTold(b, e); }
    if SwapStep(b, e).Some? { SwapTold(b, e); }
  }

  lemma {:induction false} ToldReached(payload: Payload, states: seq<Bridge>, events: seq<Event>, i: nat)
    requires Run(payload, states, events) && i < |states|
    ensures Told(states[i])
  {
    hide Next, Told;
    if i == 0 {
      assert Told(START) by { ToldStart(); }
    } else {
      ToldReached(payload, states, events, i - 1);
      ToldStep(payload, states[i - 1], events[i - 1], states[i]);
    }
  }

  lemma ToldStart()
    ensures Told(START)
  {
  }

  // -- What an idle goroutine holds --------------------------------------------------------------------------

  /** A pump with no step to take holds no batch, and no queue unless it stopped; told to stop, it has. */
  lemma PumpRests(p: Pump, mem: map<nat, string>)
    requires StoppedEmpty(p) && forall e :: PumpStep(p, e, mem).None?
    ensures p.batch == [] && (p.mode.Stopped? || (p.queue == [] && !p.done))
  {
    assert PumpStep(p, Take, mem).None? && PumpStep(p, StartWrite, mem).None? && PumpStep(p, WriteFail, mem).None?;
    assert PumpStep(p, DropRest, mem).None? && PumpStep(p, EndBatch, mem).None? && PumpStep(p, Quit, mem).None?;
  }

  /** A reader with no step to take waits for its connection or has ended, unless its channel is full. */
  lemma InletRests(i: Inlet)
    requires InletStep(i, Push).None? && InletStep(i, PushErr).None? && InletStep(i, Cancelled).None?
    ensures i.cancelled || |i.ch| < INBOX ==> i.hand.Reading? || i.hand.Gone?
  {
  }

  lemma MoveIdle(payload: Payload, b: Bridge, e: Event)
    requires Idle(payload, b) && Internal(e)
    ensures Move(b, e).None?
  {
    hide Move;
    assert Next(payload, b, e).None?;
    if Move(b, e).Some? {
      NoRead(b, e);
    }
  }

  lemma NoRead(b: Bridge, e: Event)
    requires Move(b, e).Some? && Internal(e)
    ensures Move(b, e).value.got.None?
  {
    hide PumpStep;
  }

  lemma PumpsRest(payload: Payload, b: Bridge, g: nat)
    requires Idle(payload, b) && Tidy(b) && g < |b.pumps|
    ensures var p := b.pumps[g]; p.batch == [] && (p.mode.Stopped? || (p.queue == [] && !p.done))
  {
    hide Idle, PumpStep, StoppedEmpty;
    forall e ensures PumpStep(b.pumps[g], e, b.heap.mem).None? {
      MoveIdle(payload, b, BackendWrites(g, e));
    }
    PumpRests(b.pumps[g], b.heap.mem);
  }

  lemma ClientPumpRests(payload: Payload, b: Bridge)
    requires Idle(payload, b) && Tidy(b)
    ensures var p := b.clientPump; p.batch == [] && (p.mode.Stopped? || (p.queue == [] && !p.done))
  {
    hide Idle, PumpStep, StoppedEmpty;
    forall e ensures PumpStep(b.clientPump, e, b.heap.mem).None? {
      MoveIdle(payload, b, ClientWrites(e));
    }
    PumpRests(b.clientPump, b.heap.mem);
  }

  lemma ReadersRest(payload: Payload, b: Bridge, g: nat)
    requires Idle(payload, b) && g < |b.readers|
    ensures var r := b.readers[g]; r.cancelled || |r.ch| < INBOX ==> r.hand.Reading? || r.hand.Gone?
  {
    hide Idle, InletStep;
    MoveIdle(payload, b, BackendReads(g, Push));
    MoveIdle(payload, b, BackendReads(g, PushErr));
    MoveIdle(payload, b, BackendReads(g, Cancelled));
    InletRests(b.readers[g]);
  }

  lemma ClientRests(payload: Payload, b: Bridge)
    requires Idle(payload, b)
    ensures b.client.cancelled || |b.client.ch| < INBOX ==> b.client.hand.Reading? || b.client.hand.Gone?
  {
    hide Idle, InletStep;
    MoveIdle(payload, b, ClientReads(Push));
    MoveIdle(payload, b, ClientReads(PushErr));
    MoveIdle(payload, b, ClientReads(Cancelled));
    InletRests(b.client);
  }

  /** An idle loop does not hold a message: the pump it waits for has room, or has reported an error. */
  lemma HandEmpty(payload: Payload, b: Bridge)
    requires Idle(payload, b) && Told(b) && Tidy(b)
    ensures !b.main.ToBackend? && !b.main.ToClient?
  {
    hide Idle, Tidy, PumpStep;
    PumpsRest(payload, b, |b.pumps| - 1);
    ClientPumpRests(payload, b);
    MoveIdle(payload, b, SendBackend);
    MoveIdle(payload, b, SendBackendFails(true));
    MoveIdle(payload, b, SendClient);
    MoveIdle(payload, b, SendClientFails);
  }

  lemma SwapRests(payload: Payload, b: Bridge)
    requires Idle(payload, b) && b.pumps != [] && b.readers != []
    ensures !b.main.Draining? && !b.main.Forwarding? && !b.main.Closing?
    ensures b.main.Closed? ==> Last(b.pumps).queue == []
  {
    hide Idle, PumpStep;
    MoveIdle(payload, b, DrainOne);
    MoveIdle(payload, b, Dialed(true));
    MoveIdle(payload, b, ForwardOne);
    MoveIdle(payload, b, ForwardDone);
    MoveIdle(payload, b, Shut);
    MoveIdle(payload, b, ShutDrain);
  }

  lemma SelectRests(payload: Payload, b: Bridge)
    requires Idle(payload, b) && b.pumps != [] && b.readers != [] && b.main.Select?
    ensures b.client.ch == [] && Last(b.readers).ch == [] && !b.clientPump.err && !Last(b.pumps).err
  {
    hide Idle;
    MoveIdle(payload, b, TakeClient);
    MoveIdle(payload, b, TakeBackend);
    MoveIdle(payload, b, BackendWriteErr(true));
    MoveIdle(payload, b, ClientWriteErr);
  }

  /** An idle loop waits with nothing to receive and no error to notice, or has returned with its queue drained. */
  lemma LoopRests(payload: Payload, b: Bridge)
    requires Idle(payload, b) && Told(b) && Tidy(b)
    ensures b.main.Select? || b.main.Closed?
    ensures b.main.Select? ==> b.client.ch == [] && Last(b.readers).ch == [] && !b.clientPump.err && !Last(b.pumps).err
    ensures b.main.Closed? ==> Last(b.pumps).queue == []
  {
    hide Idle, Tidy;
    HandEmpty(payload, b);
    SwapRests(payload, b);
    if b.main.Select? {
      SelectRests(payload, b);
    }
  }

  // -- Every run ---------------------------------------------------------------------------------------------

  /** In an idle bridge only abandoned messages are live. */
  lemma IdleIsAbandoned(payload: Payload, b: Bridge)
    requires Idle(payload, b) && Told(b) && Tidy(b)
    ensures Live(b) == Abandoned(b)
  {
    hide Idle, PumpsLive, ReadersLive, Channels;
    LoopRests(payload, b);
    forall g | 0 <= g < |b.pumps| ensures b.pumps[g].queue == [] && b.pumps[g].batch == [] {
      PumpsRest(payload, b, g);
    }
    forall g | 0 <= g < |b.readers| ensures !b.readers[g].hand.Holding? {
      ReadersRest(payload, b, g);
    }
    ClientPumpRests(payload, b);
    ClientRests(payload, b);
    NoPumpHolds(b.pumps);
    OnlyChannels(b.readers);
    ChannelsSplit(b.readers);
  }

  /** While a message is within reach, some goroutine can take a step. */
  lemma NothingStuck(payload: Payload, states: seq<Bridge>, events: seq<Event>, i: nat)
    requires Run(payload, states, events) && i < |states|
    ensures states[i].readers != []
    ensures Reachable(states[i]) != multiset{} ==> exists e :: Internal(e) && Next(payload, states[i], e).Some?
  {
    hide Next, Live, Abandoned, Told, Tidy, Internal;
    Manned(payload, states, events, i);
    ToldReached(payload, states, events, i);
    TidyReached(payload, states, events, i);
    if forall e :: Internal(e) ==> Next(payload, states[i], e).None? {
      assert Idle(payload, states[i]);
      IdleIsAbandoned(payload, states[i]);
    }
  }

  /** A reader at its connection can take the next message, into a new buffer or one from the pool, or its failure. */
  lemma CanRead(payload: Payload, b: Bridge, g: nat, buf: nat)
    requires g < |b.readers| && b.readers[g].hand.Reading? && CanGet(b.heap, buf)
    ensures Next(payload, b, BackendReads(g, ReadErr)).Some?
    ensures Next(payload, b, BackendReads(g, ReadOk(buf))).Some?
    ensures var b' := Next(payload, b, BackendReads(g, ReadOk(buf))).value;
            b'.readers[g].hand == Holding(Msg(b.readers[g].src, Upcoming(b.readers[g]), buf)) && buf !in b'.heap.pool
  {
  }

  /**
   * A swap request is taken up as soon as the loop is at its select and the backend's reader has passed on a message or
   * its failure. Then the old reader is told to stop, the old pump too, and the loop drains that pump's queue.
   */
  lemma SwapRequestTaken(payload: Payload, states: seq<Bridge>, events: seq<Event>, i: nat)
    requires Run(payload, states, events) && i < |states|
    ensures states[i].readers != []
    ensures var (b, r) := (states[i], Last(states[i].readers));
            Next(payload, b, SwapRequested).Some? <==> b.main.Select? && (r.ch != [] || r.ended)
    ensures Next(payload, states[i], SwapRequested).Some? ==>
              var b' := Next(payload, states[i], SwapRequested).value;
              && b'.main.Draining? && b'.pumps != [] && b'.readers != []
              && Last(b'.pumps).done && Last(b'.readers).cancelled
              && Last(b'.pumps).queue == Last(states[i].pumps).queue
  {
    hide Run;
    Manned(payload, states, events, i);
  }

  /** Why the loop may end: the client or its pump is gone, or the backend is and is not, or cannot be, replaced. */
  predicate GivesUp(b: Bridge, e: Event)
    requires b.pumps != [] && b.readers != []
  {
    || (b.client.ch == [] && b.client.ended)
    || b.clientPump.err
    || (Last(b.readers).ch == [] && Last(b.readers).ended && e == BackendEnded(false))
    || (Last(b.pumps).err && (e == BackendWriteErr(false) || e == SendBackendFails(false)))
    || e == Dialed(false)
    || (b.main.Forwarding? && b.client.ch != [] && |Last(b.pumps).queue| >= QUEUE)
  }

  lemma EndsOnlyWhen(payload: Payload, states: seq<Bridge>, events: seq<Event>, i: nat)
    requires Run(payload, states, events) && i < |events|
    requires !states[i].main.Closing? && states[i + 1].main.Closing?
    ensures states[i].pumps != [] && states[i].readers != [] && GivesUp(states[i], events[i])
  {
    hide PumpStep, InletStep;
    Manned(payload, states, events, i);
    assert Next(payload, states[i], events[i]) == Some(states[i + 1]);
  }

  /** A closed bridge whose connections have failed and that has no step left is finished. */
  lemma ClosedWindsDown(payload: Payload, states: seq<Bridge>, events: seq<Event>, i: nat)
    requires Run(payload, states, events) && i < |states|
    requires states[i].main.Closed? && Idle(payload, states[i])
    requires !states[i].client.hand.Reading?
    requires forall g :: 0 <= g < |states[i].readers| ==> !states[i].readers[g].hand.Reading?
    ensures Finished(states[i])
  {
    hide Next, Idle;
    var b := states[i];
    ToldReached(payload, states, events, i);
    TidyReached(payload, states, events, i);
    LoopRests(payload, b);
    forall g | 0 <= g < |b.pumps| ensures b.pumps[g].mode.Stopped? {
      PumpsRest(payload, b, g);
    }
    forall g | 0 <= g < |b.readers| ensures b.readers[g].hand.Gone? {
      ReadersRest(payload, b, g);
    }
    ClientPumpRests(payload, b);
    ClientRests(payload, b);
  }

  // -- The shutdown ends -------------------------------------------------------------------------------------

  /** How many steps a pump can still take when nothing more is queued for it. */
  function PumpWork(p: Pump): nat {
    4 * |p.queue| + 3 * |p.batch|
    + match p.mode
      case Collecting => 2
      case Writing => if p.batch == [] then 3 else 1
      case Failing => 1
      case Stopped => 0
  }

  function PumpsWork(ps: seq<Pump>): nat {
    if ps == [] then 0 else PumpsWork(ps[..|ps| - 1]) + PumpWork(ps[|ps| - 1])
  }

  /** How many steps a reader can still take when it reads no further message. */
  function ReaderWork(i: Inlet): nat {
    match i.hand
    case Holding(_) => 3
    case Reading => 2
    case Broken => 1
    case Gone => 0
  }

  function ReadersWork(rs: seq<Inlet>): nat {
    if rs == [] then 0 else ReadersWork(rs[..|rs| - 1]) + ReaderWork(rs[|rs| - 1])
  }

  function Work(b: Bridge): nat {
    PumpsWork(b.pumps) + ReadersWork(b.readers) + ReaderWork(b.client) + PumpWork(b.clientPump)
  }

  lemma {:induction false} PumpsWorkUpdate(ps: seq<Pump>, g: nat, p: Pump)
    requires g < |ps|
    ensures PumpsWork(ps[g := p]) + PumpWork(ps[g]) == PumpsWork(ps) + PumpWork(p)
  {
    hide PumpWork;
    var n := |ps| - 1;
    if g == n {
      assert ps[g := p][..n] == ps[..n];
    } else {
      PumpsWorkUpdate(ps[..n], g, p);
      assert ps[g := p][..n] == ps[..n][g := p];
    }
  }

  lemma {:induction false} ReadersWorkUpdate(rs: seq<Inlet>, g: nat, r: Inlet)
    requires g < |rs|
    ensures ReadersWork(rs[g := r]) + ReaderWork(rs[g]) == ReadersWork(rs) + ReaderWork(r)
  {
    hide ReaderWork;
    var n := |rs| - 1;
    if g == n {
      assert rs[g := r][..n] == rs[..n];
    } else {
      ReadersWorkUpdate(rs[..n], g, r);
      assert rs[g := r][..n] == rs[..n][g := r];
    }
  }

  lemma PumpWorks(p: Pump, e: PumpEvent, mem: map<nat, string>)
    requires PumpStep(p, e, mem).Some?
    ensures PumpWork(PumpStep(p, e, mem).value.0) < PumpWork(p)
  {
  }

  lemma ReaderWorks(i: Inlet, e: ReadEvent)
    requires InletStep(i, e).Some? && !e.ReadOk?
    ensures ReaderWork(InletStep(i, e).value.0) < ReaderWork(i)
  {
  }

  /** A step of a goroutine or a failing read: no message arrives and the pool is left alone. */
  predicate NothingArrives(e: Event) {
    !e.Abort? && !e.PoolDrop? && (e.ClientReads? || e.BackendReads? ==> !e.r.ReadOk?)
  }

  lemma SideWorks(b: Bridge, e: Event)
    requires SideStep(b, e).Some? && NothingArrives(e)
    ensures Work(SideStep(b, e).value.b) < Work(b) && SideStep(b, e).value.b.main == b.main
  {
    hide PumpWork, ReaderWork, PumpStep, InletStep, PumpsWork, ReadersWork;
    match e
    case ClientWrites(p) =>
      PumpWorks(b.clientPump, p, b.heap.mem);
    case BackendWrites(g, p) =>
      PumpWorks(b.pumps[g], p, b.heap.mem);
      PumpsWorkUpdate(b.pumps, g, PumpStep(b.pumps[g], p, b.heap.mem).value.0);
    case ClientReads(r) =>
      ReaderWorks(b.client, r);
    case BackendReads(g, r) =>
      ReaderWorks(b.readers[g], r);
      ReadersWorkUpdate(b.readers, g, InletStep(b.readers[g], r).value.0);
  }

  lemma DrainWorks(b: Bridge)
    requires b.main.Closed? && SwapStep(b, ShutDrain).Some?
    ensures Work(SwapStep(b, ShutDrain).value.b) < Work(b) && SwapStep(b, ShutDrain).value.b.main == b.main
  {
    hide ReaderWork, PumpsWork, ReadersWork;
    PumpsWorkUpdate(b.pumps, |b.pumps| - 1, Dequeued(Last(b.pumps)));
  }

  lemma ClosedWorks(payload: Payload, b: Bridge, e: Event, b': Bridge)
    requires b.main.Closed? && Next(payload, b, e) == Some(b') && NothingArrives(e)
    ensures Work(b') < Work(b) && b'.main.Closed?
  {
    if e == ShutDrain {
      DrainWorks(b);
    } else {
      hide PumpsWork, ReadersWork, PumpWork, ReaderWork, PumpStep, InletStep;
      SideWorks(b, e);
    }
  }

  /** Once the bridge is closed and no message arrives, only boundedly many steps remain. */
  lemma {:induction false} ShutdownEnds(payload: Payload, states: seq<Bridge>, events: seq<Event>, i: nat, j: nat)
    requires Run(payload, states, events) && i <= j < |states| && states[i].main.Closed?
    requires forall k :: i <= k < j ==> NothingArrives(events[k])
    ensures states[j].main.Closed? && j - i + Work(states[j]) <= Work(states[i])
  {
    hide Next, Work, NothingArrives;
    if i < j {
      ShutdownEnds(payload, states, events, i, j - 1);
      ClosedWorks(payload, states[j - 1], events[j - 1], states[j]);
    }
  }
}
