/** Buffer ownership in the bridge: nothing is released twice, written after release, or overwritten while live. */
module BridgeBuffers {
  import opened Basics
  import opened BridgeParts
  import opened WebSocketBridge

  ghost function PumpsLive(ps: seq<Pump>): multiset<Msg> {
    if ps == [] then multiset{} else PumpsLive(ps[..|ps| - 1]) + PumpLive(ps[|ps| - 1])
  }

  ghost function ReadersLive(rs: seq<Inlet>): multiset<Msg> {
    if rs == [] then multiset{} else ReadersLive(rs[..|rs| - 1]) + InletLive(rs[|rs| - 1])
  }

  ghost function MainLive(main: Main): multiset<Msg> {
    if main.ToBackend? || main.ToClient? then multiset{main.m} else multiset{}
  }

  /** All messages that hold a buffer, within anybody's reach or not. */
  ghost function Live(b: Bridge): multiset<Msg> {
    PumpsLive(b.pumps) + ReadersLive(b.readers) + InletLive(b.client) + PumpLive(b.clientPump) + MainLive(b.main)
  }

  lemma {:induction false} PumpsUpdate(ps: seq<Pump>, g: nat, p: Pump, m: Msg)
    requires g < |ps|
    ensures PumpsLive(ps[g := p])[m] + PumpLive(ps[g])[m] == PumpsLive(ps)[m] + PumpLive(p)[m]
  {
    hide PumpLive;
    var n := |ps| - 1;
    if g == n {
      assert ps[g := p][..n] == ps[..n];
    } else {
      PumpsUpdate(ps[..n], g, p, m);
      assert ps[g := p][..n] == ps[..n][g := p];
    }
  }

  lemma {:induction false} ReadersUpdate(rs: seq<Inlet>, g: nat, r: Inlet, m: Msg)
    requires g < |rs|
    ensures ReadersLive(rs[g := r])[m] + InletLive(rs[g])[m] == ReadersLive(rs)[m] + InletLive(r)[m]
  {
    hide InletLive;
    var n := |rs| - 1;
    if g == n {
      assert rs[g := r][..n] == rs[..n];
    } else {
      ReadersUpdate(rs[..n], g, r, m);
      assert rs[g := r][..n] == rs[..n][g := r];
    }
  }

  lemma PumpsAppend(ps: seq<Pump>)
    ensures PumpsLive(ps + [NEW_PUMP]) == PumpsLive(ps)
  {
    assert (ps + [NEW_PUMP])[..|ps|] == ps;
    assert PumpLive(NEW_PUMP) == multiset{};
  }

  lemma ReadersAppend(rs: seq<Inlet>, src: Source)
    ensures ReadersLive(rs + [NewInlet(src)]) == ReadersLive(rs)
  {
    assert (rs + [NewInlet(src)])[..|rs|] == rs;
    assert InletLive(NewInlet(src)) == multiset{};
  }

  ghost function Is(x: Msg, m: Msg): nat {
    if x == m then 1 else 0
  }

  ghost function Held(main: Main, m: Msg): nat {
    if main.ToBackend? || main.ToClient? then Is(main.m, m) else 0
  }

  /** How often `m` is live. */
  ghost function Copies(b: Bridge, m: Msg): nat {
    PumpsLive(b.pumps)[m] + ReadersLive(b.readers)[m] + InletLive(b.client)[m] + PumpLive(b.clientPump)[m]
      + Held(b.main, m)
  }

  ghost function Once(o: Option<Msg>, m: Msg): nat {
    if o.Some? then Is(o.value, m) else 0
  }

  /** Messages move between places; only reading adds one, only releasing and dropping remove one. */
  ghost predicate Accounted(b: Bridge, o: Out, m: Msg) {
    Copies(b, m) + Once(o.got, m) == Copies(o.b, m) + Once(o.freed, m) + Once(o.leaked, m)
  }

  lemma SideAccounted(b: Bridge, e: Event, m: Msg)
    requires SideStep(b, e).Some?
    ensures Accounted(b, SideStep(b, e).value, m)
  {
    hide PumpLive, InletLive, PumpsLive, ReadersLive, PumpStep, InletStep, Is;
    match e
    case ClientWrites(p) =>
      PumpCount(b.clientPump, p, b.heap.mem, m);
    case BackendWrites(g, p) =>
      PumpCount(b.pumps[g], p, b.heap.mem, m);
      PumpsUpdate(b.pumps, g, PumpStep(b.pumps[g], p, b.heap.mem).value.0, m);
    case ClientReads(r) =>
      InletCount(b.client, r, m);
    case BackendReads(g, r) =>
      InletCount(b.readers[g], r, m);
      ReadersUpdate(b.readers, g, InletStep(b.readers[g], r).value.0, m);
  }

  lemma PumpCount(p: Pump, e: PumpEvent, mem: map<nat, string>, m: Msg)
    requires PumpStep(p, e, mem).Some?
    ensures var (p', freed) := PumpStep(p, e, mem).value;
            PumpLive(p)[m] == PumpLive(p')[m] + Once(freed, m)
  {
    hide PumpLive, PumpStep;
    PumpStepLive(p, e, mem);
  }

  lemma InletCount(i: Inlet, e: ReadEvent, m: Msg)
    requires InletStep(i, e).Some?
    ensures var (i', got, freed) := InletStep(i, e).value;
            InletLive(i)[m] + Once(got, m) == InletLive(i')[m] + Once(freed, m)
  {
    hide InletLive, InletStep;
    InletStepLive(i, e);
    var (i', got, freed) := InletStep(i, e).value;
    assert (InletLive(i) + One(got))[m] == (InletLive(i') + One(freed))[m];
  }

  lemma QueuedLive(p: Pump, x: Msg, m: Msg)
    ensures PumpLive(Queued(p, x))[m] == PumpLive(p)[m] + Is(x, m)
  {
  }

  lemma DequeuedLive(p: Pump, m: Msg)
    requires p.queue != []
    ensures PumpLive(p)[m] == PumpLive(Dequeued(p))[m] + Is(p.queue[0], m)
  {
    HeadTail(p.queue);
  }

  lemma ReceivedLive(i: Inlet, m: Msg)
    requires i.ch != []
    ensures InletLive(i)[m] == InletLive(Received(i))[m] + Is(i.ch[0], m)
  {
    HeadTail(i.ch);
  }

  /** Flags do not hold messages. */
  lemma FlagsLive(p: Pump, i: Inlet)
    ensures PumpLive(p.(done := true)) == PumpLive(p) && PumpLive(p.(err := false)) == PumpLive(p)
    ensures InletLive(i.(cancelled := true)) == InletLive(i)
  {
  }

  lemma StopLive(b: Bridge, m: Msg)
    requires b.pumps != [] && b.readers != []
    ensures PumpsLive(StopBackend(b).pumps)[m] == PumpsLive(b.pumps)[m]
    ensures ReadersLive(StopBackend(b).readers)[m] == ReadersLive(b.readers)[m]
    ensures PumpsLive(ErrTaken(b).pumps)[m] == PumpsLive(b.pumps)[m]
  {
    hide PumpLive, InletLive, PumpsLive, ReadersLive;
    var p, r := Last(b.pumps), Last(b.readers);
    FlagsLive(p, r);
    PumpsUpdate(b.pumps, |b.pumps| - 1, p.(done := true), m);
    PumpsUpdate(b.pumps, |b.pumps| - 1, p.(err := false), m);
    ReadersUpdate(b.readers, |b.readers| - 1, r.(cancelled := true), m);
  }

  lemma SwapOrCloseLive(b: Bridge, swap: bool, m: Msg)
    requires b.pumps != [] && b.readers != []
    ensures Copies(SwapOrClose(b, swap), m) + Held(b.main, m) == Copies(b, m)
    ensures Copies(SwapOrClose(ErrTaken(b), swap), m) + Held(b.main, m) == Copies(b, m)
  {
    hide PumpLive, InletLive, PumpsLive, ReadersLive;
    StopLive(b, m);
    StopLive(ErrTaken(b), m);
  }

  lemma ReceivedCount(rs: seq<Inlet>, m: Msg)
    requires rs != [] && Last(rs).ch != []
    ensures ReadersLive(rs)[m] == ReadersLive(WithLast(rs, Received(Last(rs))))[m] + Is(Last(rs).ch[0], m)
  {
    hide InletLive, ReadersLive, Received;
    ReceivedLive(Last(rs), m);
    ReadersUpdate(rs, |rs| - 1, Received(Last(rs)), m);
  }

  lemma QueuedCount(ps: seq<Pump>, x: Msg, m: Msg)
    requires ps != []
    ensures PumpsLive(WithLast(ps, Queued(Last(ps), x)))[m] == PumpsLive(ps)[m] + Is(x, m)
  {
    hide PumpLive, PumpsLive, Queued;
    QueuedLive(Last(ps), x, m);
    PumpsUpdate(ps, |ps| - 1, Queued(Last(ps), x), m);
  }

  lemma DequeuedCount(ps: seq<Pump>, m: Msg)
    requires ps != [] && Last(ps).queue != []
    ensures PumpsLive(ps)[m] == PumpsLive(WithLast(ps, Dequeued(Last(ps))))[m] + Is(Last(ps).queue[0], m)
  {
    hide PumpLive, PumpsLive, Dequeued;
    DequeuedLive(Last(ps), m);
    PumpsUpdate(ps, |ps| - 1, Dequeued(Last(ps)), m);
  }

  lemma RelayAccounted(b: Bridge, e: Event, m: Msg)
    requires RelayStep(b, e).Some?
    ensures Accounted(b, RelayStep(b, e).value, m)
  {
    hide PumpLive, InletLive, PumpsLive, ReadersLive, Received, Queued, SwapOrClose, ErrTaken, Last, WithLast, Is;
    match e
    case TakeClient =>
      ReceivedLive(b.client, m);
    case SendBackend =>
      QueuedCount(b.pumps, b.main.m, m);
    case SendBackendFails(swap) =>
      SwapOrCloseLive(b, swap, m);
    case TakeBackend =>
      ReceivedCount(b.readers, m);
    case SendClient =>
      QueuedLive(b.clientPump, b.main.m, m);
    case BackendEnded(swap) =>
      SwapOrCloseLive(b, swap, m);
    case BackendWriteErr(swap) =>
      SwapOrCloseLive(b, swap, m);
    case SwapRequested =>
      StopLive(b, m);
      if Last(b.readers).ch != [] {
        ReceivedCount(b.readers, m);
        StopLive(b.(readers := WithLast(b.readers, Received(Last(b.readers)))), m);
      }
    case _ =>
  }

  lemma SwapAccounted(b: Bridge, e: Event, m: Msg)
    requires SwapStep(b, e).Some?
    ensures Accounted(b, SwapStep(b, e).value, m)
  {
    hide PumpLive, InletLive, PumpsLive, ReadersLive, Received, Queued, Dequeued, Last, WithLast, Is;
    match e
    case DrainOne =>
      DequeuedCount(b.pumps, m);
    case Dialed(ok) =>
      PumpsAppend(b.pumps);
    case ForwardOne =>
      if b.client.ch != [] {
        ReceivedLive(b.client, m);
        QueuedCount(b.pumps, b.client.ch[0], m);
      }
    case ForwardDone =>
      ReadersAppend(b.readers, Backend(|b.readers|));
    case Shut =>
      StopLive(b, m);
      FlagsLive(b.clientPump, b.client);
    case ShutDrain =>
      DequeuedCount(b.pumps, m);
    case _ =>
  }

  lemma MoveAccounted(b: Bridge, e: Event, m: Msg)
    requires Move(b, e).Some?
    ensures Accounted(b, Move(b, e).value, m)
  {
    hide Accounted, SideStep, RelayStep, SwapStep;
    match e
    case ClientWrites(_) => SideAccounted(b, e, m);
    case BackendWrites(_, _) => SideAccounted(b, e, m);
    case ClientReads(_) => SideAccounted(b, e, m);
    case BackendReads(_, _) => SideAccounted(b, e, m);
    case DrainOne => SwapAccounted(b, e, m);
    case Dialed(_) => SwapAccounted(b, e, m);
    case ForwardOne => SwapAccounted(b, e, m);
    case ForwardDone => SwapAccounted(b, e, m);
    case Shut => SwapAccounted(b, e, m);
    case ShutDrain => SwapAccounted(b, e, m);
    case _ => RelayAccounted(b, e, m);
  }

  lemma LiveCount(b: Bridge, m: Msg)
    ensures Live(b)[m] == Copies(b, m)
  {
    hide PumpLive, InletLive, PumpsLive, ReadersLive;
  }

  lemma ConservedAt(b: Bridge, o: Out, m: Msg)
    requires Accounted(b, o, m)
    ensures (Live(b) + One(o.got))[m] == (Live(o.b) + One(o.freed) + One(o.leaked))[m]
  {
    hide Live, Copies;
    LiveCount(b, m);
    LiveCount(o.b, m);
  }

  /** The multiset form of the account. */
  lemma Conserved(b: Bridge, e: Event)
    requires Move(b, e).Some?
    ensures var o := Move(b, e).value;
            Live(b) + One(o.got) == Live(o.b) + One(o.freed) + One(o.leaked)
  {
    hide Move, Live, One, Accounted;
    var o := Move(b, e).value;
    forall m: Msg
      ensures (Live(b) + One(o.got))[m] == (Live(o.b) + One(o.freed) + One(o.leaked))[m]
    {
      MoveAccounted(b, e, m);
      ConservedAt(b, o, m);
    }
  }

  /** A step that reads releases nothing. */
  lemma GotOrFreed(b: Bridge, e: Event)
    requires Move(b, e).Some?
    ensures Move(b, e).value.got.Some? ==> Move(b, e).value.freed.None?
    ensures !e.Abort? && !e.PoolDrop?
  {
    hide PumpStep;
  }

  /** The step keeps ownership, and what it releases was not in the pool. */
  lemma OwnsStep(payload: Payload, b: Bridge, e: Event, b': Bridge)
    requires Owns(b.heap, Live(b), payload) && Next(payload, b, e) == Some(b')
    ensures Owns(b'.heap, Live(b'), payload)
    ensures Move(b, e).Some? && Move(b, e).value.freed.Some? ==> Move(b, e).value.freed.value.buf !in b.heap.pool
  {
    hide Owns, Move, PumpsLive, ReadersLive, PumpLive, InletLive;
    if Move(b, e).Some? {
      GotOrFreed(b, e);
    }
    if e.Abort? {
      OwnsAbort(b.heap, Live(b), payload, e.buf, e.junk);
    } else if e.PoolDrop? {
      OwnsPoolDrop(b.heap, Live(b), payload, e.buf);
    } else {
      var o := Move(b, e).value;
      Conserved(b, e);
      OwnsOut(payload, b, o, b');
    }
  }

  /** The buffers after a step has read a message, if it has. */
  function Filled(payload: Payload, h: Heap, got: Option<Msg>): Heap {
    if got.Some? then Get(h, got.value.buf, payload(got.value.src, got.value.n)) else h
  }

  lemma OwnsOut(payload: Payload, b: Bridge, o: Out, b': Bridge)
    requires Owns(b.heap, Live(b), payload) && Live(b) + One(o.got) == Live(o.b) + One(o.freed) + One(o.leaked)
    requires o.got.Some? ==> CanGet(b.heap, o.got.value.buf) && o.freed.None?
    requires b' == o.b.(heap := Free(Filled(payload, b.heap, o.got), o.freed))
    ensures Owns(b'.heap, Live(b'), payload)
    ensures o.freed.Some? ==> o.freed.value.buf !in b.heap.pool
  {
    hide Owns;
    var h := Filled(payload, b.heap, o.got);
    var live := Live(o.b);
    assert Live(b') == live;
    hide Live;
    if o.got.Some? {
      OwnsGet(b.heap, Live(b), payload, o.got.value);
    } else {
      NoneLive(Live(b));
    }
    assert Owns(h, live + One(o.freed) + One(o.leaked), payload);
    OwnsLess(h, live + One(o.freed), payload, One(o.leaked));
    OwnsFree(h, live, payload, o.freed);
  }
}
