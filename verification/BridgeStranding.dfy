/**
 * Messages nobody will ever take again: those in the channel of a replaced backend reader, in the channels a
 * closing loop leaves behind, and in the queue of a client pump that has stopped. Their buffers never return.
 */
module BridgeStranding {
  import opened Basics
  import opened BridgeParts
  import opened WebSocketBridge
  import opened BridgeBuffers

  ghost function Channels(rs: seq<Inlet>): multiset<Msg> {
    if rs == [] then multiset{} else Channels(rs[..|rs| - 1]) + multiset(rs[|rs| - 1].ch)
  }

  /** The loop receives from the last backend reader no more. */
  predicate LeftBackend(main: Main) {
    main.Draining? || main.Forwarding? || main.Closing? || main.Closed?
  }

  /** The loop receives from nobody any more. */
  predicate LeftLoop(main: Main) {
    main.Closing? || main.Closed?
  }

  ghost function Abandoned(b: Bridge): multiset<Msg>
    requires b.readers != []
  {
    Channels(b.readers[..|b.readers| - 1])
    + (if LeftBackend(b.main) then multiset(Last(b.readers).ch) else multiset{})
    + (if LeftLoop(b.main) then multiset(b.client.ch) else multiset{})
    + (if b.clientPump.mode.Stopped? then multiset(b.clientPump.queue) else multiset{})
  }

  /** The loop no longer receives from backend reader `g`. */
  predicate Replaced(b: Bridge, g: nat) {
    g + 1 < |b.readers| || LeftBackend(b.main)
  }

  /** What an enabled step strands, told from the state before it. */
  ghost function StrandedBy(b: Bridge, e: Event): multiset<Msg>
    requires b.readers != [] && b.pumps != []
  {
    match e
    case SendBackendFails(swap) => LeavingStrands(b, swap)
    case BackendWriteErr(swap) => LeavingStrands(b, swap)
    case BackendEnded(swap) => LeavingStrands(b, swap)
    case SwapRequested => LeavingStrands(b, true)
    case ClientEnded => LeavingStrands(b, false)
    case ClientWriteErr => LeavingStrands(b, false)
    case SendClientFails => LeavingStrands(b, false)
    case Dialed(ok) => if ok then multiset{} else multiset(b.client.ch)
    case ForwardOne => if b.client.ch != [] && |Last(b.pumps).queue| >= QUEUE then multiset(b.client.ch[1..])
      else multiset{}
    case SendClient => if b.main.ToClient? && b.clientPump.mode.Stopped? then multiset{b.main.m} else multiset{}
    case ClientWrites(p) =>
      if (p.EndBatch? && b.clientPump.mode.Failing?) || p.Quit? then multiset(b.clientPump.queue) else multiset{}
    case ClientReads(r) =>
      if r.Push? && b.client.hand.Holding? && LeftLoop(b.main) then multiset{b.client.hand.m} else multiset{}
    case BackendReads(g, r) =>
      if r.Push? && g < |b.readers| && b.readers[g].hand.Holding? && Replaced(b, g)
      then multiset{b.readers[g].hand.m} else multiset{}
    case _ => multiset{}
  }

  /** Giving a backend connection up strands what waits in its channel; closing also what the client sent last. */
  ghost function LeavingStrands(b: Bridge, swap: bool): multiset<Msg>
    requires b.readers != []
  {
    multiset(Last(b.readers).ch) + if swap then multiset{} else multiset(b.client.ch)
  }

  lemma {:induction false} ChannelsUpdate(rs: seq<Inlet>, g: nat, r: Inlet, m: Msg)
    requires g < |rs|
    ensures Channels(rs[g := r])[m] + multiset(rs[g].ch)[m] == Channels(rs)[m] + multiset(r.ch)[m]
  {
    var n := |rs| - 1;
    if g == n {
      assert rs[g := r][..n] == rs[..n];
    } else {
      ChannelsUpdate(rs[..n], g, r, m);
      assert rs[g := r][..n] == rs[..n][g := r];
    }
  }

  // -- The account of one step, message by message -----------------------------------------------------

  ghost function In(s: seq<Msg>, m: Msg): nat {
    multiset(s)[m]
  }

  /** How often `m` waits in the channels of replaced readers. */
  ghost function InOld(rs: seq<Inlet>, m: Msg): nat
    requires rs != []
  {
    Channels(rs[..|rs| - 1])[m]
  }

  ghost function AbandonedOf(b: Bridge, m: Msg): nat
    requires b.readers != []
  {
    InOld(b.readers, m)
    + (if LeftBackend(b.main) then In(Last(b.readers).ch, m) else 0)
    + (if LeftLoop(b.main) then In(b.client.ch, m) else 0)
    + (if b.clientPump.mode.Stopped? then In(b.clientPump.queue, m) else 0)
  }

  lemma AbandonedIs(b: Bridge, m: Msg)
    requires b.readers != []
    ensures Abandoned(b)[m] == AbandonedOf(b, m)
  {
    hide Channels, LeftBackend, LeftLoop;
  }

  ghost function LeavingOf(b: Bridge, swap: bool, m: Msg): nat
    requires b.readers != []
  {
    In(Last(b.readers).ch, m) + if swap then 0 else In(b.client.ch, m)
  }

  ghost function StrandedOf(b: Bridge, e: Event, m: Msg): nat
    requires b.readers != [] && b.pumps != []
  {
    match e
    case SendBackendFails(swap) => LeavingOf(b, swap, m)
    case BackendWriteErr(swap) => LeavingOf(b, swap, m)
    case BackendEnded(swap) => LeavingOf(b, swap, m)
    case SwapRequested => LeavingOf(b, true, m)
    case ClientEnded => LeavingOf(b, false, m)
    case ClientWriteErr => LeavingOf(b, false, m)
    case SendClientFails => LeavingOf(b, false, m)
    case Dialed(ok) => if ok then 0 else In(b.client.ch, m)
    case ForwardOne => if b.client.ch != [] && |Last(b.pumps).queue| >= QUEUE then In(b.client.ch[1..], m) else 0
    case SendClient => if b.main.ToClient? && b.clientPump.mode.Stopped? then Is(b.main.m, m) else 0
    case ClientWrites(p) =>
      if (p.EndBatch? && b.clientPump.mode.Failing?) || p.Quit? then In(b.clientPump.queue, m) else 0
    case ClientReads(r) => if r.Push? && b.client.hand.Holding? && LeftLoop(b.main) then Is(b.client.hand.m, m) else 0
    case BackendReads(g, r) =>
      if r.Push? && g < |b.readers| && b.readers[g].hand.Holding? && Replaced(b, g) then Is(b.readers[g].hand.m, m)
        else 0
    case _ => 0
  }

  lemma StrandedIs(b: Bridge, e: Event, m: Msg)
    requires b.readers != [] && b.pumps != []
    ensures StrandedBy(b, e)[m] == StrandedOf(b, e, m)
  {
    hide LeftBackend, LeftLoop;
  }

  ghost predicate Settles(b: Bridge, o: Out, stranded: nat, m: Msg)
    requires b.readers != [] && o.b.readers != []
  {
    AbandonedOf(o.b, m) + Once(o.leaked, m) == AbandonedOf(b, m) + stranded
  }

  lemma PumpQueueStep(p: Pump, e: PumpEvent, mem: map<nat, string>)
    requires PumpStep(p, e, mem).Some?
    ensures !p.mode.Stopped?
    ensures var p' := PumpStep(p, e, mem).value.0;
            p'.mode.Stopped? ==> p'.queue == p.queue
    ensures var p' := PumpStep(p, e, mem).value.0;
            p'.mode.Stopped? <==> (e.EndBatch? && p.mode.Failing?) || e.Quit?
  {
  }

  lemma InletChannelStep(i: Inlet, e: ReadEvent, m: Msg)
    requires InletStep(i, e).Some?
    ensures e.Push? ==> i.hand.Holding? && In(InletStep(i, e).value.0.ch, m) == In(i.ch, m) + Is(i.hand.m, m)
    ensures !e.Push? ==> InletStep(i, e).value.0.ch == i.ch
  {
  }

  lemma ClientWritesSettles(b: Bridge, p: PumpEvent, m: Msg)
    requires b.readers != [] && b.pumps != [] && SideStep(b, ClientWrites(p)).Some?
    ensures Settles(b, SideStep(b, ClientWrites(p)).value, StrandedOf(b, ClientWrites(p), m), m)
  {
    hide InOld, In, PumpStep, LeftBackend, LeftLoop;
    PumpQueueStep(b.clientPump, p, b.heap.mem);
  }

  lemma ClientReadsSettles(b: Bridge, r: ReadEvent, m: Msg)
    requires b.readers != [] && b.pumps != [] && SideStep(b, ClientReads(r)).Some?
    ensures Settles(b, SideStep(b, ClientReads(r)).value, StrandedOf(b, ClientReads(r), m), m)
  {
    hide InOld, In, InletStep, LeftBackend, LeftLoop, Is;
    InletChannelStep(b.client, r, m);
  }

  lemma BackendReadsSettles(b: Bridge, g: nat, r: ReadEvent, m: Msg)
    requires b.readers != [] && b.pumps != [] && SideStep(b, BackendReads(g, r)).Some?
    ensures Settles(b, SideStep(b, BackendReads(g, r)).value, StrandedOf(b, BackendReads(g, r), m), m)
  {
    hide InOld, In, InletStep, LeftBackend, LeftLoop, Is;
    InletChannelStep(b.readers[g], r, m);
    OldUpdate(b.readers, g, InletStep(b.readers[g], r).value.0, m);
  }

  /** How a reader's step changes what waits in the channels of replaced readers. */
  lemma OldUpdate(rs: seq<Inlet>, g: nat, r: Inlet, m: Msg)
    requires g < |rs|
    ensures if g == |rs| - 1 then InOld(rs[g := r], m) == InOld(rs, m)
            else InOld(rs[g := r], m) + In(rs[g].ch, m) == InOld(rs, m) + In(r.ch, m)
  {
    hide Channels;
    var n := |rs| - 1;
    if g == n {
      assert rs[g := r][..n] == rs[..n];
    } else {
      ChannelsUpdate(rs[..n], g, r, m);
      assert rs[g := r][..n] == rs[..n][g := r];
    }
  }

  lemma OldAppend(rs: seq<Inlet>, r: Inlet, m: Msg)
    requires rs != []
    ensures InOld(rs + [r], m) == InOld(rs, m) + In(Last(rs).ch, m)
  {
    assert (rs + [r])[..|rs|] == rs;
  }

  lemma HeadIn(s: seq<Msg>, m: Msg)
    requires s != []
    ensures In(s, m) == Is(s[0], m) + In(s[1..], m)
  {
    HeadTail(s);
  }

  lemma QueuedIn(s: seq<Msg>, x: Msg, m: Msg)
    ensures In(s + [x], m) == In(s, m) + Is(x, m)
  {
  }

  /** The loop gives its backend up for a swap, or everything to close. */
  lemma LeaveSettles(b: Bridge, swap: bool, m: Msg)
    requires b.readers != [] && b.pumps != [] && !LeftBackend(b.main)
    ensures SwapOrClose(b, swap).readers != [] && SwapOrClose(ErrTaken(b), swap).readers != []
    ensures AbandonedOf(SwapOrClose(b, swap), m) == AbandonedOf(b, m) + LeavingOf(b, swap, m)
    ensures AbandonedOf(SwapOrClose(ErrTaken(b), swap), m) == AbandonedOf(b, m) + LeavingOf(b, swap, m)
  {
    hide InOld, In;
    OldUpdate(b.readers, |b.readers| - 1, Last(b.readers).(cancelled := true), m);
  }

  /** A swap request first takes one message off the channel, if there is one. */
  lemma RequestSettles(b: Bridge, m: Msg)
    requires b.readers != [] && b.pumps != [] && RelayStep(b, SwapRequested).Some?
    ensures Settles(b, RelayStep(b, SwapRequested).value, LeavingOf(b, true, m), m)
  {
    hide InOld, In, Received, Is;
    var last := Last(b.readers);
    OldUpdate(b.readers, |b.readers| - 1, last.(cancelled := true), m);
    if last.ch != [] {
      HeadIn(last.ch, m);
      var next := Received(last);
      assert next.ch == last.ch[1..] by { ReceivedChannel(last); }
      OldUpdate(b.readers, |b.readers| - 1, next, m);
      OldUpdate(WithLast(b.readers, next), |b.readers| - 1, next.(cancelled := true), m);
    }
  }

  lemma ReceivedChannel(i: Inlet)
    requires i.ch != []
    ensures Received(i).ch == i.ch[1..]
  {
  }

  lemma RelaySettles(b: Bridge, e: Event, m: Msg)
    requires b.readers != [] && b.pumps != [] && RelayStep(b, e).Some?
    ensures RelayStep(b, e).value.b.readers != []
    ensures Settles(b, RelayStep(b, e).value, StrandedOf(b, e, m), m)
  {
    hide InOld, In, Received, Is, AbandonedOf, LeavingOf, SwapOrClose, ErrTaken;
    match e
    case SendBackendFails(swap) =>
      LeaveSettles(b, swap, m);
    case BackendWriteErr(swap) =>
      LeaveSettles(b, swap, m);
    case BackendEnded(swap) =>
      LeaveSettles(b, swap, m);
    case SwapRequested =>
      RequestSettles(b, m);
    case ClientEnded =>
      CloseSettles(b, m);
    case ClientWriteErr =>
      CloseSettles(b, m);
    case SendClientFails =>
      CloseSettles(b, m);
    case SendClient =>
      SendClientSettles(b, m);
    case TakeClient =>
      TakeSettles(b, m);
    case TakeBackend =>
      TakeSettles(b, m);
    case SendBackend =>
      SendBackendSettles(b, m);
  }

  lemma CloseSettles(b: Bridge, m: Msg)
    requires b.readers != [] && !LeftBackend(b.main)
    ensures AbandonedOf(b.(main := Closing), m) == AbandonedOf(b, m) + LeavingOf(b, false, m)
  {
    hide InOld, In;
  }

  lemma SendClientSettles(b: Bridge, m: Msg)
    requires b.readers != [] && b.main.ToClient?
    ensures AbandonedOf(b.(clientPump := Queued(b.clientPump, b.main.m), main := Select,
                           forwarded := b.forwarded + [Tag(b.main.m.src, b.main.m.n)]), m)
            == AbandonedOf(b, m) + if b.clientPump.mode.Stopped? then Is(b.main.m, m) else 0
  {
    hide InOld, In, Is;
    QueuedIn(b.clientPump.queue, b.main.m, m);
  }

  lemma SendBackendSettles(b: Bridge, m: Msg)
    requires b.readers != [] && b.pumps != [] && b.main.ToBackend?
    ensures var b' := b.(pumps := WithLast(b.pumps, Queued(Last(b.pumps), b.main.m)), main := Select);
            AbandonedOf(b', m) == AbandonedOf(b, m)
  {
    hide InOld, In;
  }

  lemma TakeSettles(b: Bridge, m: Msg)
    requires b.readers != [] && b.main.Select?
    ensures b.client.ch != [] ==>
              AbandonedOf(b.(client := Received(b.client), main := ToBackend(b.client.ch[0])), m) == AbandonedOf(b, m)
    ensures Last(b.readers).ch != [] ==>
              AbandonedOf(b.(readers := WithLast(b.readers, Received(Last(b.readers))),
                main := ToClient(Last(b.readers).ch[0])), m)
              == AbandonedOf(b, m)
  {
    hide InOld, In;
    if Last(b.readers).ch != [] {
      OldUpdate(b.readers, |b.readers| - 1, Received(Last(b.readers)), m);
    }
  }

  lemma SwapSettles(b: Bridge, e: Event, m: Msg)
    requires b.readers != [] && b.pumps != [] && SwapStep(b, e).Some?
    ensures SwapStep(b, e).value.b.readers != []
    ensures Settles(b, SwapStep(b, e).value, StrandedOf(b, e, m), m)
  {
    hide InOld, In, Is;
    if e.ForwardDone? {
      OldAppend(b.readers, NewInlet(Backend(|b.readers|)), m);
    } else if e.Shut? {
      OldUpdate(b.readers, |b.readers| - 1, Last(b.readers).(cancelled := true), m);
    } else if e.ForwardOne? {
      assert b.client.ch == [] ==> In(b.client.ch, m) == 0 by { NothingIn(m); }
    }
  }

  lemma NothingIn(m: Msg)
    ensures In([], m) == 0
  {
  }

  // -- The account of one step ---------------------------------------------------------------------------

  lemma MoveSettles(b: Bridge, e: Event, m: Msg)
    requires b.readers != [] && b.pumps != [] && Move(b, e).Some?
    ensures Move(b, e).value.b.readers != []
    ensures Settles(b, Move(b, e).value, StrandedBy(b, e)[m], m)
  {
    hide SideStep, RelayStep, SwapStep, Settles, StrandedBy, StrandedOf;
    StrandedIs(b, e, m);
    ReadersStay(b, e);
    match e
    case ClientWrites(p) => ClientWritesSettles(b, p, m);
    case BackendWrites(_, _) => BackendWritesSettles(b, e, m);
    case ClientReads(r) => ClientReadsSettles(b, r, m);
    case BackendReads(g, r) => BackendReadsSettles(b, g, r, m);
    case DrainOne => SwapSettles(b, e, m);
    case Dialed(_) => SwapSettles(b, e, m);
    case ForwardOne => SwapSettles(b, e, m);
    case ForwardDone => SwapSettles(b, e, m);
    case Shut => SwapSettles(b, e, m);
    case ShutDrain => SwapSettles(b, e, m);
    case _ => RelaySettles(b, e, m);
  }

  lemma BackendWritesSettles(b: Bridge, e: Event, m: Msg)
    requires b.readers != [] && b.pumps != [] && e.BackendWrites? && SideStep(b, e).Some?
    ensures Settles(b, SideStep(b, e).value, StrandedOf(b, e, m), m)
  {
    hide PumpStep, InOld, In;
  }

  lemma ReadersStay(b: Bridge, e: Event)
    requires b.readers != [] && Move(b, e).Some?
    ensures Move(b, e).value.b.readers != []
  {
    hide PumpStep, InletStep;
  }

  /** A step abandons or drops exactly what it strands: nothing abandoned is ever taken again. */
  lemma StrandingStep(b: Bridge, e: Event)
    requires b.readers != [] && b.pumps != [] && Move(b, e).Some?
    ensures Move(b, e).value.b.readers != []
    ensures var o := Move(b, e).value;
            Abandoned(o.b) + One(o.leaked) == Abandoned(b) + StrandedBy(b, e)
  {
    hide Move, Abandoned, StrandedBy, One, AbandonedOf;
    var o := Move(b, e).value;
    ReadersStay(b, e);
    forall m: Msg ensures (Abandoned(o.b) + One(o.leaked))[m] == (Abandoned(b) + StrandedBy(b, e))[m] {
      MoveSettles(b, e, m);
      AbandonedIs(b, m);
      AbandonedIs(o.b, m);
      OnceIs(o.leaked, m);
    }
  }

  lemma OnceIs(o: Option<Msg>, m: Msg)
    ensures One(o)[m] == Once(o, m)
  {
  }
}
