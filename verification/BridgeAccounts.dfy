/** Where every buffer of a run goes: back to the pool once, unless it is stranded, and exactly when that happens. */
module BridgeAccounts {
  import opened Basics
  import opened BridgeParts
  import opened WebSocketBridge
  import opened BridgeBuffers
  import opened BridgeOrder
  import opened BridgeDelivery
  import opened BridgeStranding
  import opened BridgeTheorems

  // -- Conservation over a run ---------------------------------------------------------------------------

  ghost function Moved(b: Bridge, e: Event): Out {
    if Move(b, e).Some? then Move(b, e).value else Out(b, None, None, None)
  }

  /** The messages read, released and dropped in the first `i` steps. */
  ghost function Read(states: seq<Bridge>, events: seq<Event>, i: nat): multiset<Msg>
    requires i <= |events| <= |states|
  {
    if i == 0 then multiset{} else Read(states, events, i - 1) + One(Moved(states[i - 1], events[i - 1]).got)
  }

  ghost function Released(states: seq<Bridge>, events: seq<Event>, i: nat): multiset<Msg>
    requires i <= |events| <= |states|
  {
    if i == 0 then multiset{} else Released(states, events, i - 1) + One(Moved(states[i - 1], events[i - 1]).freed)
  }

  ghost function Dropped(states: seq<Bridge>, events: seq<Event>, i: nat): multiset<Msg>
    requires i <= |events| <= |states|
  {
    if i == 0 then multiset{} else Dropped(states, events, i - 1) + One(Moved(states[i - 1], events[i - 1]).leaked)
  }

  lemma LiveMoved(payload: Payload, b: Bridge, e: Event, b': Bridge)
    requires Next(payload, b, e) == Some(b')
    ensures var o := Moved(b, e);
            Live(b) + One(o.got) == Live(b') + One(o.freed) + One(o.leaked)
  {
    hide PumpsLive, ReadersLive, PumpLive, InletLive, Move;
    if Move(b, e).Some? {
      Conserved(b, e);
      GotOrFreed(b, e);
      assert Live(b') == Live(Moved(b, e).b);
    } else {
      assert Live(b') == Live(b);
    }
  }

  lemma Chain(live: multiset<Msg>, read: multiset<Msg>, gone: multiset<Msg>, dropped: multiset<Msg>,
              live': multiset<Msg>, got: multiset<Msg>, freed: multiset<Msg>, leaked: multiset<Msg>)
    requires read == live + gone + dropped && live + got == live' + freed + leaked
    ensures read + got == live' + (gone + freed) + (dropped + leaked)
  {
    assert read + got == (live + got) + gone + dropped;
  }

  lemma {:induction false} LiveConserved(payload: Payload, states: seq<Bridge>, events: seq<Event>, i: nat)
    requires Run(payload, states, events) && i < |states|
    ensures Read(states, events, i) == Live(states[i]) + Released(states, events, i) + Dropped(states, events, i)
  {
    hide Next, Live, Moved, One;
    if i == 0 {
      assert Live(START) == multiset{} by { NothingAtStart(); }
    } else {
      LiveConserved(payload, states, events, i - 1);
      LiveMoved(payload, states[i - 1], events[i - 1], states[i]);
      var o := Moved(states[i - 1], events[i - 1]);
      Chain(Live(states[i - 1]), Read(states, events, i - 1), Released(states, events, i - 1),
            Dropped(states, events, i - 1), Live(states[i]), One(o.got), One(o.freed), One(o.leaked));
    }
  }

  lemma Manned(payload: Payload, states: seq<Bridge>, events: seq<Event>, i: nat)
    requires Run(payload, states, events) && i < |states|
    ensures states[i].readers != [] && states[i].pumps != []
  {
    hide Next, Owns, Truthful, Run;
    InvReached(payload, states, events, i);
  }

  // -- What stays reachable ----------------------------------------------------------------------------

  lemma {:induction false} ChannelsWithin(rs: seq<Inlet>)
    ensures Channels(rs) <= ReadersLive(rs)
  {
    if rs != [] {
      ChannelsWithin(rs[..|rs| - 1]);
    }
  }

  lemma AbandonedWithin(b: Bridge)
    requires b.readers != []
    ensures Abandoned(b) <= Live(b)
  {
    hide PumpsLive, Channels, ReadersLive;
    var rs := b.readers;
    ChannelsWithin(rs[..|rs| - 1]);
    assert ReadersLive(rs) == ReadersLive(rs[..|rs| - 1]) + InletLive(Last(rs)) by { ReadersSplit(rs); }
  }

  lemma ReadersSplit(rs: seq<Inlet>)
    requires rs != []
    ensures ReadersLive(rs) == ReadersLive(rs[..|rs| - 1]) + InletLive(Last(rs))
  {
    hide InletLive;
  }

  /** Live messages that some goroutine may still take, write or release. */
  ghost function Reachable(b: Bridge): multiset<Msg>
    requires b.readers != []
  {
    Live(b) - Abandoned(b)
  }

  /** Every message read is still within reach, was released, was dropped by a swap request, or is abandoned. */
  lemma BuffersConserved(payload: Payload, states: seq<Bridge>, events: seq<Event>, i: nat)
    requires Run(payload, states, events) && i < |states|
    ensures states[i].readers != []
    ensures Read(states, events, i) ==
            Reachable(states[i]) + Released(states, events, i) + Dropped(states, events, i) + Abandoned(states[i])
  {
    hide Run, Live, Abandoned;
    Manned(payload, states, events, i);
    LiveConserved(payload, states, events, i);
    AbandonedWithin(states[i]);
  }

  // -- Stranding over a run ------------------------------------------------------------------------------

  ghost function StrandedAt(b: Bridge, e: Event): multiset<Msg> {
    if b.readers != [] && b.pumps != [] && Move(b, e).Some? then StrandedBy(b, e) else multiset{}
  }

  lemma StrandedStep(payload: Payload, b: Bridge, e: Event, b': Bridge)
    requires b.readers != [] && b.pumps != [] && Next(payload, b, e) == Some(b')
    ensures b'.readers != []
    ensures Abandoned(b') + One(Moved(b, e).leaked) == Abandoned(b) + StrandedAt(b, e)
  {
    hide Move, Abandoned, StrandedBy;
    if Move(b, e).Some? {
      StrandingStep(b, e);
      GotOrFreed(b, e);
      SameAbandoned(Moved(b, e).b, b');
    } else {
      SameAbandoned(b, b');
    }
  }

  lemma SameAbandoned(b: Bridge, b': Bridge)
    requires b.readers != [] && b' == b.(heap := b'.heap)
    ensures Abandoned(b') == Abandoned(b)
  {
    hide Channels;
  }

  /** A dropped message is one of those the step strands. */
  lemma DroppedIsStranded(b: Bridge, e: Event)
    ensures One(Moved(b, e).leaked) <= StrandedAt(b, e)
  {
    hide PumpStep, InletStep;
    if Moved(b, e).leaked.Some? {
      LeakOnRequest(b, e);
      HeadTail(Last(b.readers).ch);
    }
  }

  lemma LeakOnRequest(b: Bridge, e: Event)
    requires Move(b, e).Some? && Move(b, e).value.leaked.Some?
    ensures e.SwapRequested? && b.readers != [] && b.pumps != [] && Last(b.readers).ch != []
    ensures Move(b, e).value.leaked.value == Last(b.readers).ch[0]
  {
    hide PumpStep, InletStep;
  }

  /** What is abandoned stays abandoned: no later step takes, writes or releases it. */
  lemma {:induction false} AbandonedForGood(payload: Payload, states: seq<Bridge>, events: seq<Event>, i: nat, j: nat)
    requires Run(payload, states, events) && i <= j < |states|
    ensures states[i].readers != [] && states[j].readers != []
    ensures Abandoned(states[i]) <= Abandoned(states[j])
  {
    hide Next, Abandoned, StrandedAt, Moved, One;
    Manned(payload, states, events, i);
    if i < j {
      AbandonedForGood(payload, states, events, i, j - 1);
      Manned(payload, states, events, j - 1);
      StrandedStep(payload, states[j - 1], events[j - 1], states[j]);
      DroppedIsStranded(states[j - 1], events[j - 1]);
      Grows(Abandoned(states[j - 1]), StrandedAt(states[j - 1], events[j - 1]), Abandoned(states[j]),
            One(Moved(states[j - 1], events[j - 1]).leaked));
    }
  }

  lemma Grows(a: multiset<Msg>, stranded: multiset<Msg>, a': multiset<Msg>, leaked: multiset<Msg>)
    requires a' + leaked == a + stranded && leaked <= stranded
    ensures a <= a'
    ensures (a' == multiset{} && leaked == multiset{}) <==> (a == multiset{} && stranded == multiset{})
  {
    forall m: Msg ensures a[m] <= a'[m] {
      assert (a' + leaked)[m] == (a + stranded)[m];
    }
    assert a <= a + stranded && stranded <= a + stranded && a' <= a' + leaked && leaked <= a' + leaked;
  }

  /** Nothing is dropped or abandoned if and only if no step strands anything. */
  lemma {:induction false} NothingStrandedIff(payload: Payload, states: seq<Bridge>, events: seq<Event>, i: nat)
    requires Run(payload, states, events) && i < |states|
    ensures states[i].readers != []
    ensures Dropped(states, events, i) == multiset{} && Abandoned(states[i]) == multiset{} <==>
            forall k :: 0 <= k < i ==> StrandedAt(states[k], events[k]) == multiset{}
  {
    hide Next, StrandedAt, Moved, One, Abandoned;
    Manned(payload, states, events, i);
    if i == 0 {
      assert Abandoned(START) == multiset{} by { NothingAbandonedAtStart(); }
    } else {
      var n := i - 1;
      NothingStrandedIff(payload, states, events, n);
      Manned(payload, states, events, n);
      StrandedStep(payload, states[n], events[n], states[i]);
      DroppedIsStranded(states[n], events[n]);
      var leaked := One(Moved(states[n], events[n]).leaked);
      Grows(Abandoned(states[n]), StrandedAt(states[n], events[n]), Abandoned(states[i]), leaked);
      NoneLeft(Dropped(states, events, n), leaked);
    }
  }

  lemma NoneLeft(a: multiset<Msg>, b: multiset<Msg>)
    ensures a + b == multiset{} <==> a == multiset{} && b == multiset{}
  {
    assert a <= a + b && b <= a + b;
  }

  lemma NothingAbandonedAtStart()
    ensures Abandoned(START) == multiset{}
  {
    assert START.readers[..0] == [];
  }

  // -- A finished bridge -----------------------------------------------------------------------------------

  /** Stopped pumps hold no batch, and the queues of replaced pumps were drained. */
  ghost predicate Tidy(b: Bridge) {
    && b.pumps != []
    && (forall g :: 0 <= g < |b.pumps| ==> StoppedEmpty(b.pumps[g]))
    && (forall g :: 0 <= g < |b.pumps| - 1 ==> b.pumps[g].queue == [])
    && StoppedEmpty(b.clientPump)
  }

  predicate StoppedEmpty(p: Pump) {
    p.mode.Stopped? ==> p.batch == []
  }

  lemma PumpTidy(p: Pump, e: PumpEvent, mem: map<nat, string>)
    requires PumpStep(p, e, mem).Some? && StoppedEmpty(p)
    ensures StoppedEmpty(PumpStep(p, e, mem).value.0)
    ensures p.queue == [] ==> PumpStep(p, e, mem).value.0.queue == []
  {
  }

  lemma SideTidy(b: Bridge, e: Event)
    requires Tidy(b) && SideStep(b, e).Some?
    ensures Tidy(SideStep(b, e).value.b)
  {
    hide PumpStep, InletStep, StoppedEmpty;
    match e
    case ClientWrites(p) => PumpTidy(b.clientPump, p, b.heap.mem);
    case BackendWrites(g, p) => PumpTidy(b.pumps[g], p, b.heap.mem);
    case _ =>
  }

  lemma TidyStep(payload: Payload, b: Bridge, e: Event, b': Bridge)
    requires Tidy(b) && Next(payload, b, e) == Some(b')
    ensures Tidy(b')
  {
    hide Next, SideStep, RelayStep, SwapStep, StoppedEmpty;
    StepKinds(payload, b, e, b');
    if SideStep(b, e).Some? { SideTidy(b, e); }
    if RelayStep(b, e).Some? { RelayTidy(b, e); }
    if SwapStep(b, e).Some? { SwapTidy(b, e); }
  }

  lemma RelayTidy(b: Bridge, e: Event)
    requires Tidy(b) && RelayStep(b, e).Some?
    ensures Tidy(RelayStep(b, e).value.b)
  {
    assert StoppedEmpty(Last(b.pumps));
  }

  lemma SwapTidy(b: Bridge, e: Event)
    requires Tidy(b) && SwapStep(b, e).Some?
    ensures Tidy(SwapStep(b, e).value.b)
  {
    assert StoppedEmpty(Last(b.pumps));
  }

  lemma {:induction false} TidyReached(payload: Payload, states: seq<Bridge>, events: seq<Event>, i: nat)
    requires Run(payload, states, events) && i < |states|
    ensures Tidy(states[i])
  {
    hide Next, Tidy;
    if i == 0 {
      TidyStart();
    } else {
      TidyReached(payload, states, events, i - 1);
      TidyStep(payload, states[i - 1], events[i - 1], states[i]);
    }
  }

  lemma TidyStart()
    ensures Tidy(START)
  {
  }

  /** The loop has returned, its deferred drain is done, and every pump and reader has ended. */
  ghost predicate Finished(b: Bridge) {
    && b.pumps != [] && b.readers != []
    && b.main.Closed? && Last(b.pumps).queue == []
    && b.clientPump.mode.Stopped? && b.client.hand.Gone?
    && (forall g :: 0 <= g < |b.pumps| ==> b.pumps[g].mode.Stopped?)
    && (forall g :: 0 <= g < |b.readers| ==> b.readers[g].hand.Gone?)
  }

  lemma {:induction false} NoPumpHolds(ps: seq<Pump>)
    requires forall g :: 0 <= g < |ps| ==> ps[g].queue == [] && ps[g].batch == []
    ensures PumpsLive(ps) == multiset{}
  {
    if ps != [] {
      NoPumpHolds(ps[..|ps| - 1]);
    }
  }

  lemma {:induction false} OnlyChannels(rs: seq<Inlet>)
    requires forall g :: 0 <= g < |rs| ==> !rs[g].hand.Holding?
    ensures ReadersLive(rs) == Channels(rs)
  {
    if rs != [] {
      OnlyChannels(rs[..|rs| - 1]);
    }
  }

  /** When all is over, what is still live is what was abandoned. */
  lemma FinishedIsAbandoned(b: Bridge)
    requires Finished(b) && Tidy(b)
    ensures Live(b) == Abandoned(b)
  {
    hide PumpsLive, ReadersLive, Channels;
    forall g | 0 <= g < |b.pumps| ensures b.pumps[g].queue == [] && b.pumps[g].batch == [] {
      assert StoppedEmpty(b.pumps[g]);
    }
    NoPumpHolds(b.pumps);
    OnlyChannels(b.readers);
    ChannelsSplit(b.readers);
  }

  lemma ChannelsSplit(rs: seq<Inlet>)
    requires rs != []
    ensures Channels(rs) == Channels(rs[..|rs| - 1]) + multiset(Last(rs).ch)
  {
  }

  /** In a run that is over, every buffer that was read into is back in the pool if and only if no step stranded one. */
  lemma AllReturnedIff(payload: Payload, states: seq<Bridge>, events: seq<Event>)
    requires Run(payload, states, events) && Finished(states[|events|])
    ensures var n := |events|;
            Read(states, events, n) == Released(states, events, n) <==>
            forall k :: 0 <= k < n ==> StrandedAt(states[k], events[k]) == multiset{}
  {
    hide Next, Abandoned, Live, StrandedAt, Finished;
    var n := |events|;
    TidyReached(payload, states, events, n);
    FinishedIsAbandoned(states[n]);
    LiveConserved(payload, states, events, n);
    NothingStrandedIff(payload, states, events, n);
    Leftover(Read(states, events, n), Live(states[n]), Released(states, events, n), Dropped(states, events, n));
  }

  lemma Leftover(read: multiset<Msg>, live: multiset<Msg>, released: multiset<Msg>, dropped: multiset<Msg>)
    requires read == live + released + dropped
    ensures read == released <==> live == multiset{} && dropped == multiset{}
  {
    if read == released {
      forall m: Msg ensures live[m] == 0 && dropped[m] == 0 {
        assert (live + released + dropped)[m] == released[m];
      }
    }
  }

  // -- When a step strands nothing -------------------------------------------------------------------------

  /** The loop gives its backend connection up, for a swap or to close. */
  predicate Leaves(e: Event, swap: bool) {
    || e == SendBackendFails(swap) || e == BackendWriteErr(swap) || e == BackendEnded(swap)
    || (swap && e.SwapRequested?) || (!swap && (e.ClientEnded? || e.ClientWriteErr? || e.SendClientFails?))
  }

  /**
   * Such a step itself strands nothing if and only if the old reader's channel is empty and, to close, the client's
   * too.
   */
  lemma LeavesCleanIff(b: Bridge, e: Event, swap: bool)
    requires b.readers != [] && b.pumps != [] && Leaves(e, swap) && Move(b, e).Some?
    ensures Move(b, e).value.b.readers != []
    ensures var o := Move(b, e).value;
            (Abandoned(o.b) == Abandoned(b) && o.leaked.None?) <==>
            (Last(b.readers).ch == [] && (swap || b.client.ch == []))
  {
    hide Move, StrandedBy, Abandoned;
    var o := Move(b, e).value;
    StrandingStep(b, e);
    DroppedIsStranded(b, e);
    LeavingIs(b, e, swap);
    Unchanged(Abandoned(b), StrandedBy(b, e), Abandoned(o.b), o.leaked);
    NoneLeft(multiset(Last(b.readers).ch), if swap then multiset{} else multiset(b.client.ch));
    EmptyChannel(Last(b.readers).ch);
    EmptyChannel(b.client.ch);
  }

  lemma Unchanged(a: multiset<Msg>, stranded: multiset<Msg>, a': multiset<Msg>, leaked: Option<Msg>)
    requires a' + One(leaked) == a + stranded
    ensures (a' == a && leaked.None?) <==> (stranded == multiset{} && leaked.None?)
    ensures stranded == multiset{} && One(leaked) <= stranded ==> leaked.None?
  {
    if leaked.None? {
      forall m: Msg ensures a'[m] == a[m] + stranded[m] {
        assert (a' + One(leaked))[m] == (a + stranded)[m];
      }
      if a' == a {
        assert forall m: Msg :: stranded[m] == 0;
      }
    } else {
      assert leaked.value in One(leaked);
    }
  }

  lemma LeavingIs(b: Bridge, e: Event, swap: bool)
    requires b.readers != [] && b.pumps != [] && Leaves(e, swap)
    ensures StrandedBy(b, e) == LeavingStrands(b, swap)
  {
    hide LeavingStrands;
  }

  /** A backend reader the loop has left stays left, and its channel only grows, when it pushes what it holds. */
  lemma LeftReaderStep(payload: Payload, b: Bridge, e: Event, b': Bridge, g: nat)
    requires g < |b.readers| && Replaced(b, g) && Next(payload, b, e) == Some(b')
    ensures g < |b'.readers| && Replaced(b', g)
    ensures e == BackendReads(g, Push) ==> b'.readers[g].ch != []
    ensures e != BackendReads(g, Push) ==> b'.readers[g].ch == b.readers[g].ch
  {
    hide Next, SideStep, RelayStep, SwapStep, Replaced;
    StepKinds(payload, b, e, b');
    LeftReaderHeap(b, b', g);
    if SideStep(b, e).Some? { LeftReaderSide(b, e, g); LeftReaderHeap(SideStep(b, e).value.b, b', g); }
    if RelayStep(b, e).Some? { LeftReaderRelay(b, e, g); LeftReaderHeap(RelayStep(b, e).value.b, b', g); }
    if SwapStep(b, e).Some? { LeftReaderSwap(b, e, g); LeftReaderHeap(SwapStep(b, e).value.b, b', g); }
    if e == BackendReads(g, Push) { PushHappens(payload, b, g, b'); }
  }

  lemma LeftReaderHeap(b: Bridge, b': Bridge, g: nat)
    ensures b' == b.(heap := b'.heap) ==> (Replaced(b', g) <==> Replaced(b, g))
  {
  }

  lemma PushHappens(payload: Payload, b: Bridge, g: nat, b': Bridge)
    requires Next(payload, b, BackendReads(g, Push)) == Some(b')
    ensures SideStep(b, BackendReads(g, Push)).Some?
            && b' == SideStep(b, BackendReads(g, Push)).value.b.(heap := b'.heap)
  {
    hide SideStep;
  }

  lemma LeftReaderSide(b: Bridge, e: Event, g: nat)
    requires g < |b.readers| && Replaced(b, g) && SideStep(b, e).Some?
    ensures var b' := SideStep(b, e).value.b;
            && g < |b'.readers| && Replaced(b', g)
            && (e == BackendReads(g, Push) ==> b'.readers[g].ch != [])
            && (e != BackendReads(g, Push) ==> b'.readers[g].ch == b.readers[g].ch)
  {
    hide PumpStep, InletStep;
    if e.BackendReads? && e.g == g {
      InletChannelStep(b.readers[g], e.r, Msg(Client, 0, 0));
      if e.r.Push? {
        InletPushed(b.readers[g], e.r);
      }
    }
  }

  lemma InletPushed(i: Inlet, e: ReadEvent)
    requires InletStep(i, e).Some? && e.Push?
    ensures InletStep(i, e).value.0.ch != []
  {
  }

  lemma LeftReaderRelay(b: Bridge, e: Event, g: nat)
    requires g < |b.readers| && Replaced(b, g) && RelayStep(b, e).Some?
    ensures var b' := RelayStep(b, e).value.b;
            g < |b'.readers| && Replaced(b', g) && b'.readers[g].ch == b.readers[g].ch
  {
  }

  lemma LeftReaderSwap(b: Bridge, e: Event, g: nat)
    requires g < |b.readers| && Replaced(b, g) && SwapStep(b, e).Some?
    ensures var b' := SwapStep(b, e).value.b;
            g < |b'.readers| && Replaced(b', g) && b'.readers[g].ch == b.readers[g].ch
  {
  }

  /** Giving the backend up leaves its reader behind; a swap request takes one message off the channel first. */
  lemma LeavingStep(payload: Payload, b: Bridge, e: Event, b': Bridge, swap: bool)
    requires b.readers != [] && b.pumps != [] && Leaves(e, swap) && Next(payload, b, e) == Some(b')
    ensures |b'.readers| == |b.readers| && Replaced(b', |b.readers| - 1)
    ensures (Moved(b, e).leaked.None? && Last(b'.readers).ch == []) <==> Last(b.readers).ch == []
    ensures !swap ==> b'.client.ch == b.client.ch && LeftLoop(b'.main)
  {
  }

  /**
   * From a state in which the loop has left reader `g`: its channel is empty later iff it is now and nothing is
   * pushed.
   */
  lemma {:induction false} LeftChannelIff(payload: Payload, states: seq<Bridge>, events: seq<Event>, t: nat, j: nat,
                                          g: nat)
    requires Run(payload, states, events) && t <= j < |states| && g < |states[t].readers| && Replaced(states[t], g)
    ensures g < |states[j].readers| && Replaced(states[j], g)
    ensures states[j].readers[g].ch == [] <==>
            states[t].readers[g].ch == [] && forall u :: t <= u < j ==> events[u] != BackendReads(g, Push)
  {
    hide Next, Replaced;
    if t < j {
      LeftChannelIff(payload, states, events, t, j - 1, g);
      LeftReaderStep(payload, states[j - 1], events[j - 1], states[j], g);
    }
  }

  /**
   * A swap or the end of the loop loses no backend message, then or later, if and only if the old reader's channel is
   * empty at that step and the reader, which may hold one more message, does not push it afterwards.
   */
  lemma LeavesBackendCleanIff(payload: Payload, states: seq<Bridge>, events: seq<Event>, t: nat, j: nat, swap: bool)
    requires Run(payload, states, events) && t < j < |states| && Leaves(events[t], swap)
    ensures 0 < |states[t].readers| <= |states[j].readers|
    ensures var g := |states[t].readers| - 1;
            (Moved(states[t], events[t]).leaked.None? && states[j].readers[g].ch == []) <==>
            (states[t].readers[g].ch == [] && forall u :: t < u < j ==> events[u] != BackendReads(g, Push))
  {
    hide Next, Replaced, Leaves;
    Manned(payload, states, events, t);
    LeavingStep(payload, states[t], events[t], states[t + 1], swap);
    LeftChannelIff(payload, states, events, t + 1, j, |states[t].readers| - 1);
  }

  /** The client's channel, once the loop has ended. */
  lemma ClosedClientStep(payload: Payload, b: Bridge, e: Event, b': Bridge)
    requires LeftLoop(b.main) && Next(payload, b, e) == Some(b')
    ensures LeftLoop(b'.main)
    ensures e == ClientReads(Push) ==> b'.client.ch != []
    ensures e != ClientReads(Push) ==> b'.client.ch == b.client.ch
  {
    hide Next, SideStep, RelayStep, SwapStep;
    StepKinds(payload, b, e, b');
    if SideStep(b, e).Some? { ClosedClientSide(b, e); }
    if RelayStep(b, e).Some? { ClosedClientLoop(b, e); }
    if SwapStep(b, e).Some? { ClosedClientLoop(b, e); }
    if e == ClientReads(Push) { ClientPushHappens(payload, b, b'); }
  }

  lemma ClientPushHappens(payload: Payload, b: Bridge, b': Bridge)
    requires Next(payload, b, ClientReads(Push)) == Some(b')
    ensures SideStep(b, ClientReads(Push)).Some? && b' == SideStep(b, ClientReads(Push)).value.b.(heap := b'.heap)
  {
    hide SideStep;
  }

  lemma ClosedClientSide(b: Bridge, e: Event)
    requires SideStep(b, e).Some?
    ensures var b' := SideStep(b, e).value.b;
            && b'.main == b.main
            && (e == ClientReads(Push) ==> b'.client.ch != [])
            && (e != ClientReads(Push) ==> b'.client.ch == b.client.ch)
  {
    hide PumpStep;
  }

  /** An ended loop takes nothing from the client any more. */
  lemma ClosedClientLoop(b: Bridge, e: Event)
    requires LeftLoop(b.main)
    ensures RelayStep(b, e).None?
    ensures SwapStep(b, e).Some? ==>
            LeftLoop(SwapStep(b, e).value.b.main) && SwapStep(b, e).value.b.client.ch == b.client.ch
  {
  }

  lemma {:induction false} ClosedChannelIff(payload: Payload, states: seq<Bridge>, events: seq<Event>, t: nat, j: nat)
    requires Run(payload, states, events) && t <= j < |states| && LeftLoop(states[t].main)
    ensures LeftLoop(states[j].main)
    ensures states[j].client.ch == [] <==>
            states[t].client.ch == [] && forall u :: t <= u < j ==> events[u] != ClientReads(Push)
  {
    hide Next, LeftLoop;
    if t < j {
      ClosedChannelIff(payload, states, events, t, j - 1);
      ClosedClientStep(payload, states[j - 1], events[j - 1], states[j]);
    }
  }

  /**
   * The end of the loop loses no client message if and only if the client's channel is empty and nothing is pushed
   * to it later.
   */
  lemma LeavesClientCleanIff(payload: Payload, states: seq<Bridge>, events: seq<Event>, t: nat, j: nat)
    requires Run(payload, states, events) && t < j < |states| && Leaves(events[t], false)
    ensures states[j].client.ch == [] <==>
            states[t].client.ch == [] && forall u :: t < u < j ==> events[u] != ClientReads(Push)
  {
    hide Next, LeftLoop, Leaves;
    Manned(payload, states, events, t);
    LeavingStep(payload, states[t], events[t], states[t + 1], false);
    ClosedChannelIff(payload, states, events, t + 1, j);
  }

  lemma EmptyChannel(s: seq<Msg>)
    ensures multiset(s) == multiset{} <==> s == []
  {
    if s != [] {
      assert s[0] in multiset(s);
    }
  }

  // -- No message is read twice ------------------------------------------------------------------------------

  /** The number of the next message a reader may still read. */
  function Unread(i: Inlet): nat {
    Upcoming(i) + if i.hand.Holding? then 1 else 0
  }

  predicate ReadBefore(i: Inlet, m: Msg) {
    i.hand.Gone? || m.n < Unread(i)
  }

  /** `m` came from one of the readers, before the next message it may read. */
  predicate Known(b: Bridge, m: Msg) {
    match m.src
    case Client => ReadBefore(b.client, m)
    case Backend(g) => g < |b.readers| && ReadBefore(b.readers[g], m)
  }

  lemma InletReads(i: Inlet, e: ReadEvent, m: Msg)
    requires InletStep(i, e).Some?
    ensures ReadBefore(i, m) ==> ReadBefore(InletStep(i, e).value.0, m)
    ensures InletStep(i, e).value.1 == Some(m) ==>
            m.src == i.src && !ReadBefore(i, m) && ReadBefore(InletStep(i, e).value.0, m)
  {
  }

  ghost predicate Named(b: Bridge) {
    b.client.src == Client && forall g :: 0 <= g < |b.readers| ==> b.readers[g].src == Backend(g)
  }

  lemma SideKnown(b: Bridge, e: Event, m: Msg)
    requires Named(b) && SideStep(b, e).Some?
    ensures Known(b, m) ==> Known(SideStep(b, e).value.b, m)
    ensures SideStep(b, e).value.got == Some(m) ==> !Known(b, m) && Known(SideStep(b, e).value.b, m)
  {
    hide PumpStep, InletStep, ReadBefore;
    match e
    case ClientReads(r) => InletReads(b.client, r, m);
    case BackendReads(g, r) => InletReads(b.readers[g], r, m);
    case _ =>
  }

  lemma RelayKnown(b: Bridge, e: Event, m: Msg)
    requires RelayStep(b, e).Some?
    ensures Known(b, m) ==> Known(RelayStep(b, e).value.b, m)
    ensures RelayStep(b, e).value.got.None?
  {
  }

  lemma SwapKnown(b: Bridge, e: Event, m: Msg)
    requires SwapStep(b, e).Some?
    ensures Known(b, m) ==> Known(SwapStep(b, e).value.b, m)
    ensures SwapStep(b, e).value.got.None?
  {
  }

  lemma MoveKnown(b: Bridge, e: Event, m: Msg)
    requires Named(b) && Move(b, e).Some?
    ensures Known(b, m) ==> Known(Move(b, e).value.b, m)
    ensures Move(b, e).value.got == Some(m) ==> !Known(b, m) && Known(Move(b, e).value.b, m)
  {
    hide SideStep, RelayStep, SwapStep, Known, Named;
    match e
    case ClientWrites(_) => SideKnown(b, e, m);
    case BackendWrites(_, _) => SideKnown(b, e, m);
    case ClientReads(_) => SideKnown(b, e, m);
    case BackendReads(_, _) => SideKnown(b, e, m);
    case DrainOne => SwapKnown(b, e, m);
    case Dialed(_) => SwapKnown(b, e, m);
    case ForwardOne => SwapKnown(b, e, m);
    case ForwardDone => SwapKnown(b, e, m);
    case Shut => SwapKnown(b, e, m);
    case ShutDrain => SwapKnown(b, e, m);
    case _ => RelayKnown(b, e, m);
  }

  lemma KnownStep(payload: Payload, b: Bridge, e: Event, b': Bridge, m: Msg)
    requires Named(b) && Next(payload, b, e) == Some(b')
    ensures Known(b, m) ==> Known(b', m)
    ensures Moved(b, e).got == Some(m) ==> !Known(b, m) && Known(b', m)
  {
    hide Move, Named, ReadBefore;
    if Move(b, e).Some? {
      MoveKnown(b, e, m);
      GotOrFreed(b, e);
    }
  }

  lemma AllNamed(payload: Payload, states: seq<Bridge>, events: seq<Event>, i: nat)
    requires Run(payload, states, events) && i < |states|
    ensures Named(states[i])
  {
    hide Next, Owns, Truthful, Run;
    InvReached(payload, states, events, i);
  }

  /** In every run each message is read at most once. */
  lemma {:induction false} ReadOnce(payload: Payload, states: seq<Bridge>, events: seq<Event>, i: nat, m: Msg)
    requires Run(payload, states, events) && i < |states|
    ensures Read(states, events, i)[m] <= 1
    ensures Read(states, events, i)[m] == 1 ==> Known(states[i], m)
  {
    hide Next, Known, Named, Moved;
    if i > 0 {
      var n := i - 1;
      ReadOnce(payload, states, events, n, m);
      AllNamed(payload, states, events, n);
      KnownStep(payload, states[n], events[n], states[i], m);
    }
  }

  /** Nor is a message number of a connection read again into another buffer. */
  lemma {:induction false} NumberReadOnce(payload: Payload, states: seq<Bridge>, events: seq<Event>, i: nat, m: Msg,
                                          o: Msg)
    requires Run(payload, states, events) && i < |states| && m != o && m.src == o.src && m.n == o.n
    ensures Read(states, events, i)[m] + Read(states, events, i)[o] <= 1
  {
    hide Next, Named, Moved, ReadBefore;
    if i > 0 {
      var n := i - 1;
      NumberReadOnce(payload, states, events, n, m, o);
      ReadOnce(payload, states, events, n, m);
      ReadOnce(payload, states, events, n, o);
      AllNamed(payload, states, events, n);
      KnownStep(payload, states[n], events[n], states[i], m);
      KnownStep(payload, states[n], events[n], states[i], o);
      SameKnown(states[n], m, o);
    }
  }

  lemma SameKnown(b: Bridge, m: Msg, o: Msg)
    requires m.src == o.src && m.n == o.n
    ensures Known(b, m) <==> Known(b, o)
  {
  }

  /** So each message has one fate: within reach, released, dropped or abandoned, and released at most once. */
  lemma OneFate(payload: Payload, states: seq<Bridge>, events: seq<Event>, i: nat, m: Msg)
    requires Run(payload, states, events) && i < |states|
    ensures states[i].readers != []
    ensures Reachable(states[i])[m] + Released(states, events, i)[m] + Dropped(states, events, i)[m]
            + Abandoned(states[i])[m]
            == Read(states, events, i)[m] <= 1
  {
    hide Run, Reachable, Abandoned, Read, Released, Dropped;
    BuffersConserved(payload, states, events, i);
    ReadOnce(payload, states, events, i, m);
  }
}
