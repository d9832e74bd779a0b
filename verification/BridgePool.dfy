/** The buffer pool over a run: a buffer is in it exactly when no live or dropped message holds the buffer. */
module BridgePool {
  import opened Basics
  import opened BridgeParts
  import opened WebSocketBridge
  import opened BridgeBuffers
  import opened BridgeStranding
  import opened BridgeTheorems
  import opened BridgeAccounts

  /** The messages that keep their buffers: live ones and those a swap request dropped. */
  ghost function Held(states: seq<Bridge>, events: seq<Event>, i: nat): multiset<Msg>
    requires i <= |events| < |states|
  {
    Live(states[i]) + Dropped(states, events, i)
  }

  ghost predicate Holds(held: multiset<Msg>, buf: nat) {
    exists m :: m in held && m.buf == buf
  }

  // -- One step ------------------------------------------------------------------------------------------

  /** The buffers after a step that reads `o.got` and releases `o.freed`. */
  ghost function HeapAfter(payload: Payload, h: Heap, o: Out): Heap {
    Free(Filled(payload, h, o.got), o.freed)
  }

  lemma MovedHeap(payload: Payload, b: Bridge, e: Event, b': Bridge)
    requires Next(payload, b, e) == Some(b') && !e.Abort? && !e.PoolDrop?
    ensures b'.heap == HeapAfter(payload, b.heap, Moved(b, e))
    ensures Moved(b, e).got.Some? ==> CanGet(b.heap, Moved(b, e).got.value.buf)
  {
    hide Move;
    GotOrFreed(b, e);
  }

  /** A buffer that is taken, kept or returned is still held or in the pool. */
  lemma BalanceKept(payload: Payload, h: Heap, held: multiset<Msg>, o: Out, held': multiset<Msg>, buf: nat)
    requires held + One(o.got) == held' + One(o.freed) && (o.got.Some? ==> CanGet(h, o.got.value.buf))
    requires buf < h.next ==> buf in h.pool || Holds(held, buf)
    ensures var h' := HeapAfter(payload, h, o);
            buf < h'.next ==> buf in h'.pool || Holds(held', buf)
  {
    var h' := HeapAfter(payload, h, o);
    if buf < h'.next && buf !in h'.pool {
      if o.got.Some? && o.got.value.buf == buf {
        assert o.got.value in held' + One(o.freed);
        assert o.got.value in held';
      } else if Holds(held, buf) {
        var m :| m in held && m.buf == buf;
        assert m in held' + One(o.freed);
        assert m in held';
      }
    }
  }

  lemma HeldMoved(held: multiset<Msg>, gone: multiset<Msg>, got: multiset<Msg>, held': multiset<Msg>,
                  freed: multiset<Msg>, leaked: multiset<Msg>)
    requires held + got == held' + freed + leaked
    ensures (held + gone) + got == (held' + (gone + leaked)) + freed
  {
    assert (held + gone) + got == (held + got) + gone;
  }

  lemma HeldStep(payload: Payload, states: seq<Bridge>, events: seq<Event>, i: nat)
    requires Run(payload, states, events) && 0 < i < |states|
    ensures var o := Moved(states[i - 1], events[i - 1]);
            Held(states, events, i - 1) + One(o.got) == Held(states, events, i) + One(o.freed)
  {
    hide Next, Live, Moved, One;
    LiveMoved(payload, states[i - 1], events[i - 1], states[i]);
    var o := Moved(states[i - 1], events[i - 1]);
    HeldMoved(Live(states[i - 1]), Dropped(states, events, i - 1), One(o.got), Live(states[i]), One(o.freed),
              One(o.leaked));
  }

  lemma OwnsMoved(payload: Payload, h: Heap, held: multiset<Msg>, o: Out, held': multiset<Msg>)
    requires Owns(h, held, payload) && held + One(o.got) == held' + One(o.freed)
    requires o.got.Some? ==> CanGet(h, o.got.value.buf)
    ensures Owns(HeapAfter(payload, h, o), held', payload)
  {
    hide Owns;
    if o.got.Some? {
      OwnsGet(h, held, payload, o.got.value);
    } else {
      NoneLive(held);
    }
    OwnsFree(Filled(payload, h, o.got), held', payload, o.freed);
  }

  lemma NothingMoved(b: Bridge, e: Event)
    requires e.Abort? || e.PoolDrop?
    ensures Moved(b, e) == Out(b, None, None, None)
  {
  }

  // -- Over a run ------------------------------------------------------------------------------------------

  lemma HeldAtStart(payload: Payload, states: seq<Bridge>, events: seq<Event>)
    requires Run(payload, states, events)
    ensures Held(states, events, 0) == multiset{}
  {
    assert Live(START) == multiset{} by { NothingAtStart(); }
    assert Held(states, events, 0) == Live(states[0]) + multiset{};
  }

  /** Held messages own their buffers alone, also those that were dropped long ago. */
  lemma {:induction false} HeldOwned(payload: Payload, states: seq<Bridge>, events: seq<Event>, i: nat)
    requires Run(payload, states, events) && i < |states|
    ensures Owns(states[i].heap, Held(states, events, i), payload)
  {
    hide Held, Live, Moved, Owns;
    if i == 0 {
      HeldAtStart(payload, states, events);
      assert Owns(START.heap, multiset{}, payload) by { NobodyOwns(payload); }
    } else {
      var (b, e) := (states[i - 1], events[i - 1]);
      HeldOwned(payload, states, events, i - 1);
      HeldStep(payload, states, events, i);
      OwnsNext(payload, b, e, states[i], Held(states, events, i - 1), Held(states, events, i));
    }
  }

  lemma NobodyOwns(payload: Payload)
    ensures Owns(START.heap, multiset{}, payload)
  {
  }

  lemma OwnsNext(payload: Payload, b: Bridge, e: Event, b': Bridge, held: multiset<Msg>, held': multiset<Msg>)
    requires Next(payload, b, e) == Some(b') && Owns(b.heap, held, payload)
    requires held + One(Moved(b, e).got) == held' + One(Moved(b, e).freed)
    ensures Owns(b'.heap, held', payload)
  {
    hide Owns, Move;
    if e.Abort? || e.PoolDrop? {
      NothingMoved(b, e);
      NoneLive(held);
      NoneLive(held');
      if e.Abort? {
        OwnsAbort(b.heap, held, payload, e.buf, e.junk);
      } else {
        OwnsPoolDrop(b.heap, held, payload, e.buf);
      }
    } else {
      MovedHeap(payload, b, e, b');
      OwnsMoved(payload, b.heap, held, Moved(b, e), held');
    }
  }

  lemma BalanceNext(payload: Payload, b: Bridge, e: Event, b': Bridge, held: multiset<Msg>, held': multiset<Msg>,
                    buf: nat)
    requires Next(payload, b, e) == Some(b') && e != PoolDrop(buf)
    requires held + One(Moved(b, e).got) == held' + One(Moved(b, e).freed)
    requires buf < b.heap.next ==> buf in b.heap.pool || Holds(held, buf)
    ensures buf < b'.heap.next ==> buf in b'.heap.pool || Holds(held', buf)
  {
    hide Move, Holds;
    if e.Abort? || e.PoolDrop? {
      NothingMoved(b, e);
      NoneLive(held);
      NoneLive(held');
    } else {
      MovedHeap(payload, b, e, b');
      BalanceKept(payload, b.heap, held, Moved(b, e), held', buf);
    }
  }

  lemma {:induction false} Balanced(payload: Payload, states: seq<Bridge>, events: seq<Event>, i: nat, buf: nat)
    requires Run(payload, states, events) && i < |states|
    requires forall k :: 0 <= k < i ==> events[k] != PoolDrop(buf)
    ensures buf < states[i].heap.next ==> buf in states[i].heap.pool || Holds(Held(states, events, i), buf)
  {
    hide Held, Moved, Holds;
    if i > 0 {
      Balanced(payload, states, events, i - 1, buf);
      HeldStep(payload, states, events, i);
      BalanceNext(payload, states[i - 1], events[i - 1], states[i], Held(states, events, i - 1),
                  Held(states, events, i), buf);
    }
  }

  /** Unless the pool forgot it, a buffer is in the pool if and only if it exists and nobody holds it. */
  lemma PooledIff(payload: Payload, states: seq<Bridge>, events: seq<Event>, i: nat, buf: nat)
    requires Run(payload, states, events) && i < |states|
    requires forall k :: 0 <= k < i ==> events[k] != PoolDrop(buf)
    ensures buf in states[i].heap.pool <==> buf < states[i].heap.next && !Holds(Held(states, events, i), buf)
  {
    hide Next, Held;
    Balanced(payload, states, events, i, buf);
    HeldOwned(payload, states, events, i);
  }

  /** When a run is over and the pool forgot nothing, every buffer is back if and only if no step stranded one. */
  lemma AllPooledIff(payload: Payload, states: seq<Bridge>, events: seq<Event>)
    requires Run(payload, states, events) && Finished(states[|events|])
    requires forall k :: 0 <= k < |events| ==> !events[k].PoolDrop?
    ensures var h := states[|events|].heap;
            (forall buf :: 0 <= buf < h.next ==> buf in h.pool) <==>
            forall k :: 0 <= k < |events| ==> StrandedAt(states[k], events[k]) == multiset{}
  {
    hide Next, Live, Abandoned, StrandedAt, Finished, Holds, Owns;
    var n := |events|;
    var held := Held(states, events, n);
    TidyReached(payload, states, events, n);
    FinishedIsAbandoned(states[n]);
    NothingStrandedIff(payload, states, events, n);
    NoneLeft(Live(states[n]), Dropped(states, events, n));
    HeldOwned(payload, states, events, n);
    forall buf: nat ensures buf in states[n].heap.pool <==> buf < states[n].heap.next && !Holds(held, buf) {
      PooledIff(payload, states, events, n, buf);
    }
    EmptyIff(states[n].heap, held, payload);
  }

  lemma EmptyIff(h: Heap, held: multiset<Msg>, payload: Payload)
    requires Owns(h, held, payload)
    requires forall buf: nat :: buf in h.pool <==> buf < h.next && !Holds(held, buf)
    ensures (forall buf :: 0 <= buf < h.next ==> buf in h.pool) <==> held == multiset{}
  {
    if held != multiset{} {
      var m :| m in held;
      assert Holds(held, m.buf);
      assert m.buf < h.next && m.buf !in h.pool;
    }
  }
}
