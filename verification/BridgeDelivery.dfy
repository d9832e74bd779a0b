/**
 * Backend to client: the client gets a prefix of what the loop forwards, and each connection is forwarded from its
 * start.
 */
module BridgeDelivery {
  import opened Basics
  import opened BridgeParts
  import opened WebSocketBridge
  import opened BridgeOrder

  // -- The client's write pump -----------------------------------------------------------------------

  ghost predicate Delivers(p: Pump, forwarded: seq<Tag>) {
    && WroteTags(p.written) <= forwarded
    && (!Failed(p) ==> Line(p) == forwarded)
  }

  lemma DeliversStep(p: Pump, e: PumpEvent, mem: map<nat, string>, forwarded: seq<Tag>)
    requires Delivers(p, forwarded) && PumpStep(p, e, mem).Some?
    ensures Delivers(PumpStep(p, e, mem).value.0, forwarded)
  {
    hide Without;
    PumpStepLine(p, e, mem);
    var p' := PumpStep(p, e, mem).value.0;
    assert WroteTags(p'.written) <= Line(p');
  }

  lemma DeliversQueued(p: Pump, m: Msg, forwarded: seq<Tag>)
    requires Delivers(p, forwarded)
    ensures Delivers(Queued(p, m), forwarded + [Tag(m.src, m.n)])
  {
    hide Line;
    QueuedLine(p, m);
  }

  // -- What the loop forwards --------------------------------------------------------------------------

  /** How many of `f` came from connection `g`. */
  function CountOf(f: seq<Tag>, g: nat): nat {
    if f == [] then 0 else CountOf(f[..|f| - 1], g) + if f[|f| - 1].src == Backend(g) then 1 else 0
  }

  /** Each connection's messages from number 0 on without a gap, one connection after the other. */
  ghost predicate Sequenced(f: seq<Tag>) {
    forall i :: 0 <= i < |f| ==> InPlace(f[..i], f[i])
  }

  /** `t` is the next message of its connection, and no later connection has begun. */
  ghost predicate InPlace(before: seq<Tag>, t: Tag) {
    t.src.Backend? && t.n == CountOf(before, t.src.gen) && Below(before, t.src.gen + 1)
  }

  ghost predicate Below(f: seq<Tag>, bound: nat) {
    forall i :: 0 <= i < |f| ==> f[i].src.Backend? && f[i].src.gen < bound
  }

  lemma {:induction false} NoneFrom(f: seq<Tag>, g: nat)
    requires Below(f, g)
    ensures CountOf(f, g) == 0
  {
    if f != [] {
      NoneFrom(f[..|f| - 1], g);
    }
  }

  lemma SequencedPush(f: seq<Tag>, t: Tag)
    requires Sequenced(f) && InPlace(f, t)
    ensures Sequenced(f + [t])
  {
    hide InPlace;
    var f' := f + [t];
    forall i | 0 <= i < |f'|
      ensures InPlace(f'[..i], f'[i])
    {
      assert f'[..i] == f[..i];
      assert i == |f| ==> f[..i] == f;
    }
  }

  lemma CountPush(f: seq<Tag>, t: Tag)
    requires InPlace(f, t)
    ensures Below(f + [t], t.src.gen + 1) && CountOf(f + [t], t.src.gen) == t.n + 1
  {
    assert (f + [t])[..|f|] == f;
  }

  ghost predicate Readers(rs: seq<Inlet>) {
    forall g :: 0 <= g < |rs| ==> rs[g].src == Backend(g) && Consecutive(rs[g])
  }

  ghost predicate Forwards(b: Bridge) {
    && b.readers != [] && Readers(b.readers)
    && Sequenced(b.forwarded) && Below(b.forwarded, |b.readers|)
    && Delivers(b.clientPump, b.forwarded)
    && var next := CountOf(b.forwarded, |b.readers| - 1);
       && (b.main.Select? || b.main.ToBackend? ==> Last(b.readers).taken == next)
       && (b.main.ToClient? ==>
         b.main.m.src == Backend(|b.readers| - 1) && b.main.m.n == next && Last(b.readers).taken == next + 1)
  }

  lemma ReadersLast(rs: seq<Inlet>, r: Inlet)
    requires rs != [] && Readers(rs) && r.src == Last(rs).src && Consecutive(r)
    ensures Readers(WithLast(rs, r))
  {
    hide Consecutive;
  }

  lemma ReadersStop(b: Bridge)
    requires b.pumps != [] && b.readers != [] && Readers(b.readers)
    ensures Readers(StopBackend(b).readers)
  {
    hide Consecutive;
    FlagConsecutive(Last(b.readers));
    ReadersLast(b.readers, Last(b.readers).(cancelled := true));
  }

  lemma SideForwards(b: Bridge, e: Event)
    requires Forwards(b) && SideStep(b, e).Some?
    ensures Forwards(SideStep(b, e).value.b)
  {
    hide Sequenced, Below, Delivers, Consecutive, PumpStep, InletStep;
    match e
    case ClientWrites(p) =>
      DeliversStep(b.clientPump, p, b.heap.mem, b.forwarded);
    case BackendWrites(g, p) =>
    case ClientReads(r) =>
    case BackendReads(g, r) =>
      InletStepConsecutive(b.readers[g], r);
  }

  lemma RelayForwards(b: Bridge, e: Event)
    requires Forwards(b) && RelayStep(b, e).Some?
    ensures Forwards(RelayStep(b, e).value.b)
  {
    hide Sequenced, Below, Delivers, Readers, Received, Queued, Consecutive;
    match e
    case TakeBackend =>
      LastReader(b.readers);
    case SendClient =>
      DeliversQueued(b.clientPump, b.main.m, b.forwarded);
      SequencedPush(b.forwarded, Tag(b.main.m.src, b.main.m.n));
      CountPush(b.forwarded, Tag(b.main.m.src, b.main.m.n));
    case SendBackendFails(swap) =>
      ReadersStop(b);
    case BackendEnded(swap) =>
      ReadersStop(b);
    case BackendWriteErr(swap) =>
      ReadersStop(b);
    case SwapRequested =>
      ReadersStop(b);
      if Last(b.readers).ch != [] {
        LastReader(b.readers);
        ReadersStop(b.(readers := WithLast(b.readers, Received(Last(b.readers)))));
      }
    case _ =>
  }

  lemma LastReader(rs: seq<Inlet>)
    requires rs != [] && Readers(rs) && Last(rs).ch != []
    ensures Readers(WithLast(rs, Received(Last(rs))))
    ensures var r := Last(rs);
            r.ch[0].src == Backend(|rs| - 1) && r.ch[0].n == r.taken && Received(r).taken == r.taken + 1
  {
    hide Consecutive;
    ReceivedFacts(Last(rs));
    ReadersLast(rs, Received(Last(rs)));
  }

  lemma SwapForwards(b: Bridge, e: Event)
    requires Forwards(b) && SwapStep(b, e).Some?
    ensures Forwards(SwapStep(b, e).value.b)
  {
    hide Sequenced, Delivers, Readers;
    match e
    case ForwardDone =>
      ReadersNew(b.readers);
      NoneFrom(b.forwarded, |b.readers|);
    case Shut =>
      ReadersStop(b);
      DeliversFlag(b.clientPump, b.forwarded);
    case _ =>
  }

  lemma ReadersNew(rs: seq<Inlet>)
    requires Readers(rs)
    ensures Readers(rs + [NewInlet(Backend(|rs|))])
  {
  }

  lemma DeliversFlag(p: Pump, forwarded: seq<Tag>)
    requires Delivers(p, forwarded)
    ensures Delivers(p.(done := true), forwarded)
  {
  }

  lemma ForwardsStep(payload: Payload, b: Bridge, e: Event, b': Bridge)
    requires Forwards(b) && Next(payload, b, e) == Some(b')
    ensures Forwards(b')
  {
    hide Sequenced, Below, Delivers, Readers, SideStep, RelayStep, SwapStep, Next;
    StepKinds(payload, b, e, b');
    if SideStep(b, e).Some? { SideForwards(b, e); }
    if RelayStep(b, e).Some? { RelayForwards(b, e); }
    if SwapStep(b, e).Some? { SwapForwards(b, e); }
  }
}
