/**
 * Client to backend: each connection gets an ordered part of the client's messages, earlier connections earlier
 * parts.
 */
module BridgeOrder {
  import opened Basics
  import opened BridgeParts
  import opened WebSocketBridge

  function Lines(ps: seq<Pump>): (ls: seq<seq<Tag>>)
    ensures |ls| == |ps| && forall g :: 0 <= g < |ps| ==> ls[g] == Line(ps[g])
  {
    seq(|ps|, g requires 0 <= g < |ps| => Line(ps[g]))
  }

  /** Client messages below `bound`, ascending along each line and from line to line. */
  ghost predicate Ordered(ls: seq<seq<Tag>>, bound: nat) {
    && (forall g, i :: 0 <= g < |ls| && 0 <= i < |ls[g]| ==> ls[g][i].src == Client && ls[g][i].n < bound)
    && (forall g, i, j :: 0 <= g < |ls| && 0 <= i < j < |ls[g]| ==> ls[g][i].n < ls[g][j].n)
    && (forall g, h, i, j :: 0 <= g < h < |ls| && 0 <= i < |ls[g]| && 0 <= j < |ls[h]| ==> ls[g][i].n < ls[h][j].n)
  }

  /** Where the element at `k` was before position `i` was dropped. */
  function Skip(i: nat, k: nat): nat {
    if k < i then k else k + 1
  }

  lemma WithoutAt(t: seq<Tag>, i: nat)
    requires i < |t|
    ensures |Without(t, i)| == |t| - 1
    ensures forall k :: 0 <= k < |t| - 1 ==> Without(t, i)[k] == t[Skip(i, k)]
  {
  }

  lemma OrderedDrop(ls: seq<seq<Tag>>, g: nat, i: nat, bound: nat)
    requires Ordered(ls, bound) && g < |ls| && i < |ls[g]|
    ensures Ordered(ls[g := Without(ls[g], i)], bound)
  {
    hide Without;
    var t := Without(ls[g], i);
    var fewer := ls[g := t];
    WithoutAt(ls[g], i);
    assert forall h :: 0 <= h < |ls| ==> fewer[h] == if h == g then t else ls[h];
  }

  lemma OrderedPush(ls: seq<seq<Tag>>, t: Tag)
    requires ls != [] && Ordered(ls, t.n) && t.src == Client
    ensures Ordered(WithLast(ls, Last(ls) + [t]), t.n + 1)
  {
  }

  lemma OrderedMore(ls: seq<seq<Tag>>, bound: nat, more: nat)
    requires Ordered(ls, bound) && bound <= more
    ensures Ordered(ls, more)
  {
  }

  lemma OrderedNew(ls: seq<seq<Tag>>, bound: nat)
    requires Ordered(ls, bound)
    ensures Ordered(ls + [[]], bound)
  {
  }

  lemma QueuedLine(p: Pump, m: Msg)
    ensures Line(Queued(p, m)) == Line(p) + [Tag(m.src, m.n)]
  {
    TagsPush(p.queue, m);
  }

  lemma DequeuedLine(p: Pump)
    requires p.queue != []
    ensures |p.written| + |p.batch| < |Line(p)| && Line(Dequeued(p)) == Without(Line(p), |p.written| + |p.batch|)
  {
    TagsPop(p.queue);
    DropAfter(WroteTags(p.written) + Tags(p.batch), Tag(p.queue[0].src, p.queue[0].n), Tags(p.queue[1..]), []);
  }

  /** Replacing the last pump by one with the same line, or one tag less, keeps the order. */
  lemma LastKept(ps: seq<Pump>, p: Pump, bound: nat)
    requires ps != [] && Ordered(Lines(ps), bound) && Line(p) == Line(Last(ps))
    ensures Ordered(Lines(WithLast(ps, p)), bound)
  {
    hide Line, Ordered;
    assert Lines(WithLast(ps, p)) == Lines(ps);
  }

  lemma PumpKept(ps: seq<Pump>, g: nat, e: PumpEvent, mem: map<nat, string>, bound: nat)
    requires g < |ps| && Ordered(Lines(ps), bound) && PumpStep(ps[g], e, mem).Some?
    ensures Ordered(Lines(ps[g := PumpStep(ps[g], e, mem).value.0]), bound)
  {
    hide Line, Ordered, PumpStep, Without;
    var p := PumpStep(ps[g], e, mem).value.0;
    PumpStepLine(ps[g], e, mem);
    assert Lines(ps[g := p]) == Lines(ps)[g := Line(p)];
    if e.WriteFail? || e.DropRest? {
      OrderedDrop(Lines(ps), g, |ps[g].written|, bound);
    } else {
      assert Lines(ps[g := p]) == Lines(ps);
    }
  }

  lemma DequeueKept(ps: seq<Pump>, bound: nat)
    requires ps != [] && Ordered(Lines(ps), bound) && Last(ps).queue != []
    ensures Ordered(Lines(WithLast(ps, Dequeued(Last(ps)))), bound)
  {
    hide Line, Ordered, Without, Dequeued;
    var p := Last(ps);
    DequeuedLine(p);
    OrderedDrop(Lines(ps), |ps| - 1, |p.written| + |p.batch|, bound);
    assert Lines(WithLast(ps, Dequeued(p))) == Lines(ps)[|ps| - 1 := Line(Dequeued(p))];
  }

  lemma QueueKept(ps: seq<Pump>, m: Msg)
    requires ps != [] && Ordered(Lines(ps), m.n) && m.src == Client
    ensures Ordered(Lines(WithLast(ps, Queued(Last(ps), m))), m.n + 1)
  {
    hide Line, Ordered, Queued;
    QueuedLine(Last(ps), m);
    OrderedPush(Lines(ps), Tag(m.src, m.n));
    assert Lines(WithLast(ps, Queued(Last(ps), m))) == WithLast(Lines(ps), Last(Lines(ps)) + [Tag(m.src, m.n)]);
  }

  lemma NewKept(ps: seq<Pump>, bound: nat)
    requires Ordered(Lines(ps), bound)
    ensures Ordered(Lines(ps + [NEW_PUMP]), bound)
  {
    hide Ordered;
    assert Line(NEW_PUMP) == [];
    assert Lines(ps + [NEW_PUMP]) == Lines(ps) + [[]];
    OrderedNew(Lines(ps), bound);
  }

  /** The number below which all queued and written client messages lie. */
  function Bound(b: Bridge): nat {
    if b.main.ToBackend? then b.main.m.n else b.client.taken
  }

  ghost predicate Sends(b: Bridge) {
    && b.pumps != []
    && b.client.src == Client && Consecutive(b.client)
    && (b.main.ToBackend? ==> b.main.m.src == Client && b.main.m.n + 1 == b.client.taken)
    && Ordered(Lines(b.pumps), Bound(b))
  }

  lemma FlagLines(p: Pump)
    ensures Line(p.(done := true)) == Line(p) && Line(p.(err := false)) == Line(p)
  {
  }

  lemma StopSends(b: Bridge, bound: nat)
    requires b.pumps != [] && b.readers != [] && Ordered(Lines(b.pumps), bound)
    ensures Ordered(Lines(StopBackend(b).pumps), bound) && Ordered(Lines(ErrTaken(b).pumps), bound)
  {
    hide Line, Ordered;
    var p := Last(b.pumps);
    FlagLines(p);
    LastKept(b.pumps, p.(done := true), bound);
    LastKept(b.pumps, p.(err := false), bound);
  }

  lemma SwapOrCloseSends(b: Bridge, swap: bool)
    requires b.pumps != [] && b.readers != [] && Sends(b)
    ensures Sends(SwapOrClose(b, swap)) && Sends(SwapOrClose(ErrTaken(b), swap))
  {
    hide Line, Ordered, Consecutive;
    OrderedMore(Lines(b.pumps), Bound(b), b.client.taken);
    StopSends(b, b.client.taken);
    StopSends(ErrTaken(b), b.client.taken);
  }

  lemma SideSends(b: Bridge, e: Event)
    requires Sends(b) && SideStep(b, e).Some?
    ensures Sends(SideStep(b, e).value.b)
  {
    hide Line, Ordered, Consecutive, PumpStep, InletStep;
    match e
    case ClientWrites(p) =>
    case BackendWrites(g, p) =>
      PumpKept(b.pumps, g, p, b.heap.mem, Bound(b));
    case ClientReads(r) =>
      InletStepConsecutive(b.client, r);
    case BackendReads(g, r) =>
  }

  lemma RelaySends(b: Bridge, e: Event)
    requires Sends(b) && RelayStep(b, e).Some?
    ensures Sends(RelayStep(b, e).value.b)
  {
    hide Line, Ordered, Consecutive, SwapOrClose, ErrTaken, Queued;
    match e
    case TakeClient =>
      ReceivedFacts(b.client);
    case SendBackend =>
      QueueKept(b.pumps, b.main.m);
    case SendBackendFails(swap) =>
      SwapOrCloseSends(b, swap);
    case BackendEnded(swap) =>
      SwapOrCloseSends(b, swap);
    case BackendWriteErr(swap) =>
      SwapOrCloseSends(b, swap);
    case SwapRequested =>
      StopSends(b, Bound(b));
    case _ =>
  }

  lemma SwapSends(b: Bridge, e: Event)
    requires Sends(b) && SwapStep(b, e).Some?
    ensures Sends(SwapStep(b, e).value.b)
  {
    hide Line, Ordered, Consecutive, Dequeued, Queued;
    match e
    case DrainOne =>
      DequeueKept(b.pumps, Bound(b));
    case Dialed(ok) =>
      NewKept(b.pumps, Bound(b));
    case ForwardOne =>
      if b.client.ch != [] {
        ReceivedFacts(b.client);
        QueueKept(b.pumps, b.client.ch[0]);
        OrderedMore(Lines(b.pumps), Bound(b), b.client.taken + 1);
      }
    case Shut =>
      StopSends(b, Bound(b));
      assert Consecutive(b.client.(cancelled := true)) by { FlagConsecutive(b.client); }
    case ShutDrain =>
      DequeueKept(b.pumps, Bound(b));
    case _ =>
  }

  lemma FlagConsecutive(i: Inlet)
    requires Consecutive(i)
    ensures Consecutive(i.(cancelled := true))
  {
  }

  lemma SendsStep(payload: Payload, b: Bridge, e: Event, b': Bridge)
    requires Sends(b) && Next(payload, b, e) == Some(b')
    ensures Sends(b')
  {
    hide Line, Ordered, Consecutive, SideStep, RelayStep, SwapStep, Next;
    StepKinds(payload, b, e, b');
    if SideStep(b, e).Some? { SideSends(b, e); }
    if RelayStep(b, e).Some? { RelaySends(b, e); }
    if SwapStep(b, e).Some? { SwapSends(b, e); }
  }
}
