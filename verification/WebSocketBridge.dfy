/**
 * WSBridge as a step system: one client reader, a client write pump, and for every backend connection a
 * reader and a write pump. Pumps and readers of replaced connections keep running beside the new ones.
 */
module WebSocketBridge {
  import opened Basics
  import opened BridgeParts

  /** Where the main loop stands; `ToBackend` and `ToClient` hold a received message. */
  datatype Main = Select | ToBackend(m: Msg) | ToClient(m: Msg) | Draining | Forwarding | Closing | Closed

  /** Connection `g` has pump `pumps[g]` and, once the swap to it is complete, reader `readers[g]`. */
  datatype Bridge = Bridge(heap: Heap, client: Inlet, pumps: seq<Pump>, readers: seq<Inlet>, clientPump: Pump,
                           main: Main, forwarded: seq<Tag>)

  const START := Bridge(Heap(map[], {}, 0), NewInlet(Client), [NEW_PUMP], [NewInlet(Backend(0))], NEW_PUMP, Select, [])

  datatype Event =
    | ClientWrites(p: PumpEvent)
    | BackendWrites(g: nat, p: PumpEvent)
    | ClientReads(r: ReadEvent)
    | BackendReads(g: nat, r: ReadEvent)
    | Abort(buf: nat, junk: string)        // a read fails half-way through a message
    | PoolDrop(buf: nat)                   // the pool forgets a buffer
    | TakeClient
    | SendBackend
    | SendBackendFails(swap: bool)
    | TakeBackend
    | SendClient
    | SendClientFails
    | ClientEnded
    | BackendEnded(swap: bool)
    | BackendWriteErr(swap: bool)
    | ClientWriteErr
    | SwapRequested
    | DrainOne
    | Dialed(ok: bool)
    | ForwardOne
    | ForwardDone
    | Shut
    | ShutDrain

  function Last<T>(s: seq<T>): T
    requires s != []
  {
    s[|s| - 1]
  }

  function WithLast<T>(s: seq<T>, x: T): (r: seq<T>)
    requires s != []
    ensures |r| == |s| && Last(r) == x
  {
    s[|s| - 1 := x]
  }

  /** A step of everything but the buffers, with the message it read, released or dropped without release. */
  datatype Out = Out(b: Bridge, got: Option<Msg>, freed: Option<Msg>, leaked: Option<Msg>)

  function Plain(b: Bridge): Option<Out> {
    Some(Out(b, None, None, None))
  }

  function Freeing(b: Bridge, m: Msg): Option<Out> {
    Some(Out(b, None, Some(m), None))
  }

  /** doSwap begins: cancel the old reader and stop the old pump. */
  function StopBackend(b: Bridge): Bridge
    requires b.pumps != [] && b.readers != []
  {
    b.(pumps := WithLast(b.pumps, Last(b.pumps).(done := true)),
       readers := WithLast(b.readers, Last(b.readers).(cancelled := true)), main := Draining)
  }

  function SwapOrClose(b: Bridge, swap: bool): Bridge
    requires b.pumps != [] && b.readers != []
  {
    if swap then StopBackend(b) else b.(main := Closing)
  }

  function Queued(p: Pump, m: Msg): Pump {
    p.(queue := p.queue + [m])
  }

  function Dequeued(p: Pump): Pump
    requires p.queue != []
  {
    p.(queue := p.queue[1..])
  }

  function ErrTaken(b: Bridge): Bridge
    requires b.pumps != []
  {
    b.(pumps := WithLast(b.pumps, Last(b.pumps).(err := false)))
  }

  /** Steps of the pumps and readers. */
  function SideStep(b: Bridge, e: Event): Option<Out> {
    match e
    case ClientWrites(p) =>
      var r := PumpStep(b.clientPump, p, b.heap.mem);
      if r.Some? then Some(Out(b.(clientPump := r.value.0), None, r.value.1, None)) else None
    case BackendWrites(g, p) =>
      if g >= |b.pumps| then None else
        var r := PumpStep(b.pumps[g], p, b.heap.mem);
        if r.Some? then Some(Out(b.(pumps := b.pumps[g := r.value.0]), None, r.value.1, None)) else None
    case ClientReads(r) =>
      var i := InletStep(b.client, r);
      if i.Some? then Some(Out(b.(client := i.value.0), i.value.1, i.value.2, None)) else None
    case BackendReads(g, r) =>
      if g >= |b.readers| then None else
        var i := InletStep(b.readers[g], r);
        if i.Some? then Some(Out(b.(readers := b.readers[g := i.value.0]), i.value.1, i.value.2, None)) else None
    case _ => None
  }

  /** Steps of the main loop that relay messages or notice the end of a connection. */
  function RelayStep(b: Bridge, e: Event): Option<Out> {
    if b.pumps == [] || b.readers == [] then None else
      match e
      case TakeClient =>
        if b.main.Select? && b.client.ch != [] then
          Plain(b.(client := Received(b.client), main := ToBackend(b.client.ch[0])))
        else None
      case SendBackend =>
        if b.main.ToBackend? && |Last(b.pumps).queue| < QUEUE then
          Plain(b.(pumps := WithLast(b.pumps, Queued(Last(b.pumps), b.main.m)), main := Select))
        else None
      case SendBackendFails(swap) =>
        if b.main.ToBackend? && Last(b.pumps).err then Freeing(SwapOrClose(ErrTaken(b), swap), b.main.m) else None
      case TakeBackend =>
        if b.main.Select? && Last(b.readers).ch != [] then
          Plain(b.(readers := WithLast(b.readers, Received(Last(b.readers))), main := ToClient(Last(b.readers).ch[0])))
        else None
      case SendClient =>
        if b.main.ToClient? && |b.clientPump.queue| < QUEUE then
          Plain(b.(clientPump := Queued(b.clientPump, b.main.m), main := Select,
                   forwarded := b.forwarded + [Tag(b.main.m.src, b.main.m.n)]))
        else None
      case SendClientFails =>
        if b.main.ToClient? && b.clientPump.err then Freeing(b.(main := Closing), b.main.m) else None
      case ClientEnded =>
        if b.main.Select? && b.client.ch == [] && b.client.ended then Plain(b.(main := Closing)) else None
      case BackendEnded(swap) =>
        if b.main.Select? && Last(b.readers).ch == [] && Last(b.readers).ended then Plain(SwapOrClose(b, swap))
          else None
      case BackendWriteErr(swap) =>
        if b.main.Select? && Last(b.pumps).err then Plain(SwapOrClose(ErrTaken(b), swap)) else None
      case ClientWriteErr =>
        if b.main.Select? && b.clientPump.err then Plain(b.(main := Closing)) else None
      case SwapRequested =>
        if !b.main.Select? then None
        else if Last(b.readers).ch != [] then
          Some(Out(StopBackend(b.(readers := WithLast(b.readers, Received(Last(b.readers))))), None, None,
            Some(Last(b.readers).ch[0])))
        else if Last(b.readers).ended then Plain(StopBackend(b))
        else None
      case _ => None
  }

  /** Steps of a swap and of the shutdown. */
  function SwapStep(b: Bridge, e: Event): Option<Out> {
    if b.pumps == [] || b.readers == [] then None else
      match e
      case DrainOne =>
        if b.main.Draining? && Last(b.pumps).queue != [] then
          Freeing(b.(pumps := WithLast(b.pumps, Dequeued(Last(b.pumps)))), Last(b.pumps).queue[0])
        else None
      case Dialed(ok) =>
        if !b.main.Draining? || Last(b.pumps).queue != [] then None
        else if ok then Plain(b.(pumps := b.pumps + [NEW_PUMP], main := Forwarding))
        else Plain(b.(main := Closing))
      case ForwardOne =>
        if !b.main.Forwarding? then None
        else if b.client.ch == [] then (if b.client.ended then Plain(b.(main := Closing)) else None)
        else if |Last(b.pumps).queue| < QUEUE then
          Plain(b.(client := Received(b.client), pumps := WithLast(b.pumps, Queued(Last(b.pumps), b.client.ch[0]))))
        else Freeing(b.(client := Received(b.client), main := Closing), b.client.ch[0])
      case ForwardDone =>
        if b.main.Forwarding? && b.client.ch == [] && !b.client.ended then
          Plain(b.(readers := b.readers + [NewInlet(Backend(|b.readers|))], main := Select))
        else None
      case Shut =>
        if b.main.Closing? then
          Plain(StopBackend(b).(client := b.client.(cancelled := true), clientPump := b.clientPump.(done := true),
            main := Closed))
        else None
      case ShutDrain =>
        if b.main.Closed? && Last(b.pumps).queue != [] then
          Freeing(b.(pumps := WithLast(b.pumps, Dequeued(Last(b.pumps)))), Last(b.pumps).queue[0])
        else None
      case _ => None
  }

  function Move(b: Bridge, e: Event): Option<Out> {
    match e
    case ClientWrites(_) => SideStep(b, e)
    case BackendWrites(_, _) => SideStep(b, e)
    case ClientReads(_) => SideStep(b, e)
    case BackendReads(_, _) => SideStep(b, e)
    case DrainOne => SwapStep(b, e)
    case Dialed(_) => SwapStep(b, e)
    case ForwardOne => SwapStep(b, e)
    case ForwardDone => SwapStep(b, e)
    case Shut => SwapStep(b, e)
    case ShutDrain => SwapStep(b, e)
    case _ => RelayStep(b, e)
  }

  function Next(payload: Payload, b: Bridge, e: Event): Option<Bridge> {
    match e
    case Abort(buf, junk) =>
      if CanGet(b.heap, buf) then Some(b.(heap := Put(Get(b.heap, buf, junk), buf))) else None
    case PoolDrop(buf) =>
      Some(b.(heap := b.heap.(pool := b.heap.pool - {buf})))
    case _ =>
      var o := Move(b, e);
      if o.None? then None
      else if o.value.got.Some? then
        var m := o.value.got.value;
        if CanGet(b.heap, m.buf)
          then Some(o.value.b.(heap := Free(Get(b.heap, m.buf, payload(m.src, m.n)), o.value.freed))) else None
      else Some(o.value.b.(heap := Free(b.heap, o.value.freed)))
  }

  /** A step is one of the three kinds, or touches the buffers only. */
  lemma StepKinds(payload: Payload, b: Bridge, e: Event, b': Bridge)
    requires Next(payload, b, e) == Some(b')
    ensures || b' == b.(heap := b'.heap)
            || (SideStep(b, e).Some? && b' == SideStep(b, e).value.b.(heap := b'.heap))
            || (RelayStep(b, e).Some? && b' == RelayStep(b, e).value.b.(heap := b'.heap))
            || (SwapStep(b, e).Some? && b' == SwapStep(b, e).value.b.(heap := b'.heap))
  {
    hide SideStep, RelayStep, SwapStep;
  }

  ghost predicate Run(payload: Payload, states: seq<Bridge>, events: seq<Event>) {
    && |states| == |events| + 1 && states[0] == START
    && forall i :: 0 <= i < |events| ==> Next(payload, states[i], events[i]) == Some(states[i + 1])
  }
}
