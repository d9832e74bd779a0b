/** The parts of a WebSocket bridge: pooled buffers, write pumps and readers. */
module BridgeParts {
  import opened Basics

  datatype Source = Client | Backend(gen: nat)

  /** Message number `n` of a connection, in a pooled buffer. */
  datatype Msg = Msg(src: Source, n: nat, buf: nat)

  /** A message as it was written to a connection. */
  datatype Wrote = Wrote(src: Source, n: nat, data: string)

  /** What each connection sends. */
  type Payload = (Source, nat) -> string

  // -- Buffers ---------------------------------------------------------------------------------

  /** Buffer contents, the buffers in the pool, and the next buffer to allocate. */
  datatype Heap = Heap(mem: map<nat, string>, pool: set<nat>, next: nat)

  predicate CanGet(h: Heap, buf: nat) {
    buf in h.pool || buf == h.next
  }

  /** Takes a buffer from the pool, or a new one, and reads a message into it. */
  function Get(h: Heap, buf: nat, data: string): Heap {
    Heap(h.mem[buf := data], h.pool - {buf}, if buf == h.next then h.next + 1 else h.next)
  }

  function Put(h: Heap, buf: nat): Heap {
    h.(pool := h.pool + {buf})
  }

  function Free(h: Heap, m: Option<Msg>): Heap {
    if m.Some? then Put(h, m.value.buf) else h
  }

  function One(m: Option<Msg>): multiset<Msg> {
    if m.Some? then multiset{m.value} else multiset{}
  }

  /** Every live message owns its buffer alone, outside the pool, and finds its payload in it. */
  ghost predicate Owns(h: Heap, live: multiset<Msg>, payload: Payload) {
    && (forall b :: b in h.pool ==> b < h.next)
    && (forall m :: m in live ==> live[m] == 1 && m.buf < h.next && m.buf !in h.pool)
    && (forall m :: m in live ==> m.buf in h.mem && h.mem[m.buf] == payload(m.src, m.n))
    && (forall m, o :: m in live && o in live && m.buf == o.buf ==> m == o)
  }

  lemma OwnsFree(h: Heap, live: multiset<Msg>, payload: Payload, freed: Option<Msg>)
    requires Owns(h, live + One(freed), payload)
    ensures Owns(Free(h, freed), live, payload)
    ensures freed.Some? ==> freed.value.buf !in h.pool
  {
    if freed.Some? {
      var all := live + multiset{freed.value};
      assert freed.value in all;
      assert forall m :: m in live ==> m in all;
      assert freed.value !in live;
      assert all == live + One(freed);
    } else {
      assert live + One(freed) == live;
    }
  }

  lemma OwnsLess(h: Heap, live: multiset<Msg>, payload: Payload, gone: multiset<Msg>)
    requires Owns(h, live + gone, payload)
    ensures Owns(h, live, payload)
  {
    assert forall m :: m in live ==> m in live + gone;
  }

  lemma OwnsGet(h: Heap, live: multiset<Msg>, payload: Payload, m: Msg)
    requires Owns(h, live, payload) && CanGet(h, m.buf)
    ensures Owns(Get(h, m.buf, payload(m.src, m.n)), live + multiset{m}, payload)
  {
    assert forall o :: o in live ==> o.buf != m.buf;
    assert forall o :: o in live + multiset{m} <==> o in live || o == m;
  }

  /** A read that fails half-way returns its buffer with whatever it holds. */
  lemma OwnsAbort(h: Heap, live: multiset<Msg>, payload: Payload, buf: nat, junk: string)
    requires Owns(h, live, payload) && CanGet(h, buf)
    ensures Owns(Put(Get(h, buf, junk), buf), live, payload)
  {
  }

  lemma OwnsPoolDrop(h: Heap, live: multiset<Msg>, payload: Payload, buf: nat)
    requires Owns(h, live, payload)
    ensures Owns(h.(pool := h.pool - {buf}), live, payload)
  {
  }

  // -- Write pumps ---------------------------------------------------------------------------------

  datatype Mode = Collecting | Writing | Failing | Stopped

  const QUEUE := 16
  const BATCH := 16

  /** wsWritePump with its channel; `err` is a pending error report, `written` what the connection got. */
  datatype Pump = Pump(queue: seq<Msg>, batch: seq<Msg>, mode: Mode, err: bool, done: bool, written: seq<Wrote>)

  const NEW_PUMP := Pump([], [], Collecting, false, false, [])

  datatype PumpEvent = Take | StartWrite | WriteOk | WriteFail | DropRest | EndBatch | Quit

  function PumpStep(p: Pump, e: PumpEvent, mem: map<nat, string>): Option<(Pump, Option<Msg>)> {
    match e
    case Take =>
      if p.mode.Collecting? && p.queue != [] && |p.batch| < BATCH then
        Some((p.(batch := p.batch + [p.queue[0]], queue := p.queue[1..]), None))
      else None
    case StartWrite =>
      if p.mode.Collecting? && p.batch != [] then Some((p.(mode := Writing), None)) else None
    case WriteOk =>
      if p.mode.Writing? && p.batch != [] && p.batch[0].buf in mem then
        var m := p.batch[0];
        Some((p.(batch := p.batch[1..], written := p.written + [Wrote(m.src, m.n, mem[m.buf])]), Some(m)))
      else None
    case WriteFail =>
      if p.mode.Writing? && p.batch != [] then Some((p.(batch := p.batch[1..], mode := Failing), Some(p.batch[0])))
        else None
    case DropRest =>
      if p.mode.Failing? && p.batch != [] then Some((p.(batch := p.batch[1..]), Some(p.batch[0]))) else None
    case EndBatch =>
      if p.batch != [] then None
      else if p.mode.Writing? then Some((p.(mode := Collecting), None))
      else if p.mode.Failing? then Some((p.(mode := Stopped, err := true), None))
      else None
    case Quit =>
      if p.mode.Collecting? && p.batch == [] && p.done then Some((p.(mode := Stopped), None)) else None
  }

  ghost function PumpLive(p: Pump): multiset<Msg> {
    multiset(p.batch) + multiset(p.queue)
  }

  lemma HeadTail(s: seq<Msg>)
    requires s != []
    ensures multiset(s) == multiset{s[0]} + multiset(s[1..])
  {
    assert s == [s[0]] + s[1..];
  }

  lemma TakeLive(batch: seq<Msg>, queue: seq<Msg>)
    requires queue != []
    ensures multiset(batch + [queue[0]]) + multiset(queue[1..]) == multiset(batch) + multiset(queue)
  {
    HeadTail(queue);
  }

  lemma PopLive(batch: seq<Msg>, queue: seq<Msg>)
    requires batch != []
    ensures multiset(batch) + multiset(queue) == multiset(batch[1..]) + multiset(queue) + One(Some(batch[0]))
  {
    HeadTail(batch);
  }

  lemma NoneLive(live: multiset<Msg>)
    ensures live + One(None) == live
  {
  }

  lemma PumpStepLive(p: Pump, e: PumpEvent, mem: map<nat, string>)
    requires PumpStep(p, e, mem).Some?
    ensures var (p', freed) := PumpStep(p, e, mem).value;
            PumpLive(p) == PumpLive(p') + One(freed)
  {
    hide One;
    var p' := PumpStep(p, e, mem).value.0;
    NoneLive(PumpLive(p'));
    if e.Take? {
      TakeLive(p.batch, p.queue);
    } else if e.WriteOk? || e.WriteFail? || e.DropRest? {
      PopLive(p.batch, p.queue);
    }
  }

  /** Everything a pump was given, by source and number: written, in hand, queued. */
  datatype Tag = Tag(src: Source, n: nat)

  function Tags(s: seq<Msg>): (t: seq<Tag>)
    ensures |t| == |s| && forall i :: 0 <= i < |s| ==> t[i] == Tag(s[i].src, s[i].n)
  {
    seq(|s|, i requires 0 <= i < |s| => Tag(s[i].src, s[i].n))
  }

  function WroteTags(s: seq<Wrote>): (t: seq<Tag>)
    ensures |t| == |s| && forall i :: 0 <= i < |s| ==> t[i] == Tag(s[i].src, s[i].n)
  {
    seq(|s|, i requires 0 <= i < |s| => Tag(s[i].src, s[i].n))
  }

  function Line(p: Pump): seq<Tag> {
    WroteTags(p.written) + Tags(p.batch) + Tags(p.queue)
  }

  /** `t` without the element at position `i`. */
  function Without(t: seq<Tag>, i: nat): seq<Tag>
    requires i < |t|
  {
    t[..i] + t[i + 1..]
  }

  predicate Failed(p: Pump) {
    p.mode.Failing? || p.mode.Stopped?
  }

  lemma TagsPop(s: seq<Msg>)
    requires s != []
    ensures Tags(s) == [Tag(s[0].src, s[0].n)] + Tags(s[1..])
  {
  }

  lemma TagsPush(s: seq<Msg>, m: Msg)
    ensures Tags(s + [m]) == Tags(s) + [Tag(m.src, m.n)]
  {
  }

  lemma WroteTagsPush(s: seq<Wrote>, w: Wrote)
    ensures WroteTags(s + [w]) == WroteTags(s) + [Tag(w.src, w.n)]
  {
  }

  lemma DropAfter(a: seq<Tag>, x: Tag, b: seq<Tag>, c: seq<Tag>)
    ensures |a| < |a + ([x] + b) + c| && Without(a + ([x] + b) + c, |a|) == a + b + c
  {
  }

  lemma TakeLine(p: Pump)
    requires p.queue != []
    ensures Line(p.(batch := p.batch + [p.queue[0]], queue := p.queue[1..])) == Line(p)
  {
    TagsPop(p.queue);
    TagsPush(p.batch, p.queue[0]);
  }

  lemma WriteLine(p: Pump, data: string)
    requires p.batch != []
    ensures var m := p.batch[0];
            Line(p.(batch := p.batch[1..], written := p.written + [Wrote(m.src, m.n, data)])) == Line(p)
  {
    TagsPop(p.batch);
    WroteTagsPush(p.written, Wrote(p.batch[0].src, p.batch[0].n, data));
  }

  lemma DropLine(p: Pump)
    requires p.batch != []
    ensures |p.written| < |Line(p)| && Line(p.(batch := p.batch[1..])) == Without(Line(p), |p.written|)
  {
    hide Without;
    TagsPop(p.batch);
    DropAfter(WroteTags(p.written), Tag(p.batch[0].src, p.batch[0].n), Tags(p.batch[1..]), Tags(p.queue));
  }

  /** The line does not depend on the flags. */
  lemma ModeLine(p: Pump, mode: Mode, err: bool)
    ensures Line(p.(mode := mode, err := err)) == Line(p)
  {
  }

  /** A pump step keeps its line, except that a failed write drops the message after the written ones. */
  lemma PumpStepLine(p: Pump, e: PumpEvent, mem: map<nat, string>)
    requires PumpStep(p, e, mem).Some?
    ensures var p' := PumpStep(p, e, mem).value.0;
            if e.WriteFail? || e.DropRest?
            then |p.written| < |Line(p)| && Line(p') == Without(Line(p), |p.written|) && Failed(p')
            else Line(p') == Line(p)
    ensures var p' := PumpStep(p, e, mem).value.0;
            Failed(p) ==> Failed(p') && p'.written == p.written
  {
    hide Without, Line;
    var p' := PumpStep(p, e, mem).value.0;
    match e
    case Take =>
      TakeLine(p);
    case WriteOk =>
      WriteLine(p, mem[p.batch[0].buf]);
    case WriteFail =>
      DropLine(p);
      ModeLine(p.(batch := p.batch[1..]), Failing, p.err);
    case DropRest =>
      DropLine(p);
    case StartWrite =>
      ModeLine(p, Writing, p.err);
    case EndBatch =>
      ModeLine(p, p'.mode, p'.err);
    case Quit =>
      ModeLine(p, Stopped, p.err);
  }

  /** What is written is the payload. */
  ghost predicate Faithful(p: Pump, payload: Payload) {
    forall i :: 0 <= i < |p.written| ==> p.written[i].data == payload(p.written[i].src, p.written[i].n)
  }

  lemma PumpStepFaithful(p: Pump, e: PumpEvent, h: Heap, live: multiset<Msg>, payload: Payload)
    requires PumpStep(p, e, h.mem).Some? && Faithful(p, payload)
    requires Owns(h, live, payload) && PumpLive(p) <= live
    ensures Faithful(PumpStep(p, e, h.mem).value.0, payload)
    ensures e.WriteOk? ==> p.batch[0].buf !in h.pool
  {
    if e.WriteOk? {
      assert p.batch[0] in PumpLive(p);
      assert p.batch[0] in live;
    }
  }

  // -- Readers -----------------------------------------------------------------------------------------

  datatype Hand = Reading | Holding(m: Msg) | Broken | Gone

  const INBOX := 8

  /**
   * wsReadPump with its channel: `taken` messages were received from the channel, `ended` says that the read
   * error is queued behind the messages in `ch`.
   */
  datatype Inlet = Inlet(src: Source, taken: nat, ch: seq<Msg>, ended: bool, hand: Hand, cancelled: bool)

  function NewInlet(src: Source): Inlet {
    Inlet(src, 0, [], false, Reading, false)
  }

  /** The number of the next message this reader will read. */
  function Upcoming(i: Inlet): nat {
    i.taken + |i.ch|
  }

  datatype ReadEvent = ReadOk(buf: nat) | ReadErr | Push | PushErr | Cancelled

  function InletStep(i: Inlet, e: ReadEvent): Option<(Inlet, Option<Msg>, Option<Msg>)> {
    match e
    case ReadOk(buf) =>
      if i.hand.Reading? then
        var m := Msg(i.src, Upcoming(i), buf);
        Some((i.(hand := Holding(m)), Some(m), None))
      else None
    case ReadErr =>
      if i.hand.Reading? then Some((i.(hand := Broken), None, None)) else None
    case Push =>
      if i.hand.Holding? && |i.ch| < INBOX then Some((i.(ch := i.ch + [i.hand.m], hand := Reading), None, None))
        else None
    case PushErr =>
      if i.hand.Broken? && |i.ch| < INBOX then Some((i.(ended := true, hand := Gone), None, None)) else None
    case Cancelled =>
      if !i.cancelled then None
      else if i.hand.Holding? then Some((i.(hand := Gone), None, Some(i.hand.m)))
      else if i.hand.Broken? then Some((i.(hand := Gone), None, None))
      else None
  }

  ghost function InletLive(i: Inlet): multiset<Msg> {
    multiset(i.ch) + if i.hand.Holding? then multiset{i.hand.m} else multiset{}
  }

  lemma InletStepLive(i: Inlet, e: ReadEvent)
    requires InletStep(i, e).Some?
    ensures var (i', got, freed) := InletStep(i, e).value;
            InletLive(i) + One(got) == InletLive(i') + One(freed)
  {
  }

  /** The channel and the reader's hand hold consecutive messages. */
  ghost predicate Consecutive(i: Inlet) {
    && (forall k :: 0 <= k < |i.ch| ==> i.ch[k].src == i.src && i.ch[k].n == i.taken + k)
    && (i.hand.Holding? ==> i.hand.m.src == i.src && i.hand.m.n == i.taken + |i.ch|)
  }

  lemma InletStepConsecutive(i: Inlet, e: ReadEvent)
    requires InletStep(i, e).Some? && Consecutive(i)
    ensures Consecutive(InletStep(i, e).value.0)
    ensures InletStep(i, e).value.0.taken == i.taken && InletStep(i, e).value.0.src == i.src
  {
  }

  /** The main loop receives the first message of the channel. */
  function Received(i: Inlet): Inlet
    requires i.ch != []
  {
    i.(taken := i.taken + 1, ch := i.ch[1..])
  }

  lemma ReceivedFacts(i: Inlet)
    requires i.ch != [] && Consecutive(i)
    ensures Consecutive(Received(i)) && i.ch[0].src == i.src && i.ch[0].n == i.taken
  {
  }
}
