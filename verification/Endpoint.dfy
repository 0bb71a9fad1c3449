// One end of a connection as a transition system: what WebSocketImpl in
// ext/easywsclient/easywsclient.cpp does to its buffers and its state.
module Endpoint {
  import opened Bytes
  import opened Frame
  import opened Stream

  datatype ReadyState = CLOSING | CLOSED | CONNECTING | OPEN

  // accepted, queued, arrived and delivered are histories; the rest are the source's fields.
  datatype Endpoint = Endpoint(
    useMask: bool,
    ready: ReadyState,
    draws: nat,               // how often a masking key has been drawn
    tx: seq<byte>,            // transmit buffer
    rx: seq<byte>,            // receive buffer
    acc: seq<byte>,           // fragments received so far
    queued: seq<Outgoing>,    // frames put into the transmit buffer
    accepted: seq<byte>,      // bytes the socket has taken
    arrived: seq<byte>,       // bytes the socket has given
    delivered: seq<Message>)  // calls of receiveMessage

  function Fresh(useMask: bool, ready: ReadyState): Endpoint {
    Endpoint(useMask, ready, 0, [], [], [], [], [], [], [])
  }

  predicate Ending(r: ReadyState) {
    r == CLOSING || r == CLOSED
  }

  const CLOSE_FRAME: Outgoing := Outgoing(CLOSE, [], true, [0, 0, 0, 0])

  predicate Sendable(opcode: byte, payload: seq<byte>) {
    opcode < 16 && |payload| + MAX_HEADER < U32
  }

  function Queue(e: Endpoint, o: Outgoing): Endpoint
    requires o.Valid()
  {
    e.(queued := e.queued + [o], tx := e.tx + Encode(o))
  }

  // sendData: a key is drawn even when the frame is then dropped.
  function SendData(keys: nat -> Key, e: Endpoint, opcode: byte, payload: seq<byte>): Endpoint
    requires Sendable(opcode, payload)
  {
    var drawn := e.(draws := e.draws + 1);
    if Ending(e.ready) then drawn
    else Queue(drawn, Outgoing(opcode, payload, e.useMask, keys(e.draws)))
  }

  // close.
  function CloseConnection(e: Endpoint): Endpoint {
    if Ending(e.ready) then e else Queue(e.(ready := CLOSING), CLOSE_FRAME)
  }

  // A data frame: straight to the callback, or through the fragments received so far.
  function Deliver(e: Endpoint, f: Incoming): Endpoint {
    if f.fin && e.acc == [] then
      e.(delivered := e.delivered + [Message(f.payload, f.opcode == TEXT_FRAME)])
    else
      var acc := e.acc + f.payload;
      if !f.fin then e.(acc := acc)
      else if acc != [] then e.(acc := [], delivered := e.delivered + [Message(acc, f.opcode == TEXT_FRAME)])
      else e.(acc := [])
  }

  // A frame that passes is acted on and then consumed.
  function Consume(keys: nat -> Key, e: Endpoint, f: Incoming): Endpoint
    requires Sendable(PONG, f.payload) && f.size <= |e.rx|
  {
    var acted :=
      if IsData(f.opcode) then Deliver(e, f)
      else if f.opcode == PING then SendData(keys, e, PONG, f.payload)
      else e;
    acted.(rx := e.rx[f.size..])
  }

  // _dispatchBinary.
  function Dispatch(keys: nat -> Key, e: Endpoint): Endpoint
    decreases |e.rx|
  {
    match Parse(e.rx)
    case Got(f) =>
      ParseSize(e.rx);
      if Passes(f.opcode) then Dispatch(keys, Consume(keys, e, f)) else CloseConnection(e)
    case _ => e
  }

  function Arrive(e: Endpoint, chunk: seq<byte>): Endpoint {
    e.(rx := e.rx + chunk, arrived := e.arrived + chunk)
  }

  datatype Event =
    | SendMessage(opcode: byte, payload: seq<byte>)  // sendText, sendBinary, sendPing
    | CloseCall
    | Received(chunk: seq<byte>)
    | Sent(n: nat)
    | Drained                                        // nothing left to send while closing
    | Failed                                         // the socket gave out, or the handshake did
    | Connected                                      // the handshake is complete
    | Dispatched

  const MAX_READ: nat := 4096

  predicate Enabled(e: Endpoint, ev: Event) {
    match ev
    case SendMessage(opcode, payload) =>
      (opcode == TEXT_FRAME || opcode == BINARY_FRAME || opcode == PING) && Sendable(opcode, payload)
    case CloseCall => true
    case Received(chunk) => (e.ready == OPEN || e.ready == CLOSING) && 0 < |chunk| <= MAX_READ
    case Sent(n) => (e.ready == OPEN || e.ready == CLOSING) && 0 < n <= |e.tx|
    case Drained => e.ready == CLOSING && e.tx == []
    case Failed => e.ready != CLOSED
    case Connected => e.ready == CONNECTING
    case Dispatched => e.ready != CONNECTING
  }

  function Step(keys: nat -> Key, e: Endpoint, ev: Event): Endpoint
    requires Enabled(e, ev)
  {
    match ev
    case SendMessage(opcode, payload) => SendData(keys, e, opcode, payload)
    case CloseCall => CloseConnection(e)
    case Received(chunk) => Arrive(e, chunk)
    case Sent(n) => e.(tx := e.tx[n..], accepted := e.accepted + e.tx[..n])
    case Drained => e.(ready := CLOSED)
    case Failed => e.(ready := CLOSED)
    case Connected => e.(ready := OPEN)
    case Dispatched => Dispatch(keys, e)
  }

  predicate IsRun(keys: nat -> Key, e: Endpoint, evs: seq<Event>)
    decreases |evs|
  {
    evs == [] || (Enabled(e, evs[0]) && IsRun(keys, Step(keys, e, evs[0]), evs[1..]))
  }

  function After(keys: nat -> Key, e: Endpoint, evs: seq<Event>): Endpoint
    requires IsRun(keys, e, evs)
    decreases |evs|
  {
    if evs == [] then e else After(keys, Step(keys, e, evs[0]), evs[1..])
  }

  lemma {:induction false} RunConcat(keys: nat -> Key, e: Endpoint, xs: seq<Event>, ys: seq<Event>)
    requires IsRun(keys, e, xs) && IsRun(keys, After(keys, e, xs), ys)
    ensures IsRun(keys, e, xs + ys) && After(keys, e, xs + ys) == After(keys, After(keys, e, xs), ys)
    decreases |xs|
  {
    if xs == [] {
      assert xs + ys == ys;
    } else {
      assert (xs + ys)[1..] == xs[1..] + ys;
      RunConcat(keys, Step(keys, e, xs[0]), xs[1..], ys);
    }
  }

  // One more event at the end of a run.
  lemma RunSnoc(keys: nat -> Key, e: Endpoint, xs: seq<Event>, ev: Event)
    requires IsRun(keys, e, xs) && Enabled(After(keys, e, xs), ev)
    ensures IsRun(keys, e, xs + [ev]) && After(keys, e, xs + [ev]) == Step(keys, After(keys, e, xs), ev)
  {
    var last := After(keys, e, xs);
    var next := Step(keys, last, ev);
    assert [ev][1..] == [];
    assert IsRun(keys, next, []) && After(keys, next, []) == next;
    assert IsRun(keys, last, [ev]) && After(keys, last, [ev]) == next;
    RunConcat(keys, e, xs, [ev]);
  }

  lemma {:induction false} RunOne(keys: nat -> Key, e: Endpoint, ev: Event)
    requires Enabled(e, ev)
    ensures IsRun(keys, e, [ev]) && After(keys, e, [ev]) == Step(keys, e, ev)
  {
    assert [ev][1..] == [];
  }

  // What one call of poll does to an open connection, in order: all it can receive, all it can
  // send, then either a failure, or the end of a closing connection and a dispatch.
  datatype PollLog = PollLog(received: seq<Event>, sent: seq<Event>, failed: bool, drained: bool, dispatched: bool) {
    function Events(): seq<Event> {
      received + sent + Just(failed, Failed) + Just(drained, Drained) + Just(dispatched, Dispatched)
    }

    ghost predicate WellFormed() {
      && (forall i :: 0 <= i < |received| ==> received[i].Received?)
      && (forall i :: 0 <= i < |sent| ==> sent[i].Sent?)
      && (failed ==> !drained && !dispatched)
    }
  }

  function Just(yes: bool, ev: Event): seq<Event> {
    if yes then [ev] else []
  }

  lemma TransferEvents(received: seq<Event>, sent: seq<Event>, failed: bool)
    ensures PollLog(received, sent, failed, false, false).Events() == received + (sent + Just(failed, Failed))
  {
  }

  lemma FinishEvents(log: PollLog, drained: bool, dispatched: bool)
    requires !log.drained && !log.dispatched
    ensures log.(drained := drained, dispatched := dispatched).Events()
         == log.Events() + (Just(drained, Drained) + Just(dispatched, Dispatched))
  {
  }

  lemma InEvents(log: PollLog)
    requires log.WellFormed()
    ensures Failed in log.Events() <==> log.failed
    ensures Dispatched in log.Events() <==> log.dispatched
  {
    assert Failed in Just(true, Failed) && Dispatched in Just(true, Dispatched);
  }

  // ---- When no buffer refuses ----

  const MAX_BUFFER: nat := 1024 * 1024 * 512

  // What dispatching all that has been received can come to put into the buffers, and then some.
  function Load(e: Endpoint): nat {
    2 * |e.tx| + 2 * |e.acc| + 16 * |e.rx| + 98
  }

  predicate Bearable(e: Endpoint) {
    Sane(e.rx) && Load(e) <= MAX_BUFFER
  }

  lemma EncodeSize(o: Outgoing)
    requires o.Valid()
    ensures |Encode(o)| <= MAX_HEADER + |o.payload|
  {
  }

  lemma ConsumeLoad(keys: nat -> Key, e: Endpoint, f: Incoming)
    requires Sendable(PONG, f.payload) && |f.payload| + 2 <= f.size <= |e.rx|
    ensures Load(Consume(keys, e, f)) <= Load(e)
  {
    EncodeSize(Outgoing(PONG, f.payload, e.useMask, keys(e.draws)));
  }

  // ---- Chunking ----

  lemma ConsumeArrive(keys: nat -> Key, e: Endpoint, f: Incoming, chunk: seq<byte>)
    requires Sendable(PONG, f.payload) && f.size <= |e.rx|
    ensures Consume(keys, Arrive(e, chunk), f) == Arrive(Consume(keys, e, f), chunk)
  {
    assert (e.rx + chunk)[f.size..] == e.rx[f.size..] + chunk;
  }

  // Dispatching before more bytes arrive makes no difference once they have been dispatched too.
  lemma {:induction false} ChunkingStep(keys: nat -> Key, e: Endpoint, chunk: seq<byte>)
    ensures Dispatch(keys, Arrive(Dispatch(keys, e), chunk)) == Dispatch(keys, Arrive(e, chunk))
    decreases |e.rx|
  {
    ParseStable(e.rx, chunk);
    match Parse(e.rx)
    case Got(f) =>
      ParseSize(e.rx);
      if Passes(f.opcode) {
        ConsumeArrive(keys, e, f, chunk);
        ChunkingStep(keys, Consume(keys, e, f), chunk);
      }
    case _ =>
  }

  function DispatchEach(keys: nat -> Key, e: Endpoint, chunks: seq<seq<byte>>): Endpoint
    decreases |chunks|
  {
    if chunks == [] then e else DispatchEach(keys, Dispatch(keys, Arrive(e, chunks[0])), chunks[1..])
  }

  lemma ArriveNone(e: Endpoint)
    ensures Arrive(e, []) == e
  {
  }

  lemma ArriveTwice(e: Endpoint, a: seq<byte>, b: seq<byte>)
    ensures Arrive(Arrive(e, a), b) == Arrive(e, a + b)
  {
    assert e.rx + (a + b) == (e.rx + a) + b;
    assert e.arrived + (a + b) == (e.arrived + a) + b;
  }

  // However a stream is cut up, dispatching after every piece ends where dispatching once does.
  lemma {:induction false} ChunkingInvariance(keys: nat -> Key, e: Endpoint, chunks: seq<seq<byte>>)
    ensures Dispatch(keys, DispatchEach(keys, e, chunks)) == Dispatch(keys, Arrive(e, Join(chunks)))
    decreases |chunks|
  {
    if chunks == [] {
      ArriveNone(e);
    } else {
      var first, rest := Arrive(e, chunks[0]), Join(chunks[1..]);
      ChunkingInvariance(keys, Dispatch(keys, first), chunks[1..]);
      ChunkingStep(keys, first, rest);
      ArriveTwice(e, chunks[0], rest);
    }
  }

  lemma {:induction false} DispatchEachSettled(keys: nat -> Key, e: Endpoint, chunks: seq<seq<byte>>)
    requires chunks != []
    ensures Dispatch(keys, DispatchEach(keys, e, chunks)) == DispatchEach(keys, e, chunks)
    decreases |chunks|
  {
    var next := Dispatch(keys, Arrive(e, chunks[0]));
    if |chunks| == 1 {
      DispatchSettles(keys, Arrive(e, chunks[0]));
    } else {
      DispatchEachSettled(keys, next, chunks[1..]);
    }
  }

  // With at least one piece, the dispatch after the last one is all it takes.
  lemma ChunkingExact(keys: nat -> Key, e: Endpoint, chunks: seq<seq<byte>>)
    requires chunks != []
    ensures DispatchEach(keys, e, chunks) == Dispatch(keys, Arrive(e, Join(chunks)))
  {
    DispatchEachSettled(keys, e, chunks);
    ChunkingInvariance(keys, e, chunks);
  }

  // After a dispatch another one changes nothing.
  lemma {:induction false} DispatchSettles(keys: nat -> Key, e: Endpoint)
    ensures Frames(Dispatch(keys, e).rx) == []
    ensures Dispatch(keys, Dispatch(keys, e)) == Dispatch(keys, e)
    decreases |e.rx|
  {
    match Parse(e.rx)
    case Got(f) =>
      ParseSize(e.rx);
      if Passes(f.opcode) {
        DispatchSettles(keys, Consume(keys, e, f));
      }
    case _ =>
  }

  // A complete frame that a dispatch leaves behind has ended the connection.
  lemma {:induction false} DispatchCloses(keys: nat -> Key, e: Endpoint)
    ensures var g := Dispatch(keys, e);
            Parse(g.rx).Got? ==> !Passes(Parse(g.rx).frame.opcode) && Ending(g.ready)
    decreases |e.rx|
  {
    match Parse(e.rx)
    case Got(f) =>
      ParseSize(e.rx);
      if Passes(f.opcode) {
        DispatchCloses(keys, Consume(keys, e, f));
      }
    case _ =>
  }

  // ---- The outbound side ----

  ghost predicate AllValid(os: seq<Outgoing>) {
    forall i :: 0 <= i < |os| ==> os[i].Valid()
  }

  function EncodeAll(os: seq<Outgoing>): seq<byte>
    requires AllValid(os)
  {
    if os == [] then [] else EncodeAll(os[..|os| - 1]) + Encode(os[|os| - 1])
  }

  // Every byte queued has been accepted or is waiting, in order; and once the connection is
  // ending the close frame is the last of them and the only one that does not pass.
  ghost predicate Outbound(e: Endpoint) {
    && AllValid(e.queued)
    && e.accepted + e.tx == EncodeAll(e.queued)
    && (forall i :: 0 <= i < |e.queued| - 1 ==> Passes(e.queued[i].opcode))
    && (e.queued != [] ==> Passes(Last(e).opcode) || (Ending(e.ready) && Last(e) == CLOSE_FRAME))
    && (e.ready == CLOSING ==> e.queued != [] && Last(e) == CLOSE_FRAME)
  }

  ghost function Last(e: Endpoint): Outgoing
    requires e.queued != []
  {
    e.queued[|e.queued| - 1]
  }

  lemma EncodeAllSnoc(os: seq<Outgoing>, o: Outgoing)
    requires AllValid(os) && o.Valid()
    ensures AllValid(os + [o]) && EncodeAll(os + [o]) == EncodeAll(os) + Encode(o)
  {
    assert (os + [o])[..|os|] == os;
  }

  lemma {:induction false} EncodeConcat(xs: seq<Outgoing>, ys: seq<Outgoing>)
    requires AllValid(xs) && AllValid(ys)
    ensures AllValid(xs + ys) && EncodeAll(xs + ys) == EncodeAll(xs) + EncodeAll(ys)
    decreases |ys|
  {
    if ys == [] {
      assert xs + ys == xs;
      assert EncodeAll(xs) + [] == EncodeAll(xs);
    } else {
      var n := |ys| - 1;
      var init, last := ys[..n], ys[n];
      EncodeConcat(xs, init);
      assert init + [last] == ys;
      ConcatSnoc(xs, init, last);
    }
  }

  lemma {:induction false} ConcatSnoc(xs: seq<Outgoing>, ys: seq<Outgoing>, o: Outgoing)
    requires AllValid(xs) && AllValid(ys) && o.Valid() && AllValid(xs + ys)
    requires EncodeAll(xs + ys) == EncodeAll(xs) + EncodeAll(ys)
    ensures AllValid(ys + [o]) && AllValid(xs + (ys + [o]))
    ensures EncodeAll(xs + (ys + [o])) == EncodeAll(xs) + EncodeAll(ys + [o])
  {
    EncodeAllSnoc(ys, o);
    EncodeAllSnoc(xs + ys, o);
    Associative(xs, ys, [o]);
    Associative(EncodeAll(xs), EncodeAll(ys), Encode(o));
  }

  lemma {:induction false} EncodeHead(os: seq<Outgoing>)
    requires AllValid(os) && os != []
    ensures AllValid(os[1..]) && EncodeAll(os) == Encode(os[0]) + EncodeAll(os[1..])
  {
    assert [os[0]] + os[1..] == os;
    EncodeConcat([os[0]], os[1..]);
    EncodeOne(os[0]);
  }

  lemma {:induction false} EncodeOne(o: Outgoing)
    requires o.Valid()
    ensures AllValid([o]) && EncodeAll([o]) == Encode(o)
  {
    assert [] + [o] == [o];
    EncodeAllSnoc([], o);
  }

  lemma QueueStream(e: Endpoint, o: Outgoing)
    requires AllValid(e.queued) && e.accepted + e.tx == EncodeAll(e.queued) && o.Valid()
    ensures AllValid(Queue(e, o).queued) && Queue(e, o).accepted + Queue(e, o).tx == EncodeAll(Queue(e, o).queued)
  {
    EncodeAllSnoc(e.queued, o);
    Associative(e.accepted, e.tx, Encode(o));
  }

  lemma QueueOutbound(e: Endpoint, o: Outgoing)
    requires Outbound(e) && !Ending(e.ready) && o.Valid() && Passes(o.opcode)
    ensures Outbound(Queue(e, o))
  {
    QueueStream(e, o);
    assert Last(Queue(e, o)) == o;
    assert forall i :: 0 <= i < |e.queued| ==> Passes(e.queued[i].opcode);
  }

  lemma SendOutbound(keys: nat -> Key, e: Endpoint, opcode: byte, payload: seq<byte>)
    requires Outbound(e) && Sendable(opcode, payload) && Passes(opcode)
    ensures Outbound(SendData(keys, e, opcode, payload))
  {
    var sent := SendData(keys, e, opcode, payload);
    if Ending(e.ready) {
      SameOutbound(e, sent);
    } else {
      var o := Outgoing(opcode, payload, e.useMask, keys(e.draws));
      QueueOutbound(e, o);
      SameOutbound(Queue(e, o), sent);
    }
  }

  lemma CloseOutbound(e: Endpoint)
    requires Outbound(e)
    ensures Outbound(CloseConnection(e))
  {
    if !Ending(e.ready) {
      QueueStream(e, CLOSE_FRAME);
      assert forall i :: 0 <= i < |e.queued| ==> Passes(e.queued[i].opcode);
    }
  }

  lemma ConsumeOutbound(keys: nat -> Key, e: Endpoint, f: Incoming)
    requires Outbound(e) && Sendable(PONG, f.payload) && f.size <= |e.rx|
    ensures Outbound(Consume(keys, e, f))
  {
    var g := Consume(keys, e, f);
    if f.opcode == PING {
      SendOutbound(keys, e, PONG, f.payload);
      SameOutbound(SendData(keys, e, PONG, f.payload), g);
    } else {
      SameOutbound(e, g);
    }
  }

  lemma SameOutbound(e: Endpoint, g: Endpoint)
    requires Outbound(e)
    requires g.ready == e.ready && g.queued == e.queued && g.tx == e.tx && g.accepted == e.accepted
    ensures Outbound(g)
  {
  }

  lemma {:induction false} DispatchOutbound(keys: nat -> Key, e: Endpoint)
    requires Outbound(e)
    ensures Outbound(Dispatch(keys, e))
    decreases |e.rx|
  {
    match Parse(e.rx)
    case Got(f) =>
      ParseSize(e.rx);
      if Passes(f.opcode) {
        ConsumeOutbound(keys, e, f);
        DispatchOutbound(keys, Consume(keys, e, f));
      } else {
        CloseOutbound(e);
      }
    case _ =>
  }

  lemma SentOutbound(e: Endpoint, n: nat)
    requires Outbound(e) && n <= |e.tx|
    ensures Outbound(e.(tx := e.tx[n..], accepted := e.accepted + e.tx[..n]))
  {
    assert (e.accepted + e.tx[..n]) + e.tx[n..] == e.accepted + e.tx;
  }

  lemma StepOutbound(keys: nat -> Key, e: Endpoint, ev: Event)
    requires Outbound(e) && Enabled(e, ev)
    ensures Outbound(Step(keys, e, ev))
  {
    match ev
    case SendMessage(opcode, payload) => SendOutbound(keys, e, opcode, payload);
    case CloseCall => CloseOutbound(e);
    case Sent(n) => SentOutbound(e, n);
    case Dispatched => DispatchOutbound(keys, e);
    case _ =>
  }

  lemma {:induction false} OutboundConservation(keys: nat -> Key, e: Endpoint, evs: seq<Event>)
    requires Outbound(e) && IsRun(keys, e, evs)
    ensures Outbound(After(keys, e, evs))
    decreases |evs|
  {
    if evs != [] {
      StepOutbound(keys, e, evs[0]);
      OutboundConservation(keys, Step(keys, e, evs[0]), evs[1..]);
    }
  }

  // ---- The lifecycle ----

  function Rank(r: ReadyState): nat {
    match r
    case CONNECTING => 0
    case OPEN => 1
    case CLOSING => 2
    case CLOSED => 3
  }

  lemma {:induction false} DispatchLifecycle(keys: nat -> Key, e: Endpoint)
    ensures Rank(e.ready) <= Rank(Dispatch(keys, e).ready)
    ensures Ending(e.ready) ==> Dispatch(keys, e).ready == e.ready && Dispatch(keys, e).queued == e.queued && Dispatch(keys, e).tx == e.tx
    decreases |e.rx|
  {
    match Parse(e.rx)
    case Got(f) =>
      ParseSize(e.rx);
      if Passes(f.opcode) {
        DispatchLifecycle(keys, Consume(keys, e, f));
      }
    case _ =>
  }

  // The state only ever moves towards CLOSED, and an ending connection queues nothing more.
  lemma {:induction false} Lifecycle(keys: nat -> Key, e: Endpoint, evs: seq<Event>)
    requires IsRun(keys, e, evs)
    ensures Rank(e.ready) <= Rank(After(keys, e, evs).ready)
    ensures Ending(e.ready) ==> After(keys, e, evs).queued == e.queued
    decreases |evs|
  {
    if evs != [] {
      DispatchLifecycle(keys, e);
      Lifecycle(keys, Step(keys, e, evs[0]), evs[1..]);
    }
  }

  ghost predicate AllAccepted(e: Endpoint) {
    && AllValid(e.queued) && e.accepted == EncodeAll(e.queued)
    && e.queued != [] && Last(e) == CLOSE_FRAME
  }

  // Without a failure of the socket, a connection that has ended has had its whole stream
  // accepted, close frame included.
  lemma {:induction false} GracefulClose(keys: nat -> Key, e: Endpoint, evs: seq<Event>)
    requires Outbound(e) && e.ready != CLOSED && IsRun(keys, e, evs)
    requires forall i :: 0 <= i < |evs| ==> evs[i] != Failed
    ensures After(keys, e, evs).ready == CLOSED ==> AllAccepted(After(keys, e, evs))
    decreases |evs|
  {
    if evs != [] {
      var next := Step(keys, e, evs[0]);
      if next.ready == CLOSED {
        Drainage(keys, e, evs[0]);
        StaysAccepted(keys, next, evs[1..]);
      } else {
        StepOutbound(keys, e, evs[0]);
        GracefulClose(keys, next, evs[1..]);
      }
    }
  }

  lemma StaysAccepted(keys: nat -> Key, e: Endpoint, evs: seq<Event>)
    requires e.ready == CLOSED && AllAccepted(e) && IsRun(keys, e, evs)
    ensures AllAccepted(After(keys, e, evs))
  {
    Settled(keys, e, evs);
  }

  lemma Drainage(keys: nat -> Key, e: Endpoint, ev: Event)
    requires Outbound(e) && Enabled(e, ev) && e.ready != CLOSED && ev != Failed && Step(keys, e, ev).ready == CLOSED
    ensures AllAccepted(Step(keys, e, ev))
  {
    if ev == Dispatched {
      DispatchNeverCloses(keys, e);
    } else if ev == Drained {
      assert e.accepted + [] == e.accepted;
    }
  }

  lemma {:induction false} DispatchNeverCloses(keys: nat -> Key, e: Endpoint)
    requires e.ready != CLOSED
    ensures Dispatch(keys, e).ready != CLOSED
    decreases |e.rx|
  {
    match Parse(e.rx)
    case Got(f) =>
      ParseSize(e.rx);
      if Passes(f.opcode) {
        DispatchNeverCloses(keys, Consume(keys, e, f));
      }
    case _ =>
  }

  // Dispatching leaves no closing connection without something to send that was not one before.
  lemma {:induction false} DispatchLeavesCloseQueued(keys: nat -> Key, e: Endpoint)
    requires e.ready == CLOSING ==> e.tx != []
    ensures Dispatch(keys, e).ready == CLOSING ==> Dispatch(keys, e).tx != []
    decreases |e.rx|
  {
    match Parse(e.rx)
    case Got(f) =>
      ParseSize(e.rx);
      if Passes(f.opcode) {
        DispatchLeavesCloseQueued(keys, Consume(keys, e, f));
      }
    case _ =>
  }

  lemma {:induction false} DispatchKeepsAccepted(keys: nat -> Key, e: Endpoint)
    ensures Dispatch(keys, e).accepted == e.accepted && Dispatch(keys, e).arrived == e.arrived
    decreases |e.rx|
  {
    match Parse(e.rx)
    case Got(f) =>
      ParseSize(e.rx);
      if Passes(f.opcode) {
        DispatchKeepsAccepted(keys, Consume(keys, e, f));
      }
    case _ =>
  }

  lemma {:induction false} Settled(keys: nat -> Key, e: Endpoint, evs: seq<Event>)
    requires e.ready == CLOSED && IsRun(keys, e, evs)
    ensures After(keys, e, evs).queued == e.queued && After(keys, e, evs).accepted == e.accepted
    decreases |evs|
  {
    if evs != [] {
      DispatchLifecycle(keys, e);
      DispatchKeepsAccepted(keys, e);
      Settled(keys, Step(keys, e, evs[0]), evs[1..]);
    }
  }

  lemma StuckStep(keys: nat -> Key, e: Endpoint, ev: Event)
    requires Enabled(e, ev)
    requires Parse(e.rx).Got? && !Passes(Parse(e.rx).frame.opcode)
    ensures var g := Step(keys, e, ev);
            e.rx <= g.rx && Parse(g.rx) == Parse(e.rx) && g.delivered == e.delivered && g.acc == e.acc
  {
    if ev.Received? {
      ParseStable(e.rx, ev.chunk);
    }
  }

  // Once a CLOSE or unknown frame heads the receive buffer it stays there and nothing more is delivered.
  lemma {:induction false} StuckAtClose(keys: nat -> Key, e: Endpoint, evs: seq<Event>)
    requires IsRun(keys, e, evs)
    requires Parse(e.rx).Got? && !Passes(Parse(e.rx).frame.opcode)
    ensures var last := After(keys, e, evs);
            && e.rx <= last.rx && Parse(last.rx) == Parse(e.rx)
            && last.delivered == e.delivered && last.acc == e.acc
    decreases |evs|
  {
    if evs != [] {
      StuckStep(keys, e, evs[0]);
      StuckAtClose(keys, Step(keys, e, evs[0]), evs[1..]);
    }
  }

  // ---- The inbound side ----

  function Taken(e: Endpoint): seq<byte>
    requires |e.rx| <= |e.arrived|
  {
    e.arrived[..|e.arrived| - |e.rx|]
  }

  // The frames taken out of the stream are whole, and account for every call made so far.
  ghost predicate Inbound(e: Endpoint) {
    && |e.rx| <= |e.arrived|
    && e.arrived == Taken(e) + e.rx
    && Whole(Taken(e))
    && e.delivered == Messages(Frames(Taken(e)), [])
    && e.acc == Pending(Frames(Taken(e)), [])
  }

  lemma DeliverMeets(e: Endpoint, f: Incoming)
    requires IsData(f.opcode)
    ensures Deliver(e, f).delivered == e.delivered + Messages([f], e.acc)
    ensures Deliver(e, f).acc == Pending([f], e.acc)
  {
    assert Messages([f][1..], []) == [];
    assert [] + f.payload == f.payload;
    if f.fin && e.acc == [] {
      assert Deliver(e, f).acc == [];
    }
  }

  lemma ConsumeMeets(keys: nat -> Key, e: Endpoint, f: Incoming)
    requires Sendable(PONG, f.payload) && f.size <= |e.rx| && Passes(f.opcode)
    ensures var g := Consume(keys, e, f);
            && g.delivered == e.delivered + Messages([f], e.acc)
            && g.acc == Pending([f], e.acc)
            && g.arrived == e.arrived && g.rx == e.rx[f.size..]
  {
    if IsData(f.opcode) {
      DeliverMeets(e, f);
    } else {
      assert Messages([f], e.acc) == Messages([f][1..], e.acc) == [];
      assert Pending([f], e.acc) == Pending([f][1..], e.acc) == e.acc;
    }
  }

  lemma OneFrame(d: seq<byte>)
    requires Parse(d).Got? && Passes(Parse(d).frame.opcode)
    ensures var f := Parse(d).frame; 2 <= f.size <= |d| && Whole(d[..f.size]) && Frames(d[..f.size]) == [f]
  {
    var f := Parse(d).frame;
    ParseSize(d);
    var p := d[..f.size];
    ParsePrefix(d);
    assert p[f.size..] == [];
  }

  lemma ConsumeInbound(keys: nat -> Key, e: Endpoint)
    requires Inbound(e) && Parse(e.rx).Got? && Passes(Parse(e.rx).frame.opcode)
    ensures var f := Parse(e.rx).frame;
            Sendable(PONG, f.payload) && f.size <= |e.rx| && Inbound(Consume(keys, e, f))
  {
    var f := Parse(e.rx).frame;
    ParseSize(e.rx);
    OneFrame(e.rx);
    ConsumeMeets(keys, e, f);
    TakenGrows(e, Consume(keys, e, f), f.size);
    FramesConcat(Taken(e), e.rx[..f.size]);
    MessagesConcat(Frames(Taken(e)), [f], []);
  }

  lemma {:induction false} TakenGrows(e: Endpoint, g: Endpoint, n: nat)
    requires |e.rx| <= |e.arrived| && e.arrived == Taken(e) + e.rx
    requires n <= |e.rx| && g.rx == e.rx[n..] && g.arrived == e.arrived
    ensures Taken(g) == Taken(e) + e.rx[..n] && g.arrived == Taken(g) + g.rx
  {
  }

  lemma {:induction false} DispatchInbound(keys: nat -> Key, e: Endpoint)
    requires Inbound(e)
    ensures Inbound(Dispatch(keys, e))
    decreases |e.rx|
  {
    match Parse(e.rx)
    case Got(f) =>
      ParseSize(e.rx);
      if Passes(f.opcode) {
        ConsumeInbound(keys, e);
        DispatchInbound(keys, Consume(keys, e, f));
      } else {
        assert Taken(CloseConnection(e)) == Taken(e);
      }
    case _ =>
  }

  lemma {:induction false} ArriveInbound(e: Endpoint, chunk: seq<byte>)
    requires Inbound(e)
    ensures Inbound(Arrive(e, chunk))
  {
    assert Taken(Arrive(e, chunk)) == Taken(e);
    assert e.arrived + chunk == Taken(e) + (e.rx + chunk);
  }

  lemma StepInbound(keys: nat -> Key, e: Endpoint, ev: Event)
    requires Inbound(e) && Enabled(e, ev)
    ensures Inbound(Step(keys, e, ev))
  {
    match ev
    case Received(chunk) => ArriveInbound(e, chunk);
    case Dispatched => DispatchInbound(keys, e);
    case _ =>
  }

  // Over every run, whatever the pieces in which bytes arrive and whenever they are dispatched,
  // what has been delivered and what the receive buffer still holds is what the whole stream says.
  lemma {:induction false} InboundFaithful(keys: nat -> Key, e: Endpoint, evs: seq<Event>)
    requires Inbound(e) && IsRun(keys, e, evs)
    ensures var last := After(keys, e, evs);
            && Inbound(last)
            && last.delivered + Messages(Frames(last.rx), last.acc) == Messages(Frames(last.arrived), [])
    decreases |evs|
  {
    if evs == [] {
      FramesConcat(Taken(e), e.rx);
      MessagesConcat(Frames(Taken(e)), Frames(e.rx), []);
    } else {
      StepInbound(keys, e, evs[0]);
      InboundFaithful(keys, Step(keys, e, evs[0]), evs[1..]);
    }
  }

  // ---- PONGs ----

  function Pongs(os: seq<Outgoing>): seq<seq<byte>> {
    if os == [] then []
    else Pongs(os[..|os| - 1]) + (if os[|os| - 1].opcode == PONG then [os[|os| - 1].payload] else [])
  }

  // Every PING taken is answered, in order, until the connection is ending.
  ghost predicate Answered(e: Endpoint) {
    && Inbound(e)
    && Pongs(e.queued) <= Pings(Frames(Taken(e)))
    && (!Ending(e.ready) ==> Pongs(e.queued) == Pings(Frames(Taken(e))))
  }

  lemma QueuePongs(os: seq<Outgoing>, o: Outgoing)
    ensures Pongs(os + [o]) == Pongs(os) + if o.opcode == PONG then [o.payload] else []
  {
    assert (os + [o])[..|os|] == os;
  }

  lemma ConsumePongs(keys: nat -> Key, e: Endpoint, f: Incoming)
    requires Sendable(PONG, f.payload) && f.size <= |e.rx| && Passes(f.opcode)
    ensures var g := Consume(keys, e, f);
            && g.ready == e.ready
            && Pongs(g.queued) == Pongs(e.queued) + if Ending(e.ready) then [] else Pings([f])
  {
    assert Pings([f][1..]) == [];
    QueuePongs(e.queued, Outgoing(PONG, f.payload, e.useMask, keys(e.draws)));
  }

  lemma ConsumeTaken(keys: nat -> Key, e: Endpoint)
    requires Inbound(e) && Parse(e.rx).Got? && Passes(Parse(e.rx).frame.opcode)
    ensures var f := Parse(e.rx).frame;
            && Sendable(PONG, f.payload) && f.size <= |e.rx|
            && |Consume(keys, e, f).rx| <= |Consume(keys, e, f).arrived|
            && Frames(Taken(Consume(keys, e, f))) == Frames(Taken(e)) + [f]
  {
    var f := Parse(e.rx).frame;
    ParseSize(e.rx);
    OneFrame(e.rx);
    ConsumeMeets(keys, e, f);
    TakenGrows(e, Consume(keys, e, f), f.size);
    FramesConcat(Taken(e), e.rx[..f.size]);
  }

  lemma ConsumeAnswered(keys: nat -> Key, e: Endpoint)
    requires Answered(e) && Parse(e.rx).Got? && Passes(Parse(e.rx).frame.opcode)
    ensures var f := Parse(e.rx).frame;
            Sendable(PONG, f.payload) && f.size <= |e.rx| && Answered(Consume(keys, e, f))
  {
    var f := Parse(e.rx).frame;
    ConsumeInbound(keys, e);
    ConsumeTaken(keys, e);
    ConsumePongs(keys, e, f);
    PingsConcat(Frames(Taken(e)), [f]);
  }

  lemma {:induction false} DispatchAnswered(keys: nat -> Key, e: Endpoint)
    requires Answered(e)
    ensures Answered(Dispatch(keys, e))
    decreases |e.rx|
  {
    match Parse(e.rx)
    case Got(f) =>
      ParseSize(e.rx);
      if Passes(f.opcode) {
        ConsumeAnswered(keys, e);
        DispatchAnswered(keys, Consume(keys, e, f));
      } else {
        QueuePongs(e.queued, CLOSE_FRAME);
        assert Taken(CloseConnection(e)) == Taken(e);
      }
    case _ =>
  }

  lemma StepAnswered(keys: nat -> Key, e: Endpoint, ev: Event)
    requires Answered(e) && Enabled(e, ev)
    ensures Answered(Step(keys, e, ev))
  {
    StepInbound(keys, e, ev);
    var g := Step(keys, e, ev);
    match ev
    case SendMessage(opcode, payload) =>
      assert Taken(g) == Taken(e);
      QueuePongs(e.queued, Outgoing(opcode, payload, e.useMask, keys(e.draws)));
    case CloseCall =>
      assert Taken(g) == Taken(e);
      QueuePongs(e.queued, CLOSE_FRAME);
    case Dispatched => DispatchAnswered(keys, e);
    case _ => assert Taken(g) == Taken(e);
  }

  lemma {:induction false} PingsAnswered(keys: nat -> Key, e: Endpoint, evs: seq<Event>)
    requires Answered(e) && IsRun(keys, e, evs)
    ensures Answered(After(keys, e, evs))
    decreases |evs|
  {
    if evs != [] {
      StepAnswered(keys, e, evs[0]);
      PingsAnswered(keys, Step(keys, e, evs[0]), evs[1..]);
    }
  }

  // A new endpoint meets all that the runs keep.
  lemma FreshMeets(useMask: bool, ready: ReadyState)
    requires !Ending(ready)
    ensures Outbound(Fresh(useMask, ready)) && Inbound(Fresh(useMask, ready)) && Answered(Fresh(useMask, ready))
  {
    assert Taken(Fresh(useMask, ready)) == [];
  }

  // ---- Masking keys ----

  // The frames for which a key has been drawn: all but the close.
  function Drawn(os: seq<Outgoing>): seq<Outgoing> {
    if os == [] then []
    else Drawn(os[..|os| - 1]) + (if os[|os| - 1].opcode == 8 then [] else [os[|os| - 1]])
  }

  lemma DrawnSnoc(os: seq<Outgoing>, o: Outgoing)
    ensures Drawn(os + [o]) == Drawn(os) + (if o.opcode == 8 then [] else [o])
  {
    assert (os + [o])[..|os|] == os;
  }

  // They carry the keys of these draws, each later than the one before.
  ghost predicate DrawsOf(keys: nat -> Key, e: Endpoint, js: seq<nat>) {
    var os := Drawn(e.queued);
    && |js| == |os|
    && (forall i :: 0 <= i < |js| ==> js[i] < e.draws && os[i].key == keys(js[i]))
    && (forall i, j :: 0 <= i < j < |js| ==> js[i] < js[j])
  }

  ghost predicate KeysDrawn(keys: nat -> Key, e: Endpoint) {
    exists js: seq<nat> :: DrawsOf(keys, e, js)
  }

  lemma SendDraws(keys: nat -> Key, e: Endpoint, opcode: byte, payload: seq<byte>)
    requires Sendable(opcode, payload) && opcode != CLOSE && KeysDrawn(keys, e)
    ensures KeysDrawn(keys, SendData(keys, e, opcode, payload))
    ensures SendData(keys, e, opcode, payload).draws == e.draws + 1
  {
    var js: seq<nat> :| DrawsOf(keys, e, js);
    var g := SendData(keys, e, opcode, payload);
    if Ending(e.ready) {
      assert DrawsOf(keys, g, js);
    } else {
      DrawnSnoc(e.queued, Outgoing(opcode, payload, e.useMask, keys(e.draws)));
      assert DrawsOf(keys, g, js + [e.draws]);
    }
  }

  // What leaves the frames with a key alone, and draws no key back.
  lemma SameDraws(keys: nat -> Key, e: Endpoint, g: Endpoint)
    requires KeysDrawn(keys, e) && Drawn(g.queued) == Drawn(e.queued) && e.draws <= g.draws
    ensures KeysDrawn(keys, g)
  {
    var js: seq<nat> :| DrawsOf(keys, e, js);
    assert DrawsOf(keys, g, js);
  }

  lemma CloseDraws(keys: nat -> Key, e: Endpoint)
    requires KeysDrawn(keys, e)
    ensures KeysDrawn(keys, CloseConnection(e))
  {
    DrawnSnoc(e.queued, CLOSE_FRAME);
    SameDraws(keys, e, CloseConnection(e));
  }

  lemma {:induction false} DispatchDraws(keys: nat -> Key, e: Endpoint)
    requires KeysDrawn(keys, e)
    ensures KeysDrawn(keys, Dispatch(keys, e))
    decreases |e.rx|
  {
    match Parse(e.rx)
    case Got(f) =>
      ParseSize(e.rx);
      if Passes(f.opcode) {
        ConsumeDraws(keys, e, f);
        DispatchDraws(keys, Consume(keys, e, f));
      } else {
        CloseDraws(keys, e);
      }
    case _ =>
  }

  lemma ConsumeDraws(keys: nat -> Key, e: Endpoint, f: Incoming)
    requires KeysDrawn(keys, e) && Sendable(PONG, f.payload) && f.size <= |e.rx|
    ensures KeysDrawn(keys, Consume(keys, e, f))
  {
    if f.opcode == PING {
      SendDraws(keys, e, PONG, f.payload);
      SameDraws(keys, SendData(keys, e, PONG, f.payload), Consume(keys, e, f));
    } else {
      SameDraws(keys, e, Consume(keys, e, f));
    }
  }

  lemma StepDraws(keys: nat -> Key, e: Endpoint, ev: Event)
    requires KeysDrawn(keys, e) && Enabled(e, ev)
    ensures KeysDrawn(keys, Step(keys, e, ev))
  {
    match ev
    case SendMessage(opcode, payload) => SendDraws(keys, e, opcode, payload);
    case CloseCall => CloseDraws(keys, e);
    case Dispatched => DispatchDraws(keys, e);
    case _ => SameDraws(keys, e, Step(keys, e, ev));
  }

  // Over every run no key is used twice: the frames queued, but for the close, carry the keys of
  // strictly increasing draws.
  lemma {:induction false} FreshKeys(keys: nat -> Key, useMask: bool, ready: ReadyState, evs: seq<Event>)
    requires IsRun(keys, Fresh(useMask, ready), evs)
    ensures KeysDrawn(keys, After(keys, Fresh(useMask, ready), evs))
  {
    assert DrawsOf(keys, Fresh(useMask, ready), []);
    RunDraws(keys, Fresh(useMask, ready), evs);
  }

  lemma {:induction false} RunDraws(keys: nat -> Key, e: Endpoint, evs: seq<Event>)
    requires KeysDrawn(keys, e) && IsRun(keys, e, evs)
    ensures KeysDrawn(keys, After(keys, e, evs))
    decreases |evs|
  {
    if evs != [] {
      StepDraws(keys, e, evs[0]);
      RunDraws(keys, Step(keys, e, evs[0]), evs[1..]);
    }
  }

  // ---- What can happen when ----

  // Messages can be sent and the connection closed at any time; the rest goes with its state.
  lemma Possible(e: Endpoint, payload: seq<byte>, chunk: seq<byte>, n: nat)
    requires |payload| + 14 < 0x1_0000_0000
    ensures Enabled(e, SendMessage(1, payload)) && Enabled(e, SendMessage(2, payload)) && Enabled(e, SendMessage(9, payload))
    ensures Enabled(e, CloseCall)
    ensures Enabled(e, Received(chunk)) <==> (e.ready == OPEN || e.ready == CLOSING) && 1 <= |chunk| <= 4096
    ensures Enabled(e, Sent(n)) <==> (e.ready == OPEN || e.ready == CLOSING) && 1 <= n <= |e.tx|
    ensures Enabled(e, Drained) <==> e.ready == CLOSING && e.tx == []
    ensures Enabled(e, Failed) <==> e.ready != CLOSED
    ensures Enabled(e, Connected) <==> e.ready == CONNECTING
    ensures Enabled(e, Dispatched) <==> e.ready != CONNECTING
  {
  }
}
