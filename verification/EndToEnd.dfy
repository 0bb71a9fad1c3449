// What two sides deliver to each other over shared memory: in every run from the first byte of the
// handshake on, the messages one side has delivered are the first of those the other was asked to send.
module EndToEnd {
  import opened Bytes
  import opened Frame
  import opened Stream
  import opened Session
  import E = Endpoint
  import H = Handshake
  import R = Ring

  // ---- From bytes to messages ----

  // The messages among the frames an endpoint has queued.
  function SentMessages(os: seq<Outgoing>): seq<Message> {
    if os == [] then []
    else (if IsData(os[0].opcode) then [Message(os[0].payload, os[0].opcode == TEXT_FRAME)] else []) + SentMessages(os[1..])
  }

  lemma {:induction false} SentConcat(xs: seq<Outgoing>, ys: seq<Outgoing>)
    ensures SentMessages(xs + ys) == SentMessages(xs) + SentMessages(ys)
  {
    if xs == [] {
      assert xs + ys == ys;
    } else {
      assert (xs + ys)[1..] == xs[1..] + ys;
      SentConcat(xs[1..], ys);
      var first := if IsData(xs[0].opcode) then [Message(xs[0].payload, xs[0].opcode == TEXT_FRAME)] else [];
      assert SentMessages(xs) == first + SentMessages(xs[1..]);
      assert SentMessages(xs + ys) == first + (SentMessages(xs[1..]) + SentMessages(ys));
    }
  }

  // The first whole frame of an encoded queue is the queue's first.
  lemma DecodeHead(os: seq<Outgoing>, taken: seq<byte>, left: seq<byte>)
    requires E.AllValid(os) && E.EncodeAll(os) == taken + left && Whole(taken) && taken != []
    ensures os != [] && E.AllValid(os[1..]) && Parse(taken) == Got(Delivered(os[0]))
    ensures var rest := taken[|Encode(os[0])|..];
            && |rest| < |taken| && Whole(rest) && Frames(taken) == [Delivered(os[0])] + Frames(rest)
            && E.EncodeAll(os[1..]) == rest + left
  {
    ParseSize(taken);
    ParseStable(taken, left);
    assert |taken + left| > 0;
    E.EncodeHead(os);
    RoundTrip(os[0], E.EncodeAll(os[1..]));
    Rest(Encode(os[0]), E.EncodeAll(os[1..]), taken, left);
  }

  lemma Rest(a: seq<byte>, b: seq<byte>, c: seq<byte>, d: seq<byte>)
    requires a + b == c + d && |a| <= |c|
    ensures b == c[|a|..] + d
  {
    assert b == (a + b)[|a|..];
  }

  // The frames of a queue as they are read at the other end.
  function AsRead(os: seq<Outgoing>): seq<Incoming>
    requires E.AllValid(os)
  {
    if os == [] then [] else [Delivered(os[0])] + AsRead(os[1..])
  }

  // Whole frames at the head of an encoded queue are the head of the queue.
  lemma {:induction false} DecodePrefix(os: seq<Outgoing>, taken: seq<byte>, left: seq<byte>) returns (k: nat)
    requires E.AllValid(os) && E.EncodeAll(os) == taken + left && Whole(taken)
    ensures k <= |os| && E.AllValid(os[k..]) && left == E.EncodeAll(os[k..])
    ensures E.AllValid(os[..k]) && Frames(taken) == AsRead(os[..k])
    decreases |os|
  {
    if taken == [] {
      k := 0;
      assert os[0..] == os && taken + left == left;
    } else {
      DecodeHead(os, taken, left);
      var rest := taken[|Encode(os[0])|..];
      var j := DecodePrefix(os[1..], rest, left);
      k := j + 1;
      Shift(os, j);
      assert os[..k][1..] == os[1..][..j];
    }
  }

  lemma Shift(os: seq<Outgoing>, j: nat)
    requires os != [] && j <= |os| - 1
    ensures os[1..][j..] == os[j + 1..] && os[..j + 1] == [os[0]] + os[1..][..j]
  {
  }

  // They carry the messages that were queued.
  lemma {:induction false} MessagesRead(os: seq<Outgoing>)
    requires E.AllValid(os)
    ensures Messages(AsRead(os), []) == SentMessages(os)
  {
    if os != [] {
      OneMessage(os[0]);
      MessagesConcat([Delivered(os[0])], AsRead(os[1..]), []);
      MessagesRead(os[1..]);
      assert os == [os[0]] + os[1..];
      SentConcat([os[0]], os[1..]);
    }
  }

  lemma {:induction false} ReadConcat(xs: seq<Outgoing>, ys: seq<Outgoing>)
    requires E.AllValid(xs) && E.AllValid(ys)
    ensures E.AllValid(xs + ys) && AsRead(xs + ys) == AsRead(xs) + AsRead(ys)
  {
    if xs == [] {
      assert xs + ys == ys;
    } else {
      assert (xs + ys)[1..] == xs[1..] + ys;
      ReadConcat(xs[1..], ys);
      Associative([Delivered(xs[0])], AsRead(xs[1..]), AsRead(ys));
    }
  }

  lemma OneMessage(o: Outgoing)
    requires o.Valid()
    ensures Messages([Delivered(o)], []) == SentMessages([o])
    ensures Pending([Delivered(o)], []) == []
  {
    var f := Delivered(o);
    assert [f][1..] == [] && [o][1..] == [];
    assert [] + f.payload == o.payload;
  }

  // If the next frame in line does not pass, it is the close frame and ends the queue.
  lemma NothingLeft(x: E.Endpoint, k: nat, left: seq<byte>)
    requires E.Outbound(x) && k <= |x.queued| && E.AllValid(x.queued[k..])
    requires left == E.EncodeAll(x.queued[k..]) && Frames(left) == []
    ensures SentMessages(x.queued[k..]) == []
  {
    var os := x.queued[k..];
    if os != [] {
      E.EncodeHead(os);
      RoundTrip(os[0], E.EncodeAll(os[1..]));
      assert !Passes(os[0].opcode);
      assert os[0] == x.queued[k];
      assert |os| == 1;
      assert SentMessages(os[1..]) == [];
    }
  }

  // ---- From one side to the other ----

  // Nothing to send, nothing between the indices, no complete frame left to dispatch.
  predicate Drained(x: E.Endpoint, r: R.Ring, y: E.Endpoint) {
    x.tx == [] && r.readIndex == r.writeIndex && Frames(y.rx) == []
  }

  lemma DrainedRing(r: R.Ring)
    requires R.Inv(r) && r.readIndex == r.writeIndex
    ensures r.got == r.sent
  {
    R.SizeExact(r);
  }

  // The frames on their way: what x has sent as frames is what y has received of them and what is
  // still between the indices.
  ghost predicate Flow(x: E.Endpoint, waiting: seq<byte>, y: E.Endpoint) {
    E.Outbound(x) && E.Inbound(y) && x.accepted == y.arrived + waiting
  }

  // A side that is still connecting has received nothing of them.
  lemma WaitingFlow(x: End, px: Plan, y: End, py: Plan)
    requires Sound(px) && Machine(x.x, px) && Speaks(x.x, x.out, px) && px.mine == py.theirs
    requires Hears(y.x, x.out, py) && E.Inbound(y.x.e) && y.x.m.outcome == H.Waiting
    ensures y.x.e.delivered == [] && (x.out.got == x.out.sent ==> x.x.e.accepted == [])
  {
    H.ReadingProgress(H.Start(py.texts, py.server), py.theirs, |y.x.heard|, y.x.m);
    NothingYet(y.x.e);
    assert y.x.heard + [] == y.x.heard;
    if x.out.got == x.out.sent {
      SomeUnsaid(x.x, x.out.sent, px);
    }
  }

  // A side that is open has read the whole text first.
  lemma OpenFlow(x: End, px: Plan, y: End, py: Plan)
    requires Sound(px) && Machine(x.x, px) && Speaks(x.x, x.out, px) && px.mine == py.theirs
    requires Hears(y.x, x.out, py) && y.x.m.outcome == H.Opened && x.out.got <= x.out.sent
    ensures x.x.e.accepted == y.x.e.arrived + x.out.sent[|x.out.got|..]
  {
    H.ReadingProgress(H.Start(py.texts, py.server), py.theirs, |y.x.heard|, y.x.m);
    SpokenPrefix(x.x, px);
    assert y.x.heard == py.theirs;
    AllSaid(x.x, x.out.sent, px, py.theirs, y.x.e.arrived);
    SameTail(py.theirs, x.x.e.accepted, x.out.got, x.out.sent[|x.out.got|..], y.x.e.arrived);
  }

  // Less than the whole text having gone into the ring, no frame has.
  lemma SomeUnsaid(x: Side, sent: seq<byte>, p: Plan)
    requires Streamed(x, sent, p) && |sent| < |p.mine|
    requires x.m.outcome == H.Opened ==> Spoken(x, p) == p.mine
    ensures x.e.accepted == []
  {
  }

  lemma NothingYet(e: E.Endpoint)
    requires E.Inbound(e) && e.arrived == []
    ensures e.delivered == [] && E.Taken(e) == []
  {
    assert E.Taken(e) == [];
  }

  // The whole text having been read, it has been said.
  lemma AllSaid(x: Side, sent: seq<byte>, p: Plan, text: seq<byte>, more: seq<byte>)
    requires Streamed(x, sent, p) && text == p.mine && text + more <= sent
    requires Spoken(x, p) == p.mine || (Spoken(x, p) == [] && x.m.outcome != H.Opened)
    requires forall i :: 0 <= i < |x.say| ==> x.say[i] != []
    ensures sent == text + x.e.accepted
  {
    if x.say == [] {
      assert sent == [] + [] || sent == text + x.e.accepted;
    } else {
      assert false;
    }
  }

  lemma SameTail(text: seq<byte>, accepted: seq<byte>, got: seq<byte>, waiting: seq<byte>, arrived: seq<byte>)
    requires got == text + arrived && got + waiting == text + accepted
    ensures accepted == arrived + waiting
  {
    assert accepted == (text + accepted)[|text|..];
    assert arrived + waiting == ((text + arrived) + waiting)[|text|..];
  }

  // What y has delivered is the first of what x has queued, and all of it once no frame that is
  // taken is left on the way.
  lemma {:induction false} FlowDelivers(x: E.Endpoint, waiting: seq<byte>, y: E.Endpoint)
    requires Flow(x, waiting, y)
    ensures y.delivered <= SentMessages(x.queued)
    ensures Frames(y.rx + (waiting + x.tx)) == [] ==> y.delivered == SentMessages(x.queued)
  {
    var os, taken := x.queued, E.Taken(y);
    var left := y.rx + (waiting + x.tx);
    FlowBytes(x, waiting, y);
    var k := DecodePrefix(os, taken, left);
    MessagesRead(os[..k]);
    SentSplit(os, k);
    if Frames(left) == [] {
      NothingLeft(x, k, left);
    }
  }

  // No more PINGs have been taken than queued.
  lemma {:induction false} FlowPings(x: E.Endpoint, waiting: seq<byte>, y: E.Endpoint)
    requires Flow(x, waiting, y)
    ensures |Pings(Frames(E.Taken(y)))| <= |Pings(AsRead(x.queued))|
  {
    var os := x.queued;
    FlowBytes(x, waiting, y);
    var k := DecodePrefix(os, E.Taken(y), y.rx + (waiting + x.tx));
    PingsSplit(os, k);
  }

  lemma {:induction false} PingsSplit(os: seq<Outgoing>, k: nat)
    requires E.AllValid(os) && k <= |os| && E.AllValid(os[..k])
    ensures |Pings(AsRead(os[..k]))| <= |Pings(AsRead(os))|
  {
    var xs, ys := os[..k], os[k..];
    assert os == xs + ys;
    ReadConcat(xs, ys);
    PingsConcat(AsRead(xs), AsRead(ys));
  }

  lemma {:induction false} SentSplit(os: seq<Outgoing>, k: nat)
    requires k <= |os|
    ensures SentMessages(os) == SentMessages(os[..k]) + SentMessages(os[k..])
  {
    assert os == os[..k] + os[k..];
    SentConcat(os[..k], os[k..]);
  }

  lemma {:induction false} FlowBytes(x: E.Endpoint, waiting: seq<byte>, y: E.Endpoint)
    requires Flow(x, waiting, y)
    ensures E.EncodeAll(x.queued) == E.Taken(y) + (y.rx + (waiting + x.tx))
  {
    Associative(y.arrived, waiting, x.tx);
    Associative(E.Taken(y), y.rx, waiting + x.tx);
  }

  lemma NonEmpty(o: Outgoing)
    requires o.Valid()
    ensures Encode(o) != []
  {
  }

  lemma {:induction false} NothingEncoded(os: seq<Outgoing>)
    requires E.AllValid(os)
    ensures E.EncodeAll(os) == [] ==> os == []
  {
    if os != [] {
      NonEmpty(os[|os| - 1]);
    }
  }

  lemma DirectionDelivers(x: End, px: Plan, y: End, py: Plan)
    requires EndInv(x, px) && EndInv(y, py) && R.Inv(x.out) && y.inp == x.out && px.mine == py.theirs
    ensures y.x.e.delivered <= SentMessages(x.x.e.queued)
    ensures Drained(x.x.e, x.out, y.x.e) ==> y.x.e.delivered == SentMessages(x.x.e.queued)
  {
    if y.x.m.outcome == H.Opened {
      OpenFlow(x, px, y, py);
      FlowDelivers(x.x.e, x.out.sent[|x.out.got|..], y.x.e);
      assert y.x.e.rx + ([] + []) == y.x.e.rx;
    } else {
      WaitingFlow(x, px, y, py);
    }
    if Drained(x.x.e, x.out, y.x.e) {
      DrainedRing(x.out);
      if y.x.m.outcome == H.Waiting {
        NothingEncoded(x.x.e.queued);
      }
    }
  }

  // A client that closes when all but the last byte of the answer has been heard takes that byte for
  // a PONG, and delivers a message that was never sent.
  lemma CloseMisreads()
    ensures var o := Outgoing(BINARY_FRAME, [0, 0, 0, 0, 0, 0x82, 0x01, 0x2a], false, [0, 0, 0, 0]);
            && o.Valid() && SentMessages([o]) == [Message(o.payload, false)]
            && Messages(Frames([H.LF] + Encode(o)), []) == [Message([0x2a], false)]
  {
    var o := Outgoing(BINARY_FRAME, [0, 0, 0, 0, 0, 0x82, 0x01, 0x2a], false, [0, 0, 0, 0]);
    var pong := Wire(0x0a, Short, true, [8, 0, 0, 0], [8, 0]);
    var data := Wire(0x82, Short, false, [0, 0, 0, 0], [0x2a]);
    assert [o][1..] == [];
    MisreadOctets();
    WireRoundTrip(pong, Octets(data));
    WireRoundTrip(data, []);
    TwoFrames(pong, data);
  }

  lemma MisreadOctets()
    ensures var o := Outgoing(BINARY_FRAME, [0, 0, 0, 0, 0, 0x82, 0x01, 0x2a], false, [0, 0, 0, 0]);
            [H.LF] + Encode(o) == Octets(Wire(0x0a, Short, true, [8, 0, 0, 0], [8, 0])) + Octets(Wire(0x82, Short, false, [0, 0, 0, 0], [0x2a]))
  {
  }

  lemma TwoFrames(pong: Wire, data: Wire)
    requires pong.Valid() && data.Valid() && pong.first == 0x0a && data.first == 0x82
    requires Parse(Octets(pong) + Octets(data)) == Got(Read(pong)) && Parse(Octets(data) + []) == Got(Read(data))
    ensures Messages(Frames(Octets(pong) + Octets(data)), []) == [Message(data.payload, false)]
  {
    var d := Octets(pong) + Octets(data);
    var f, g := Read(pong), Read(data);
    assert d[f.size..] == Octets(data) == Octets(data) + [];
    assert Octets(data)[g.size..] == [];
    FirstOctets();
    ParseSize(d);
    ParseSize(Octets(data));
    assert Frames(Octets(data)) == [g] + Frames([]) == [g];
    assert Frames(d) == [f] + [g];
    assert ([f] + [g])[1..] == [g] && [g][1..] == [];
    assert Messages([f] + [g], []) == Messages([g], []) == [Message([] + g.payload, false)] + Messages([], []);
    assert [] + g.payload == g.payload;
  }

  lemma FirstOctets()
    ensures (0x0a as byte) & 0x0f == PONG && (0x82 as byte) & 0x0f == BINARY_FRAME && (0x82 as byte) & 0x80 == 0x80
  {
  }

  // ---- The calls behind the messages ----

  // The message a move asks for: a text or binary send that is not dropped.
  function Asked(x: End, m: Move): seq<Message>
    requires CanMove(x, m)
  {
    if m.Call? && m.ev.SendMessage? && m.ev.opcode != PING && !E.Ending(x.x.e.ready) then
      [Message(m.ev.payload, m.ev.opcode == TEXT_FRAME)]
    else []
  }

  // The messages A, and B, asked to be sent over a run, in order.
  function AskedByA(ka: Keys, kb: Keys, s: System, evs: seq<Event>): seq<Message>
    requires IsRun(ka, kb, s, evs)
    decreases |evs|
  {
    if evs == [] then []
    else (if evs[0].ByA? then Asked(EndA(s), evs[0].m) else []) + AskedByA(ka, kb, Step(ka, kb, s, evs[0]), evs[1..])
  }

  function AskedByB(ka: Keys, kb: Keys, s: System, evs: seq<Event>): seq<Message>
    requires IsRun(ka, kb, s, evs)
    decreases |evs|
  {
    if evs == [] then []
    else (if evs[0].ByB? then Asked(EndB(s), evs[0].m) else []) + AskedByB(ka, kb, Step(ka, kb, s, evs[0]), evs[1..])
  }

  lemma QueueSent(e: E.Endpoint, o: Outgoing)
    requires o.Valid()
    ensures SentMessages(E.Queue(e, o).queued) == SentMessages(e.queued) + SentMessages([o])
    ensures SentMessages([o]) == if IsData(o.opcode) then [Message(o.payload, o.opcode == TEXT_FRAME)] else []
  {
    SentConcat(e.queued, [o]);
    assert SentMessages([o][1..]) == [];
  }

  lemma SendSent(keys: Keys, e: E.Endpoint, opcode: byte, payload: seq<byte>)
    requires E.Sendable(opcode, payload)
    ensures SentMessages(E.SendData(keys, e, opcode, payload).queued) == SentMessages(e.queued) +
            if IsData(opcode) && !E.Ending(e.ready) then [Message(payload, opcode == TEXT_FRAME)] else []
  {
    QueueSent(e, Outgoing(opcode, payload, e.useMask, keys(e.draws)));
  }

  lemma ConsumeSent(keys: Keys, e: E.Endpoint, f: Incoming)
    requires E.Sendable(PONG, f.payload) && f.size <= |e.rx|
    ensures SentMessages(E.Consume(keys, e, f).queued) == SentMessages(e.queued)
  {
    if f.opcode == PING {
      SendSent(keys, e, PONG, f.payload);
    }
  }

  // Other moves queue no message.
  lemma QuietMove(keys: Keys, x: End, m: Move)
    requires CanMove(x, m) && !m.Call? && !m.TakeFrame? && !m.EndDispatch?
    ensures Moved(keys, x, m).x.e.queued == x.x.e.queued
  {
  }

  lemma {:induction false} MoveAsks(keys: Keys, x: End, m: Move)
    requires CanMove(x, m)
    ensures SentMessages(Moved(keys, x, m).x.e.queued) == SentMessages(x.x.e.queued) + Asked(x, m)
  {
    var e := x.x.e;
    match m
    case Call(ev) =>
      if ev.SendMessage? {
        SendSent(keys, e, ev.opcode, ev.payload);
      } else {
        QueueSent(e, E.CLOSE_FRAME);
      }
    case TakeFrame =>
      ParseSize(e.rx);
      ConsumeSent(keys, e, Parse(e.rx).frame);
    case EndDispatch => QueueSent(e, E.CLOSE_FRAME);
    case _ => QuietMove(keys, x, m);
  }

  lemma StepAsks(ka: Keys, kb: Keys, s: System, ev: Event)
    requires Enabled(s, ev)
    ensures var t := Step(ka, kb, s, ev);
            && SentMessages(t.a.e.queued) == SentMessages(s.a.e.queued) + (if ev.ByA? then Asked(EndA(s), ev.m) else [])
            && SentMessages(t.b.e.queued) == SentMessages(s.b.e.queued) + (if ev.ByB? then Asked(EndB(s), ev.m) else [])
  {
    match ev
    case ByA(m) => MoveAsks(ka, EndA(s), m);
    case ByB(m) => MoveAsks(kb, EndB(s), m);
  }

  lemma {:induction false} RunAsksA(ka: Keys, kb: Keys, s: System, evs: seq<Event>)
    requires IsRun(ka, kb, s, evs)
    ensures SentMessages(After(ka, kb, s, evs).a.e.queued) == SentMessages(s.a.e.queued) + AskedByA(ka, kb, s, evs)
    decreases |evs|
  {
    if evs != [] {
      var next := Step(ka, kb, s, evs[0]);
      StepAsks(ka, kb, s, evs[0]);
      RunAsksA(ka, kb, next, evs[1..]);
      var first := if evs[0].ByA? then Asked(EndA(s), evs[0].m) else [];
      Associative(SentMessages(s.a.e.queued), first, AskedByA(ka, kb, next, evs[1..]));
    }
  }

  lemma {:induction false} RunAsksB(ka: Keys, kb: Keys, s: System, evs: seq<Event>)
    requires IsRun(ka, kb, s, evs)
    ensures SentMessages(After(ka, kb, s, evs).b.e.queued) == SentMessages(s.b.e.queued) + AskedByB(ka, kb, s, evs)
    decreases |evs|
  {
    if evs != [] {
      var next := Step(ka, kb, s, evs[0]);
      StepAsks(ka, kb, s, evs[0]);
      RunAsksB(ka, kb, next, evs[1..]);
      var first := if evs[0].ByB? then Asked(EndB(s), evs[0].m) else [];
      Associative(SentMessages(s.b.e.queued), first, AskedByB(ka, kb, next, evs[1..]));
    }
  }

  // ---- The theorem ----

  // From any state that meets the invariant, with frames of either side anywhere on their way.
  lemma DeliveryFrom(ka: Keys, kb: Keys, s0: System, pa: Plan, pb: Plan, evs: seq<Event>)
    requires Inv(s0, pa, pb) && IsRun(ka, kb, s0, evs)
    ensures var s := After(ka, kb, s0, evs);
            var byA := SentMessages(s0.a.e.queued) + AskedByA(ka, kb, s0, evs);
            var byB := SentMessages(s0.b.e.queued) + AskedByB(ka, kb, s0, evs);
            && s.a.m.outcome != H.Dropped && s.b.m.outcome != H.Dropped
            && s.b.e.delivered <= byA && s.a.e.delivered <= byB
            && (Drained(s.a.e, s.ab, s.b.e) ==> s.b.e.delivered == byA)
            && (Drained(s.b.e, s.ba, s.a.e) ==> s.a.e.delivered == byB)
  {
    RunKeeps(ka, kb, s0, evs, pa, pb);
    RunAsksA(ka, kb, s0, evs);
    RunAsksB(ka, kb, s0, evs);
    var s := After(ka, kb, s0, evs);
    DirectionDelivers(EndA(s), pa, EndB(s), pb);
    DirectionDelivers(EndB(s), pb, EndA(s), pa);
  }

  // From the first byte of the handshake on, in every run, whatever the interleaving: neither side
  // drops the connection, and each has delivered the first of the messages the other was asked to
  // send, in order, with payload and kind; and all of them once transmit buffer, ring and receive
  // buffer are drained.
  lemma Delivery(ka: Keys, kb: Keys, texts: H.Texts, headers: seq<seq<byte>>, request: seq<seq<byte>>,
                 maskA: bool, maskB: bool, cap: nat, memAB: seq<byte>, memBA: seq<byte>, evs: seq<Event>)
    requires Agreeable(texts, headers, request, cap) && |memAB| == |memBA| == cap
    requires IsRun(ka, kb, Connecting(texts, request, maskA, maskB, cap, memAB, memBA), evs)
    ensures var s0 := Connecting(texts, request, maskA, maskB, cap, memAB, memBA);
            var s := After(ka, kb, s0, evs);
            && s.a.m.outcome != H.Dropped && s.b.m.outcome != H.Dropped
            && s.b.e.delivered <= AskedByA(ka, kb, s0, evs)
            && s.a.e.delivered <= AskedByB(ka, kb, s0, evs)
            && (Drained(s.a.e, s.ab, s.b.e) ==> s.b.e.delivered == AskedByA(ka, kb, s0, evs))
            && (Drained(s.b.e, s.ba, s.a.e) ==> s.a.e.delivered == AskedByB(ka, kb, s0, evs))
  {
    var s0 := Connecting(texts, request, maskA, maskB, cap, memAB, memBA);
    ConnectingInv(texts, headers, request, maskA, maskB, cap, memAB, memBA);
    DeliveryFrom(ka, kb, s0, ClientPlan(texts, request), ServerPlan(texts, request), evs);
    assert [] + AskedByA(ka, kb, s0, evs) == AskedByA(ka, kb, s0, evs);
    assert [] + AskedByB(ka, kb, s0, evs) == AskedByB(ka, kb, s0, evs);
  }
}
