// Nothing gets stuck on the way. Each side is a program: it says its lines, and then calls poll again
// and again, which goes through its loops in order. Whatever the order in which two such programs
// take their steps, as long as both go on, all that was sent to an open side comes to be delivered.
module Progress {
  import opened Bytes
  import opened Frame
  import opened Stream
  import opened Session
  import opened EndToEnd
  import E = Endpoint
  import H = Handshake
  import R = Ring

  // ---- The program of a side ----

  // What a side does next when nothing is called but poll, each time with a callback.
  function OwnMove(x: End): Move {
    if !x.out.w.WDone? then WriteStep
    else if !x.inp.r.RDone? then ReadStep
    else if x.x.say != [] then Say
    else match x.x.at
         case Outside => Poll
         case Receiving => Receive
         case Sending => if x.x.e.tx != [] then Send else Finish(true)
         case Finishing => Finish(true)
         case Dispatching => if HasFrame(x.x.e) then TakeFrame else EndDispatch
  }

  lemma OwnEnabled(x: End, p: Plan)
    requires EndInv(x, p) && R.Indices(x.out) && R.Indices(x.inp)
    ensures CanMove(x, OwnMove(x))
  {
  }

  // ---- What is left to do ----

  // What counting needs to know of a ring.
  ghost predicate Countable(r: R.Ring) {
    && r.cap < U32 && |r.got| <= |r.sent| <= |r.got| + r.cap
    && (r.w.WLoadedBoth? ==> r.w.snap <= |r.sent| <= r.w.snap + r.cap)
    && (r.w.WCopying? ==> r.w.done <= |r.w.data|)
    && (r.r.RCopying? ==> |r.r.buf| <= r.r.len)
  }

  lemma InvCountable(r: R.Ring)
    requires R.Inv(r)
    ensures Countable(r)
  {
  }

  // What may still be turned into something to send: the close, the answer to the request.
  function Awake(x: Side): nat {
    (if x.e.ready == E.CLOSED then 0 else if x.e.ready == E.CLOSING then 1 else 2)
    + (if x.m.server && x.m.reply == [] then 1 else 0)
  }

  ghost function PingsLeft(x: E.Endpoint, y: E.Endpoint): nat
    requires E.AllValid(x.queued) && |y.rx| <= |y.arrived|
  {
    var sent, taken := |Pings(AsRead(x.queued))|, |Pings(Frames(E.Taken(y)))|;
    if taken <= sent then sent - taken else 0
  }

  // A side's share of the bytes left, which count more the further they have to go: three each
  // while they wait to be written, two between the indices, one in the receive buffer.
  function Weight(x: End): int {
    3 * (|Join(x.x.say)| + |x.x.e.tx|) + 2 * |x.out.sent| - 2 * |x.inp.got| + |x.x.e.rx|
  }

  // A side has less to do than before.
  predicate Better(x: End, y: End) {
    || Awake(y.x) < Awake(x.x)
    || (Awake(y.x) == Awake(x.x) && Weight(y) < Weight(x))
  }

  // Only where it is in its program has changed.
  predicate SameContent(x: End, y: End) {
    && y.x == x.x.(at := y.x.at) && y.out.sent == x.out.sent && y.out.got == x.out.got && y.out.cap == x.out.cap
    && y.inp.sent == x.inp.sent && y.inp.got == x.inp.got && y.inp.cap == x.inp.cap
  }

  // ---- Where a side is in its program ----

  predicate Unread(x: End) {
    |x.inp.got| < |x.inp.sent|
  }

  // The ring has room for some of what is to be sent.
  predicate Room(x: End)
    requires Countable(x.out)
  {
    x.x.e.tx != [] && R.Accepted(x.out.cap, |x.out.sent| - |x.out.got|, |x.x.e.tx|) > 0
  }

  // A side has something to do that will change more than its place in the program.
  predicate Work(x: End)
    requires Countable(x.out)
  {
    || x.x.say != []
    || (Unread(x) && (x.x.m.outcome == H.Waiting || Live(x.x.e)))
    || (Live(x.x.e) && (Room(x) || HasFrame(x.x.e) || MustClose(x.x.e)))
  }

  // A complete frame heads the receive buffer that is not taken and ends the connection.
  predicate MustClose(e: E.Endpoint) {
    Parse(e.rx).Got? && !Passes(Parse(e.rx).frame.opcode) && !E.Ending(e.ready)
  }

  // An operation under way that will transfer nothing.
  predicate FutileWrite(r: R.Ring)
    requires Countable(r)
  {
    match r.w
    case WLoadedBoth(data, _, _, snap) => R.Accepted(r.cap, |r.sent| - snap, |data|) == 0
    case WCopying(data, _, _) => data == []
    case _ => false
  }

  predicate FutileRead(r: R.Ring) {
    match r.r
    case RLoadedWrite(_, _, snap) => snap == |r.got|
    case RLoadedBoth(_, _, _, snap) => snap == |r.got|
    case _ => false
  }

  // This time round it is past the point where there is something to do.
  predicate Missed(x: End)
    requires Countable(x.out)
  {
    if x.x.say != [] then false
    else if Unread(x) then x.x.at.Sending? || x.x.at.Finishing? || x.x.at.Dispatching? || FutileRead(x.inp)
    else if Room(x) then x.x.at.Finishing? || x.x.at.Dispatching? || FutileWrite(x.out)
    else false
  }

  function ReaderSteps(r: R.Ring): nat
    requires Countable(r)
  {
    match r.r
    case RDone(_) => 0
    case RLoadedWrite(_, _, _) => r.cap + 5
    case RLoadedBoth(_, _, _, _) => r.cap + 4
    case RCopying(len, _, buf) => len - |buf| + 1
  }

  // More than any one operation takes.
  function Span(x: End): nat {
    |x.x.e.tx| + (if x.x.say != [] then |x.x.say[0]| else 0) + x.out.cap + x.inp.cap + 20
  }

  // Steps to the end of the program, at most.
  function Pos(x: End): nat
    requires Countable(x.inp)
  {
    if !x.out.w.WDone? then (if x.x.say != [] then 3 * Span(x) else Span(x)) + R.WriterSteps(x.out.w)
    else if !x.inp.r.RDone? then (if x.x.m.outcome == H.Waiting then 3 * Span(x) else 2 * Span(x)) + ReaderSteps(x.inp)
    else if x.x.say != [] then 4 * Span(x)
    else match x.x.at
         case Outside => 4 * Span(x)
         case Receiving => 3 * Span(x)
         case Sending => 2 * Span(x)
         case Finishing => Span(x)
         case Dispatching => 0
  }

  // And to the point where there is something to do.
  function Rank(x: End): nat
    requires Countable(x.out) && Countable(x.inp)
  {
    Pos(x) + if Missed(x) then 5 * Span(x) else 0
  }

  predicate Advances(x: End, y: End)
    requires Countable(x.out) && Countable(x.inp) && Countable(y.out) && Countable(y.inp)
  {
    Better(x, y) || (SameContent(x, y) && (Work(x) ==> Rank(y) < Rank(x)))
  }

  // One step on in the program, or from its end to its start when the point had been missed.
  lemma Onward(x: End, y: End)
    requires Countable(x.out) && Countable(x.inp) && Countable(y.out) && Countable(y.inp) && SameContent(x, y)
    requires (Pos(y) < Pos(x) && (Missed(y) ==> Missed(x))) || (Missed(x) && !Missed(y) && Pos(y) <= Pos(x) + 4 * Span(x))
    ensures Rank(y) < Rank(x)
  {
  }

  // ---- Writing ----

  lemma JoinTail(say: seq<seq<byte>>)
    requires say != []
    ensures |Join(say)| == |say[0]| + |Join(say[1..])|
  {
  }

  // A write ready for its next step.
  ghost predicate Ready(x: Side, r: R.Ring, p: Plan) {
    && Speaks(x, r, p) && (Spoken(x, p) == p.mine || Spoken(x, p) == [])
    && Countable(r) && R.Indices(r) && !r.w.WDone? && (r.w.WLoadedBoth? ==> R.Loaded(r)) && Countable(R.WriterStep(r))
    && (if x.say != [] then x.at.Outside? else x.at.Sending? && Live(x.e))
  }

  // A write just begun that finds no room.
  ghost predicate NoRoomFor(r: R.Ring)
    requires Countable(r)
  {
    r.w.WLoadedOwn? && R.Accepted(r.cap, |r.sent| - |r.got|, |r.w.data|) == 0
  }

  // The write goes on: what will come of it is settled once both indices are loaded.
  lemma WriteGoesOn(x: Side, r: R.Ring, p: Plan)
    requires Ready(x, r, p) && !R.WriterStep(r).w.WDone?
    ensures var t := R.WriterStep(r);
            && t.sent == r.sent && R.WriterSteps(t.w) < R.WriterSteps(r.w)
            && (FutileWrite(t) ==> FutileWrite(r) || NoRoomFor(r))
  {
    if r.w.WLoadedBoth? {
      R.LoadedTakes(r);
    }
  }

  // A line is taken whole.
  lemma LineEnds(x: Side, r: R.Ring, p: Plan)
    requires Ready(x, r, p) && R.WriterStep(r).w.WDone? && x.say != []
    ensures R.WriterStep(r).sent == r.sent + x.say[0] && x.say[0] != []
  {
    RoomToSay(x, r, p);
    WriterNext(r);
  }

  // Bytes of frames are taken, or it was settled that none are.
  lemma BytesEnd(x: Side, r: R.Ring, p: Plan)
    requires Ready(x, r, p) && R.WriterStep(r).w.WDone? && x.say == []
    ensures var t := R.WriterStep(r);
            && t.w.n <= |x.e.tx| && |t.sent| == |r.sent| + t.w.n
            && (t.w.n == 0 ==> t.sent == r.sent && FutileWrite(r))
  {
    WriterNext(r);
    if r.w.WLoadedBoth? {
      R.LoadedTakes(r);
    } else if r.w.WCopying? && r.w.data == [] {
      assert r.sent + r.w.data == r.sent;
    }
  }

  lemma WriteOwn(keys: Keys, x: End, p: Plan)
    requires Ready(x.x, x.out, p) && x.inp.r.RDone? && Countable(x.inp) && CanMove(x, WriteStep)
    ensures var y := Moved(keys, x, WriteStep); Countable(y.out) && Countable(y.inp) && Advances(x, y)
  {
    var r, t := x.out, R.WriterStep(x.out);
    var y := Moved(keys, x, WriteStep);
    WriterFrame(r);
    if !t.w.WDone? {
      WriteGoesOn(x.x, r, p);
      StepWritten(x, y);
    } else if x.x.say != [] {
      LineEnds(x.x, r, p);
      JoinTail(x.x.say);
    } else {
      BytesEnd(x.x, r, p);
      if t.w.n == 0 {
        NothingWritten(x, y);
      }
    }
  }

  lemma StepWritten(x: End, y: End)
    requires Countable(x.out) && Countable(x.inp) && Countable(y.out) && SameContent(x, y) && y.x == x.x && y.inp == x.inp
    requires !x.out.w.WDone? && !y.out.w.WDone? && R.WriterSteps(y.out.w) < R.WriterSteps(x.out.w)
    requires x.x.say == [] ==> x.x.at.Sending?
    requires x.out.w.WLoadedOwn? && x.x.say == [] ==> x.out.w.data == x.x.e.tx
    requires FutileWrite(y.out) ==> FutileWrite(x.out) || NoRoomFor(x.out)
    ensures Rank(y) < Rank(x)
  {
    Onward(x, y);
  }

  lemma NothingWritten(x: End, y: End)
    requires Countable(x.out) && Countable(x.inp) && Countable(y.out) && SameContent(x, y) && y.inp == x.inp && x.inp.r.RDone?
    requires x.x.say == [] && x.x.at.Sending? && y.x.at.Finishing? && !x.out.w.WDone? && y.out.w.WDone? && FutileWrite(x.out)
    ensures Rank(y) < Rank(x)
  {
    Onward(x, y);
  }

  // ---- Reading ----

  // The reader's steps up to the last byte.
  lemma ReaderGoesOn(r: R.Ring, maxLen: nat)
    requires R.Inv(r) && R.Indices(r) && !r.r.RDone? && Countable(R.ReaderStep(r)) && 0 < maxLen
    requires r.r.RLoadedWrite? || r.r.RLoadedBoth? ==> r.r.maxLen == maxLen
    ensures Countable(r)
    ensures var t := R.ReaderStep(r);
            if t.r.RDone? then
              if t.r.buf == [] then t.got == r.got && FutileRead(r) else t.got == r.got + t.r.buf && t.got <= r.sent
            else t.got == r.got && ReaderSteps(t) < ReaderSteps(r) && (FutileRead(t) ==> FutileRead(r))
  {
    if r.r.RLoadedBoth? {
      R.CalcSizeExact(r.cap, |r.got|, r.r.snap);
    }
  }

  // A server replies once, a client never.
  lemma RepliesOnce(x: Side, y: Side, p: Plan, b: byte)
    requires Machine(x, p) && Machine(y, p) && y.m == H.Feed(x.m, b) && x.m.reply <= y.m.reply
    ensures if p.server then x.m.reply == [] || y.m.reply == x.m.reply else y.m.reply == x.m.reply
  {
  }

  // One byte heard: one less between the indices, and what it makes a server say it says once.
  lemma HearGain(keys: Keys, x: Side, b: byte)
    requires x.say == [] && var y := Hear(keys, x, b);
             && y.m.server == x.m.server && y.e == (if y.m.outcome == H.Opened then x.e.(ready := E.OPEN) else x.e)
             && (y.m.reply == x.m.reply || (x.m.server && x.m.reply == [])) && x.e.ready == E.CONNECTING
    ensures var y := Hear(keys, x, b);
            Awake(y) < Awake(x) || (Awake(y) == Awake(x) && y.say == [] && y.e.tx == x.e.tx && y.e.rx == x.e.rx)
  {
    var y := Hear(keys, x, b);
    assert y.m.reply == x.m.reply ==> y.say == [];
  }

  lemma ReceivedGain(keys: Keys, x: Side, buf: seq<byte>)
    requires x.m.outcome == H.Opened && Live(x.e) && 0 < |buf| <= E.MAX_READ
    ensures var y := Taken(keys, x, buf);
            Awake(y) == Awake(x) && y.say == x.say && y.e.tx == x.e.tx && |y.e.rx| == |x.e.rx| + |buf|
  {
  }

  lemma HearBetter(keys: Keys, x: End, p: Plan, t: R.Ring)
    requires Sound(p) && Machine(x.x, p) && Hears(x.x, x.inp, p) && x.x.say == [] && x.x.m.outcome == H.Waiting
    requires t.r.RDone? && |t.r.buf| == 1 && t.got == x.inp.got + t.r.buf && t.got <= x.inp.sent
    requires Agrees(x.inp.sent, p.theirs)
    ensures Better(x, End(Taken(keys, x.x, t.r.buf), x.out, t))
  {
    var b := t.r.buf[0];
    assert t.r.buf == [b];
    assert x.x.heard + [] == x.x.heard;
    H.ReadingProgress(H.Start(p.texts, p.server), p.theirs, |x.x.heard|, x.x.m);
    NextByte(x.inp.got, x.inp.sent, p.theirs, b);
    HearMachine(keys, x.x, p, b);
    RepliesOnce(x.x, Hear(keys, x.x, b), p, b);
    HearGain(keys, x.x, b);
  }

  // What a read brings that has come to its end with something.
  lemma TakenBetter(keys: Keys, x: End, p: Plan, t: R.Ring)
    requires Sound(p) && Machine(x.x, p) && Hears(x.x, x.inp, p) && Agrees(x.inp.sent, p.theirs)
    requires x.x.say == [] && (x.x.m.outcome == H.Opened ==> Live(x.x.e))
    requires t.r.RDone? && t.r.buf != [] && t.got == x.inp.got + t.r.buf && t.got <= x.inp.sent && |t.r.buf| <= ReadSize(x.x)
    ensures Better(x, End(Taken(keys, x.x, t.r.buf), x.out, t))
  {
    if x.x.m.outcome == H.Waiting {
      HearBetter(keys, x, p, t);
    } else {
      ReceivedGain(keys, x.x, t.r.buf);
    }
  }

  // Where a side is that has a read under way.
  predicate ReadPlace(x: Side) {
    x.say == [] && if x.m.outcome == H.Waiting then x.at.Outside? && !Live(x.e) else x.at.Receiving? && x.m.outcome == H.Opened && Live(x.e)
  }

  lemma ReadOwn(keys: Keys, x: End, p: Plan)
    requires Sound(p) && Machine(x.x, p) && Hears(x.x, x.inp, p) && Agrees(x.inp.sent, p.theirs) && R.Inv(x.inp)
    requires ReadPlace(x.x) && x.out.w.WDone? && CanMove(x, ReadStep) && Countable(x.out) && Countable(R.ReaderStep(x.inp))
    ensures var y := Moved(keys, x, ReadStep); Countable(x.inp) && Countable(y.out) && Countable(y.inp) && Advances(x, y)
  {
    var r, t := x.inp, R.ReaderStep(x.inp);
    var y := Moved(keys, x, ReadStep);
    ReadGoesOn(x.x, r);
    ReaderGoesOn(r, ReadSize(x.x));
    ReaderFrame(r);
    if t.r.RDone? && t.r.buf != [] {
      TakenBetter(keys, x, p, t);
    } else {
      StepRead(keys, x, t);
    }
  }

  lemma StepRead(keys: Keys, x: End, t: R.Ring)
    requires Countable(x.out) && Countable(x.inp) && Countable(t) && x.out.w.WDone? && !x.inp.r.RDone? && ReadPlace(x.x)
    requires t.got == x.inp.got && t.sent == x.inp.sent && t.cap == x.inp.cap
    requires if t.r.RDone? then t.r.buf == [] && FutileRead(x.inp)
             else ReaderSteps(t) < ReaderSteps(x.inp) && (FutileRead(t) ==> FutileRead(x.inp))
    ensures var y := End(if t.r.RDone? then Taken(keys, x.x, t.r.buf) else x.x, x.out, t);
            SameContent(x, y) && (Work(x) ==> Rank(y) < Rank(x))
  {
    var y := End(if t.r.RDone? then Taken(keys, x.x, t.r.buf) else x.x, x.out, t);
    if Work(x) {
      Onward(x, y);
    }
  }

  // ---- Beginning an operation ----

  lemma BeginOwn(keys: Keys, x: End, p: Plan, m: Move)
    requires m == Say || m == Poll || m == Receive || m == Send
    requires CanMove(x, m) && m == OwnMove(x) && Placed(x.x, x.out.w, x.inp.r) && Machine(x.x, p)
    requires Countable(x.out) && Countable(x.inp) && x.inp.got <= x.inp.sent
    ensures var y := Moved(keys, x, m); Countable(y.out) && Countable(y.inp) && Advances(x, y)
  {
    var y := Moved(keys, x, m);
    if Work(x) {
      Onward(x, y);
    }
  }

  // ---- Ending the loops, and dispatching ----

  lemma FinishOwn(keys: Keys, x: End)
    requires CanMove(x, Finish(true)) && Placed(x.x, x.out.w, x.inp.r) && Countable(x.out) && Countable(x.inp)
    ensures var y := Moved(keys, x, Finish(true)); Countable(y.out) && Countable(y.inp) && Advances(x, y)
  {
    if !E.Enabled(x.x.e, E.Drained) {
      NextPlace(x, x.(x := x.x.(at := Dispatching)));
    }
  }

  lemma EndDispatchOwn(keys: Keys, x: End)
    requires CanMove(x, EndDispatch) && Placed(x.x, x.out.w, x.inp.r) && Countable(x.out) && Countable(x.inp)
    ensures var y := Moved(keys, x, EndDispatch); Countable(y.out) && Countable(y.inp) && Advances(x, y)
  {
    if !Parse(x.x.e.rx).Got? || E.Ending(x.x.e.ready) {
      NextPlace(x, x.(x := x.x.(at := Outside)));
    }
  }

  lemma NextPlace(x: End, y: End)
    requires Countable(x.out) && Countable(x.inp) && Idle(x) && x.x.say == [] && y == x.(x := x.x.(at := y.x.at))
    requires (x.x.at.Finishing? && y.x.at.Dispatching?) || (x.x.at.Sending? && x.x.e.tx == [] && y.x.at.Dispatching?)
             || (x.x.at.Dispatching? && y.x.at.Outside? && !HasFrame(x.x.e) && !MustClose(x.x.e) && x.x.m.outcome == H.Opened)
    ensures SameContent(x, y) && (Work(x) ==> Rank(y) < Rank(x))
  {
    if Work(x) {
      Onward(x, y);
    }
  }

  lemma {:induction false} ReadSnoc(os: seq<Outgoing>, o: Outgoing)
    requires E.AllValid(os) && o.Valid() && o.opcode != PING
    ensures E.AllValid(os + [o]) && Pings(AsRead(os + [o])) == Pings(AsRead(os))
  {
    ReadConcat(os, [o]);
    assert [o][1..] == [] && AsRead([o]) == [Delivered(o)] && [Delivered(o)][1..] == [];
    PingsConcat(AsRead(os), AsRead([o]));
  }

  lemma {:induction false} ConsumeQueues(keys: Keys, e: E.Endpoint, f: Incoming)
    requires E.AllValid(e.queued) && E.Sendable(PONG, f.payload) && f.size <= |e.rx|
    ensures var g := E.Consume(keys, e, f);
            && E.AllValid(g.queued) && Pings(AsRead(g.queued)) == Pings(AsRead(e.queued))
            && g.ready == e.ready && g.rx == e.rx[f.size..] && (f.opcode != PING ==> g.tx == e.tx)
  {
    if f.opcode == PING && !E.Ending(e.ready) {
      ReadSnoc(e.queued, Outgoing(PONG, f.payload, e.useMask, keys(e.draws)));
    }
  }

  // The PINGs taken so far.
  ghost function PingsTaken(e: E.Endpoint): nat
    requires E.Inbound(e)
  {
    |Pings(Frames(E.Taken(e)))|
  }

  lemma {:induction false} ConsumePings(keys: Keys, e: E.Endpoint)
    requires E.Inbound(e) && Parse(e.rx).Got? && Passes(Parse(e.rx).frame.opcode)
    ensures var f := Parse(e.rx).frame;
            && E.Sendable(PONG, f.payload) && 2 <= f.size <= |e.rx| && E.Inbound(E.Consume(keys, e, f))
            && PingsTaken(E.Consume(keys, e, f)) == PingsTaken(e) + if f.opcode == PING then 1 else 0
  {
    var f := Parse(e.rx).frame;
    ParseSize(e.rx);
    E.ConsumeInbound(keys, e);
    E.ConsumeTaken(keys, e);
    PingsConcat(Frames(E.Taken(e)), [f]);
    assert [f][1..] == [];
  }

  // Taking a frame takes a PING, or else it only shortens the receive buffer.
  lemma {:induction false} TakeEffect(keys: Keys, e: E.Endpoint)
    requires E.Inbound(e) && E.AllValid(e.queued) && HasFrame(e)
    ensures var f := Parse(e.rx).frame;
            && E.Sendable(PONG, f.payload) && 2 <= f.size <= |e.rx|
            && var g := E.Consume(keys, e, f);
               && E.Inbound(g) && E.AllValid(g.queued) && Pings(AsRead(g.queued)) == Pings(AsRead(e.queued))
               && g.ready == e.ready && |g.rx| < |e.rx|
               && (PingsTaken(e) < PingsTaken(g) || (PingsTaken(e) == PingsTaken(g) && g.tx == e.tx))
  {
    ConsumePings(keys, e);
    ConsumeQueues(keys, e, Parse(e.rx).frame);
  }

  // ---- Both sides ----

  ghost predicate Counted(x: End) {
    E.AllValid(x.x.e.queued) && |x.x.e.rx| <= |x.x.e.arrived| && Countable(x.out) && Countable(x.inp)
  }

  // What two ends have left to do: what can still turn into something to send, and bytes.
  datatype Measure = Measure(chances: nat, bytes: int)

  ghost function Left(x: End, z: End): Measure
    requires Counted(x) && Counted(z)
  {
    Measure(PingsLeft(x.x.e, z.x.e) + PingsLeft(z.x.e, x.x.e) + Awake(x.x) + Awake(z.x), Weight(x) + Weight(z))
  }

  predicate Less(m: Measure, n: Measure) {
    m.chances < n.chances || (m.chances == n.chances && m.bytes < n.bytes)
  }

  // What holds of two ends that share their rings.
  ghost predicate Joined(x: End, px: Plan, z: End, pz: Plan) {
    && EndInv(x, px) && EndInv(z, pz) && R.Inv(x.out) && R.Inv(x.inp)
    && z.inp == x.out && z.out == x.inp && px.mine == pz.theirs && pz.mine == px.theirs
  }

  lemma JoinedCounted(x: End, px: Plan, z: End, pz: Plan)
    requires Joined(x, px, z, pz)
    ensures Counted(x) && Counted(z) && 0 <= Left(x, z).bytes && x.inp.got <= x.inp.sent
  {
    InvCountable(x.out);
    InvCountable(x.inp);
  }

  // The other end after a move of x to y.
  function Peer(z: End, y: End): End {
    End(z.x, y.inp, y.out)
  }

  lemma JoinedKeeps(keys: Keys, x: End, px: Plan, z: End, pz: Plan, m: Move)
    requires Joined(x, px, z, pz) && CanMove(x, m)
    ensures Joined(Moved(keys, x, m), px, Peer(z, Moved(keys, x, m)), pz)
  {
    EndAgrees(z, pz);
    MoveKeeps(keys, x, px, m);
    MoveFrame(keys, x, m);
    PeerKeeps(z, Moved(keys, x, m).inp, Moved(keys, x, m).out, pz);
  }

  // Ring operations, and ends of loops, queue nothing but a close and take no frame.
  lemma QuietFrame(keys: Keys, x: End, m: Move)
    requires CanMove(x, m) && !m.Call? && !m.TakeFrame? && |x.x.e.rx| <= |x.x.e.arrived| && E.AllValid(x.x.e.queued)
    ensures var e := Moved(keys, x, m).x.e;
            && E.AllValid(e.queued) && Pings(AsRead(e.queued)) == Pings(AsRead(x.x.e.queued))
            && |e.rx| <= |e.arrived| && E.Taken(e) == E.Taken(x.x.e)
  {
    TakenSame(keys, x, m);
    if m.EndDispatch? {
      if !E.Ending(x.x.e.ready) {
        ReadSnoc(x.x.e.queued, E.CLOSE_FRAME);
      }
    } else {
      QuietMove(keys, x, m);
    }
  }

  lemma TakenSame(keys: Keys, x: End, m: Move)
    requires CanMove(x, m) && !m.Call? && !m.TakeFrame? && |x.x.e.rx| <= |x.x.e.arrived|
    ensures var e := Moved(keys, x, m).x.e; |e.rx| <= |e.arrived| && E.Taken(e) == E.Taken(x.x.e)
  {
  }

  // The other end's part of a ring after a step of this end.
  ghost predicate SameForPeer(x: End, y: End) {
    && y.out.r == x.out.r && y.out.got == x.out.got && y.out.cap == x.out.cap
    && y.inp.w == x.inp.w && y.inp.sent == x.inp.sent && y.inp.cap == x.inp.cap
  }

  // The other end neither gains nor loses by it, and unless there has been a change it is where it was.
  lemma PeerSame(x: End, y: End, z: End)
    requires Counted(x) && Counted(y) && Counted(z) && z.inp == x.out && z.out == x.inp && SameForPeer(x, y)
    ensures Counted(Peer(z, y)) && Weight(Peer(z, y)) == Weight(z)
    ensures SameContent(x, y) ==> SameContent(z, Peer(z, y)) && Work(Peer(z, y)) == Work(z) && Rank(Peer(z, y)) == Rank(z)
  {
    if SameContent(x, y) {
      SamePlace(z, Peer(z, y));
    }
  }

  lemma SamePlace(z: End, w: End)
    requires Countable(z.out) && Countable(z.inp) && Countable(w.out) && Countable(w.inp) && w.x == z.x
    requires w.out.w == z.out.w && w.out.sent == z.out.sent && w.out.got == z.out.got && w.out.cap == z.out.cap
    requires w.inp.r == z.inp.r && w.inp.sent == z.inp.sent && w.inp.got == z.inp.got && w.inp.cap == z.inp.cap
    ensures Work(w) == Work(z) && Rank(w) == Rank(z)
  {
    SamePos(z, w);
    SameMissed(z, w);
  }

  lemma SamePos(z: End, w: End)
    requires Countable(z.inp) && Countable(w.inp) && w.x == z.x && w.out.w == z.out.w && w.out.cap == z.out.cap
    requires w.inp.r == z.inp.r && w.inp.cap == z.inp.cap
    ensures Pos(w) == Pos(z)
  {
  }

  lemma SameMissed(z: End, w: End)
    requires Countable(z.out) && Countable(w.out) && w.x == z.x && w.out.w == z.out.w && w.out.cap == z.out.cap
    requires w.out.sent == z.out.sent && w.out.got == z.out.got
    requires w.inp.r == z.inp.r && w.inp.sent == z.inp.sent && w.inp.got == z.inp.got
    ensures Missed(w) == Missed(z) && Work(w) == Work(z)
  {
  }

  // After a step of x to y: less is left for both, or nothing has changed but x's place in its program.
  ghost predicate Goes(x: End, z: End, y: End)
    requires Counted(x) && Counted(z) && Counted(y) && Counted(Peer(z, y))
  {
    || Less(Left(y, Peer(z, y)), Left(x, z))
    || (Left(y, Peer(z, y)) == Left(x, z) && SameContent(x, y) && SameContent(z, Peer(z, y))
        && Work(y) == Work(x) && Work(Peer(z, y)) == Work(z)
        && (Work(x) ==> Rank(y) < Rank(x)) && Rank(Peer(z, y)) == Rank(z))
  }

  lemma QuietGoes(x: End, y: End, z: End)
    requires Counted(x) && Counted(y) && Counted(z) && z.inp == x.out && z.out == x.inp && SameForPeer(x, y)
    requires Pings(AsRead(y.x.e.queued)) == Pings(AsRead(x.x.e.queued)) && E.Taken(y.x.e) == E.Taken(x.x.e) && Advances(x, y)
    ensures Counted(Peer(z, y)) && Goes(x, z, y)
  {
    PeerSame(x, y, z);
    assert PingsLeft(y.x.e, z.x.e) == PingsLeft(x.x.e, z.x.e) && PingsLeft(z.x.e, y.x.e) == PingsLeft(z.x.e, x.x.e);
  }

  // No more PINGs have been taken than sent.
  lemma PingsCounted(x: End, px: Plan, z: End, pz: Plan)
    requires Joined(x, px, z, pz)
    ensures PingsTaken(z.x.e) <= |Pings(AsRead(x.x.e.queued))|
  {
    if z.x.m.outcome == H.Opened {
      OpenFlow(x, px, z, pz);
      FlowPings(x.x.e, x.out.sent[|x.out.got|..], z.x.e);
    } else {
      WaitingFlow(x, px, z, pz);
      NothingYet(z.x.e);
    }
  }

  // Taking a frame leaves less for both.
  lemma TakeLess(x: End, e: E.Endpoint, z: End)
    requires var y := x.(x := x.x.(e := e));
             Counted(x) && Counted(z) && Counted(y) && E.Inbound(x.x.e) && E.Inbound(e)
    requires Pings(AsRead(e.queued)) == Pings(AsRead(x.x.e.queued)) && e.ready == x.x.e.ready && |e.rx| < |x.x.e.rx|
    requires PingsTaken(x.x.e) < PingsTaken(e) || (PingsTaken(x.x.e) == PingsTaken(e) && e.tx == x.x.e.tx)
    requires PingsTaken(e) <= |Pings(AsRead(z.x.e.queued))|
    ensures Less(Left(x.(x := x.x.(e := e)), z), Left(x, z))
  {
    var y := x.(x := x.x.(e := e));
    TakePings(x.x.e, e, z.x.e);
    assert Awake(y.x) == Awake(x.x);
    assert e.tx == x.x.e.tx ==> Weight(y) < Weight(x);
  }

  lemma TakePings(e: E.Endpoint, g: E.Endpoint, z: E.Endpoint)
    requires E.AllValid(e.queued) && E.AllValid(g.queued) && E.AllValid(z.queued) && E.Inbound(e) && E.Inbound(g) && |z.rx| <= |z.arrived|
    requires Pings(AsRead(g.queued)) == Pings(AsRead(e.queued)) && PingsTaken(e) <= PingsTaken(g) <= |Pings(AsRead(z.queued))|
    ensures PingsLeft(g, z) == PingsLeft(e, z)
    ensures PingsLeft(z, g) == PingsLeft(z, e) - (PingsTaken(g) - PingsTaken(e))
  {
  }

  lemma OngoingOwn(keys: Keys, x: End, p: Plan)
    requires EndInv(x, p) && R.Inv(x.out) && R.Inv(x.inp) && R.Indices(x.out) && R.Indices(x.inp) && !Idle(x)
    requires CanMove(x, OwnMove(x)) && Agrees(x.inp.sent, p.theirs)
    ensures var y := Moved(keys, x, OwnMove(x));
            Countable(x.out) && Countable(x.inp) && Countable(y.out) && Countable(y.inp) && Advances(x, y)
  {
    InvCountable(x.out);
    InvCountable(x.inp);
    if !x.out.w.WDone? {
      SpokenPrefix(x.x, p);
      WriterReady(x.out);
      WriteOwn(keys, x, p);
    } else {
      ReaderReady(x.inp);
      ReadOwn(keys, x, p);
    }
  }

  lemma WriterReady(r: R.Ring)
    requires R.Inv(r) && R.Indices(r) && !r.w.WDone?
    ensures Countable(R.WriterStep(r)) && (r.w.WLoadedBoth? ==> R.Loaded(r))
  {
    R.StepKeeps(r, R.WriterMoves);
    InvCountable(R.WriterStep(r));
  }

  lemma ReaderReady(r: R.Ring)
    requires R.Inv(r) && R.Indices(r) && !r.r.RDone?
    ensures Countable(R.ReaderStep(r))
  {
    R.StepKeeps(r, R.ReaderMoves);
    InvCountable(R.ReaderStep(r));
  }

  lemma QuietOwn(keys: Keys, x: End, p: Plan)
    requires EndInv(x, p) && Countable(x.out) && Countable(x.inp) && x.inp.got <= x.inp.sent && Idle(x)
    requires CanMove(x, OwnMove(x)) && OwnMove(x) != TakeFrame
    ensures var y := Moved(keys, x, OwnMove(x)); Countable(y.out) && Countable(y.inp) && Advances(x, y)
  {
    match OwnMove(x)
    case Finish(_) => FinishOwn(keys, x);
    case EndDispatch => EndDispatchOwn(keys, x);
    case m => BeginOwn(keys, x, p, m);
  }

  lemma TakeGoes(keys: Keys, x: End, px: Plan, z: End, pz: Plan)
    requires Joined(x, px, z, pz) && CanMove(x, TakeFrame)
    ensures var y := Moved(keys, x, TakeFrame);
            Counted(x) && Counted(z) && Counted(y) && Counted(Peer(z, y)) && Goes(x, z, y)
  {
    ParseSize(x.x.e.rx);
    var e := E.Consume(keys, x.x.e, Parse(x.x.e.rx).frame);
    var y := x.(x := x.x.(e := e));
    JoinedCounted(x, px, z, pz);
    JoinedKeeps(keys, x, px, z, pz, TakeFrame);
    TakeEffect(keys, x.x.e);
    PingsCounted(Peer(z, y), pz, y, px);
    assert Peer(z, y) == z;
    TakeLess(x, e, z);
  }

  lemma MoveGoes(keys: Keys, x: End, px: Plan, z: End, pz: Plan, m: Move)
    requires Joined(x, px, z, pz) && CanMove(x, m) && !m.Call? && !m.TakeFrame?
    requires var y := Moved(keys, x, m);
             Countable(x.out) && Countable(x.inp) && Countable(y.out) && Countable(y.inp) && Advances(x, y)
    ensures var y := Moved(keys, x, m);
            Counted(x) && Counted(z) && Counted(y) && Counted(Peer(z, y)) && Goes(x, z, y)
  {
    JoinedCounted(x, px, z, pz);
    QuietFrame(keys, x, m);
    MoveFrame(keys, x, m);
    QuietGoes(x, Moved(keys, x, m), z);
  }

  // Whatever a side's program does next, less is left to do or the side is further on in its program.
  lemma OwnGoes(keys: Keys, x: End, px: Plan, z: End, pz: Plan)
    requires Joined(x, px, z, pz)
    ensures CanMove(x, OwnMove(x))
    ensures var y := Moved(keys, x, OwnMove(x));
            && Joined(y, px, Peer(z, y), pz)
            && Counted(x) && Counted(z) && Counted(y) && Counted(Peer(z, y)) && Goes(x, z, y)
  {
    R.InvIndices(x.out);
    R.InvIndices(x.inp);
    OwnEnabled(x, px);
    JoinedCounted(x, px, z, pz);
    JoinedKeeps(keys, x, px, z, pz, OwnMove(x));
    if OwnMove(x) == TakeFrame {
      TakeGoes(keys, x, px, z, pz);
    } else {
      if Idle(x) {
        QuietOwn(keys, x, px);
      } else {
        EndAgrees(z, pz);
        OngoingOwn(keys, x, px);
      }
      MoveGoes(keys, x, px, z, pz, OwnMove(x));
    }
  }

  // ---- When neither side has work ----

  lemma TheirsNonEmpty(p: Plan)
    requires Sound(p)
    ensures p.theirs != []
  {
  }

  // All having been said and read, the reader's connection is open.
  lemma AllHeard(x: End, px: Plan, z: End, pz: Plan)
    requires Joined(x, px, z, pz) && x.x.say == [] && Spoken(x.x, px) == px.mine && x.out.got == x.out.sent
    ensures z.x.m.outcome == H.Opened
  {
    H.ReadingProgress(H.Start(pz.texts, pz.server), pz.theirs, |z.x.heard|, z.x.m);
  }

  ghost predicate NoWork(x: End, z: End) {
    Countable(x.out) && Countable(z.out) && !Work(x) && !Work(z)
  }

  lemma AllRead(x: End, px: Plan, z: End, pz: Plan)
    requires Joined(x, px, z, pz) && NoWork(x, z) && (z.x.m.outcome == H.Waiting || Live(z.x.e))
    ensures x.x.say == [] && z.x.say == [] && x.out.got == x.out.sent
  {
    InvCountable(x.out);
  }

  // There is no deadlock in the handshake.
  lemma BothOpen(x: End, px: Plan, z: End, pz: Plan)
    requires Joined(x, px, z, pz) && NoWork(x, z) && !px.server && pz.server
    ensures x.x.m.outcome == H.Opened && z.x.m.outcome == H.Opened
  {
    if z.x.m.outcome == H.Waiting {
      AllRead(x, px, z, pz);
      AllHeard(x, px, z, pz);
    }
    if x.x.m.outcome == H.Waiting {
      AllRead(z, pz, x, px);
      AllHeard(z, pz, x, px);
    }
  }

  ghost predicate Done(x: Side, z: Side) {
    z.e.delivered == SentMessages(x.e.queued)
  }

  // Nor after it: all that was queued has been delivered.
  lemma RestDone(x: End, px: Plan, z: End, pz: Plan)
    requires Joined(x, px, z, pz) && NoWork(x, z) && x.x.m.outcome == H.Opened && z.x.m.outcome == H.Opened && Live(z.x.e)
    ensures Done(x.x, z.x)
  {
    AllRead(x, px, z, pz);
    TheirsNonEmpty(pz);
    RingEmpty(x.out);
    if x.x.e.tx != [] {
      R.AcceptedExact(x.out.cap, 0, |x.x.e.tx|);
    }
    NoFrames(z.x.e);
    DirectionDelivers(x, px, z, pz);
  }

  lemma RingEmpty(r: R.Ring)
    requires R.Inv(r) && r.got == r.sent
    ensures r.readIndex == r.writeIndex
  {
  }

  lemma NoFrames(e: E.Endpoint)
    requires !HasFrame(e)
    ensures Frames(e.rx) == []
  {
  }

  // ---- Once delivered, always delivered ----

  // A frame that is not taken at the head of the receive buffer is the close, after all messages.
  lemma StuckDone(x: End, px: Plan, z: End, pz: Plan)
    requires Joined(x, px, z, pz) && z.x.m.outcome == H.Opened
    requires Parse(z.x.e.rx).Got? && !Passes(Parse(z.x.e.rx).frame.opcode)
    ensures Done(x.x, z.x)
  {
    var waiting := x.out.sent[|x.out.got|..];
    OpenFlow(x, px, z, pz);
    ParseStable(z.x.e.rx, waiting + x.x.e.tx);
    FlowDelivers(x.x.e, waiting, z.x.e);
  }

  lemma DeliveredGrows(keys: Keys, x: End, m: Move)
    requires CanMove(x, m)
    ensures x.x.e.delivered <= Moved(keys, x, m).x.e.delivered
  {
    if m.TakeFrame? {
      ParseSize(x.x.e.rx);
      E.ConsumeMeets(keys, x.x.e, Parse(x.x.e.rx).frame);
    }
  }

  // Ring operations and ends of loops end no open connection.
  lemma OthersEndNothing(keys: Keys, x: End, m: Move)
    requires CanMove(x, m) && !m.Call? && !m.EndDispatch? && !E.Ending(x.x.e.ready)
    requires Moved(keys, x, m).x.m.outcome != H.Dropped
    ensures !E.Ending(Moved(keys, x, m).x.e.ready)
  {
    match m
    case TakeFrame => ParseSize(x.x.e.rx);
    case _ =>
  }

  // A side's own program ends an open connection only on a frame that is not taken.
  lemma OwnEnds(keys: Keys, x: End, y: End)
    requires CanMove(x, OwnMove(x)) && y == Moved(keys, x, OwnMove(x)) && y.x.m.outcome != H.Dropped
    requires !E.Ending(x.x.e.ready) && E.Ending(y.x.e.ready)
    ensures OwnMove(x) == EndDispatch && Parse(x.x.e.rx).Got? && !Passes(Parse(x.x.e.rx).frame.opcode)
  {
    if OwnMove(x) != EndDispatch {
      OthersEndNothing(keys, x, OwnMove(x));
    }
  }

  // All has been delivered, or z is open to it.
  ghost predicate Hopeful(x: Side, z: Side) {
    Done(x, z) || !E.Ending(z.e.ready)
  }

  lemma OwnAsksNothing(keys: Keys, x: End)
    requires CanMove(x, OwnMove(x))
    ensures SentMessages(Moved(keys, x, OwnMove(x)).x.e.queued) == SentMessages(x.x.e.queued)
  {
    MoveAsks(keys, x, OwnMove(x));
    assert SentMessages(x.x.e.queued) + [] == SentMessages(x.x.e.queued);
  }

  // A step of the sender's program.
  lemma SenderHopes(keys: Keys, x: End, px: Plan, z: End, pz: Plan)
    requires Joined(x, px, z, pz) && CanMove(x, OwnMove(x))
    ensures var y := Moved(keys, x, OwnMove(x)).x;
            (Done(x.x, z.x) ==> Done(y, z.x)) && (Hopeful(x.x, z.x) ==> Hopeful(y, z.x))
  {
    OwnAsksNothing(keys, x);
  }

  lemma ReceiverDelivers(keys: Keys, x: End, px: Plan, z: End, pz: Plan)
    requires Joined(x, px, z, pz) && CanMove(z, OwnMove(z))
    ensures var w := Moved(keys, z, OwnMove(z)).x;
            w.m.outcome != H.Dropped && z.x.e.delivered <= w.e.delivered <= SentMessages(x.x.e.queued)
  {
    var w := Moved(keys, z, OwnMove(z));
    JoinedKeeps(keys, z, pz, x, px, OwnMove(z));
    DirectionDelivers(Peer(x, w), px, w, pz);
    DeliveredGrows(keys, z, OwnMove(z));
  }

  lemma DispatchOpened(x: End, p: Plan)
    requires EndInv(x, p) && x.x.at.Dispatching?
    ensures x.x.m.outcome == H.Opened
  {
  }

  // A receiver whose program ends its connection has delivered all.
  lemma ReceiverEnds(keys: Keys, x: End, px: Plan, z: End, pz: Plan)
    requires Joined(x, px, z, pz) && CanMove(z, OwnMove(z)) && Moved(keys, z, OwnMove(z)).x.m.outcome != H.Dropped
    requires !E.Ending(z.x.e.ready) && E.Ending(Moved(keys, z, OwnMove(z)).x.e.ready)
    ensures Done(x.x, z.x)
  {
    OwnEnds(keys, z, Moved(keys, z, OwnMove(z)));
    DispatchOpened(z, pz);
    StuckDone(x, px, z, pz);
  }

  // A step of the receiver's.
  lemma ReceiverHopes(keys: Keys, x: End, px: Plan, z: End, pz: Plan)
    requires Joined(x, px, z, pz) && CanMove(z, OwnMove(z))
    ensures var w := Moved(keys, z, OwnMove(z)).x;
            (Done(x.x, z.x) ==> Done(x.x, w)) && (Hopeful(x.x, z.x) ==> Hopeful(x.x, w))
  {
    ReceiverDelivers(keys, x, px, z, pz);
    if !E.Ending(z.x.e.ready) && E.Ending(Moved(keys, z, OwnMove(z)).x.e.ready) {
      ReceiverEnds(keys, x, px, z, pz);
    }
  }

  // ---- Schedules ----

  // Which side takes the next step of its program: A for true.
  type Schedule = nat -> bool

  ghost predicate Later(sched: Schedule, n: nat, who: bool) {
    exists m: nat :: n <= m && sched(m) == who
  }

  // Both sides go on for ever.
  ghost predicate Fair(sched: Schedule) {
    forall n: nat :: Later(sched, n, true) && Later(sched, n, false)
  }

  function EndOf(s: System, who: bool): End {
    if who then EndA(s) else EndB(s)
  }

  function Next(ka: Keys, kb: Keys, s: System, who: bool): System {
    var ev := if who then ByA(OwnMove(EndA(s))) else ByB(OwnMove(EndB(s)));
    if Enabled(s, ev) then Step(ka, kb, s, ev) else s
  }

  // The plans of a client and a server.
  ghost predicate Planned(s: System, pa: Plan, pb: Plan) {
    Inv(s, pa, pb) && !pa.server && pb.server
  }

  // What is left to do, and how far the side with something to do, A when both have, is from it.
  datatype Standing = Standing(chances: nat, bytes: int, who: bool, rank: nat)

  ghost function Stand(a: End, b: End): Standing
    requires Counted(a) && Counted(b)
  {
    var m := Left(a, b);
    Standing(m.chances, m.bytes, Work(a), if Work(a) then Rank(a) else Rank(b))
  }

  // After a step of who.
  predicate Forward(p: Standing, q: Standing, who: bool) {
    || q.chances < p.chances
    || (q.chances == p.chances && q.bytes < p.bytes)
    || (q.chances == p.chances && q.bytes == p.bytes && q.who == p.who && q.rank <= p.rank && (who == p.who ==> q.rank < p.rank))
  }

  // The standing with x for A, or for B.
  ghost function StandAs(x: End, z: End, who: bool): Standing
    requires Counted(x) && Counted(z)
  {
    if who then Stand(x, z) else Stand(z, x)
  }

  lemma GoesForward(x: End, z: End, y: End, who: bool)
    requires Counted(x) && Counted(z) && Counted(y) && Counted(Peer(z, y)) && Goes(x, z, y) && (Work(x) || Work(z))
    ensures Forward(StandAs(x, z, who), StandAs(y, Peer(z, y), who), who)
  {
  }

  // To B, or to A, all that was queued has been delivered.
  ghost predicate DoneTo(s: System, toB: bool) {
    if toB then Done(s.a, s.b) else Done(s.b, s.a)
  }

  ghost predicate HopefulTo(s: System, toB: bool) {
    if toB then Hopeful(s.a, s.b) else Hopeful(s.b, s.a)
  }

  lemma NextInv(ka: Keys, kb: Keys, s: System, pa: Plan, pb: Plan, who: bool)
    requires Inv(s, pa, pb)
    ensures CanMove(EndOf(s, who), OwnMove(EndOf(s, who))) && Inv(Next(ka, kb, s, who), pa, pb)
  {
    if who {
      OwnGoes(ka, EndA(s), pa, EndB(s), pb);
      StepKeeps(ka, kb, s, ByA(OwnMove(EndA(s))), pa, pb);
    } else {
      OwnGoes(kb, EndB(s), pb, EndA(s), pa);
      StepKeeps(ka, kb, s, ByB(OwnMove(EndB(s))), pa, pb);
    }
  }

  lemma NextHopes(ka: Keys, kb: Keys, s: System, pa: Plan, pb: Plan, who: bool, toB: bool)
    requires Inv(s, pa, pb) && CanMove(EndOf(s, who), OwnMove(EndOf(s, who)))
    ensures DoneTo(s, toB) ==> DoneTo(Next(ka, kb, s, who), toB)
    ensures HopefulTo(s, toB) ==> HopefulTo(Next(ka, kb, s, who), toB)
  {
    var a, b := EndA(s), EndB(s);
    if who {
      if toB { SenderHopes(ka, a, pa, b, pb); } else { ReceiverHopes(ka, b, pb, a, pa); }
    } else {
      if toB { ReceiverHopes(kb, a, pa, b, pb); } else { SenderHopes(kb, b, pb, a, pa); }
    }
  }

  lemma NextKeeps(ka: Keys, kb: Keys, s: System, pa: Plan, pb: Plan, who: bool, toB: bool)
    requires Inv(s, pa, pb)
    ensures Inv(Next(ka, kb, s, who), pa, pb)
    ensures DoneTo(s, toB) ==> DoneTo(Next(ka, kb, s, who), toB)
    ensures HopefulTo(s, toB) ==> HopefulTo(Next(ka, kb, s, who), toB)
  {
    NextInv(ka, kb, s, pa, pb, who);
    NextHopes(ka, kb, s, pa, pb, who, toB);
  }

  lemma EndsCounted(s: System, pa: Plan, pb: Plan)
    requires Inv(s, pa, pb)
    ensures Counted(EndA(s)) && Counted(EndB(s)) && 0 <= Stand(EndA(s), EndB(s)).bytes
  {
    JoinedCounted(EndA(s), pa, EndB(s), pb);
  }

  // A step leaves less to do; or the worker stays the worker, no further from its work, and nearer
  // when the step was its own.
  lemma NextGoes(ka: Keys, kb: Keys, s: System, pa: Plan, pb: Plan, who: bool)
    requires Inv(s, pa, pb) && Counted(EndA(s)) && Counted(EndB(s)) && (Work(EndA(s)) || Work(EndB(s)))
    ensures var t := Next(ka, kb, s, who);
            Counted(EndA(t)) && Counted(EndB(t)) && Forward(Stand(EndA(s), EndB(s)), Stand(EndA(t), EndB(t)), who)
  {
    InvJoined(s, pa, pb);
    if who {
      OwnForward(ka, EndA(s), pa, EndB(s), pb, who);
      MovesA(ka, kb, s);
    } else {
      OwnForward(kb, EndB(s), pb, EndA(s), pa, who);
      MovesB(ka, kb, s);
    }
  }

  lemma InvJoined(s: System, pa: Plan, pb: Plan)
    requires Inv(s, pa, pb)
    ensures Joined(EndA(s), pa, EndB(s), pb) && Joined(EndB(s), pb, EndA(s), pa)
  {
  }

  lemma MovesA(ka: Keys, kb: Keys, s: System)
    requires CanMove(EndA(s), OwnMove(EndA(s)))
    ensures var t := Next(ka, kb, s, true); var y := Moved(ka, EndA(s), OwnMove(EndA(s)));
            EndA(t) == y && EndB(t) == Peer(EndB(s), y)
  {
  }

  lemma MovesB(ka: Keys, kb: Keys, s: System)
    requires CanMove(EndB(s), OwnMove(EndB(s)))
    ensures var t := Next(ka, kb, s, false); var y := Moved(kb, EndB(s), OwnMove(EndB(s)));
            EndB(t) == y && EndA(t) == Peer(EndA(s), y)
  {
  }

  lemma OwnForward(keys: Keys, x: End, px: Plan, z: End, pz: Plan, who: bool)
    requires Joined(x, px, z, pz) && Counted(x) && Counted(z) && (Work(x) || Work(z))
    ensures CanMove(x, OwnMove(x))
    ensures var y := Moved(keys, x, OwnMove(x));
            Counted(y) && Counted(Peer(z, y)) && Forward(StandAs(x, z, who), StandAs(y, Peer(z, y), who), who)
  {
    OwnGoes(keys, x, px, z, pz);
    GoesForward(x, z, Moved(keys, x, OwnMove(x)), who);
  }

  // Both connections are made, and to that side all has been delivered.
  ghost predicate Over(s: System, toB: bool) {
    s.a.m.outcome == H.Opened && s.b.m.outcome == H.Opened && DoneTo(s, toB)
  }

  lemma OpenedStays(keys: Keys, x: End, m: Move)
    requires CanMove(x, m) && x.x.m.outcome == H.Opened
    ensures Moved(keys, x, m).x.m.outcome == H.Opened
  {
  }

  lemma NextOpened(ka: Keys, kb: Keys, s: System, who: bool)
    requires s.a.m.outcome == H.Opened && s.b.m.outcome == H.Opened
    ensures Next(ka, kb, s, who).a.m.outcome == H.Opened && Next(ka, kb, s, who).b.m.outcome == H.Opened
  {
    if who && CanMove(EndA(s), OwnMove(EndA(s))) {
      OpenedStays(ka, EndA(s), OwnMove(EndA(s)));
    } else if !who && CanMove(EndB(s), OwnMove(EndB(s))) {
      OpenedStays(kb, EndB(s), OwnMove(EndB(s)));
    }
  }

  lemma NoWorkDone(s: System, pa: Plan, pb: Plan, toB: bool)
    requires Planned(s, pa, pb) && HopefulTo(s, toB) && NoWork(EndA(s), EndB(s))
    ensures Over(s, toB)
  {
    BothOpen(EndA(s), pa, EndB(s), pb);
    if toB && !E.Ending(s.b.e.ready) {
      RestDone(EndA(s), pa, EndB(s), pb);
    } else if !toB && !E.Ending(s.a.e.ready) {
      RestDone(EndB(s), pb, EndA(s), pa);
    }
  }

  lemma NextTurn(sched: Schedule, n: nat, who: bool) returns (d: nat)
    requires Fair(sched)
    ensures sched(n + d) == who
  {
    assert Later(sched, n, true) && Later(sched, n, false);
    var m: nat :| n <= m && sched(m) == who;
    d := m - n;
  }

  ghost function StandingOf(s: System, pa: Plan, pb: Plan): (p: Standing)
    requires Inv(s, pa, pb)
    ensures 0 <= p.bytes
  {
    EndsCounted(s, pa, pb);
    Stand(EndA(s), EndB(s))
  }

  lemma NextForward(ka: Keys, kb: Keys, s: System, pa: Plan, pb: Plan, who: bool, toB: bool)
    requires Planned(s, pa, pb) && HopefulTo(s, toB) && !Over(s, toB)
    ensures var t := Next(ka, kb, s, who);
            Planned(t, pa, pb) && HopefulTo(t, toB) && Forward(StandingOf(s, pa, pb), StandingOf(t, pa, pb), who)
  {
    EndsCounted(s, pa, pb);
    NextKeeps(ka, kb, s, pa, pb, who, toB);
    if NoWork(EndA(s), EndB(s)) {
      NoWorkDone(s, pa, pb, toB);
    }
    NextGoes(ka, kb, s, pa, pb, who);
  }

  // Less is left, or the worker is nearer to its work, or its turn is.
  lemma Wait(sched: Schedule, n: nat, now: Standing, next: Standing, d: nat) returns (e: nat)
    requires Fair(sched) && Forward(now, next, sched(n)) && sched(n + d) == now.who
    ensures sched(n + 1 + e) == next.who
    ensures || next.chances < now.chances
            || (next.chances == now.chances && next.bytes < now.bytes)
            || (next.chances == now.chances && next.bytes == now.bytes && (next.rank < now.rank || (next.rank == now.rank && e < d)))
  {
    if d != 0 && next.who == now.who {
      e := d - 1;
    } else {
      e := NextTurn(sched, n + 1, next.who);
    }
  }

  // What is done stays so, and until then the standing goes forward.
  ghost predicate Ahead(st: nat -> Standing, done: nat -> bool, sched: Schedule, i: nat) {
    0 <= st(i).bytes && if done(i) then done(i + 1) else Forward(st(i), st(i + 1), sched(i))
  }

  // Standings that go forward until something is done come to it.
  lemma {:induction false} Eventually(st: nat -> Standing, done: nat -> bool, sched: Schedule, n: nat, d: nat) returns (m: nat)
    requires Fair(sched) && sched(n + d) == st(n).who
    requires forall i: nat :: Ahead(st, done, sched, i)
    ensures n <= m && done(m)
    decreases st(n).chances, st(n).bytes, st(n).rank, d
  {
    m := n;
    assert Ahead(st, done, sched, n);
    if !done(n) {
      var e := Wait(sched, n, st(n), st(n + 1), d);
      m := Eventually(st, done, sched, n + 1, e);
    }
  }

  ghost predicate GoesOn(f: nat -> bool, i: nat) {
    f(i) ==> f(i + 1)
  }

  // What goes on from each step to the next goes on for ever.
  lemma {:induction false} ForEver(f: nat -> bool, k: nat, n: nat)
    requires k <= n && f(k) && forall i: nat :: GoesOn(f, i)
    ensures f(n)
    decreases n - k
  {
    if k < n {
      ForEver(f, k, n - 1);
      assert GoesOn(f, n - 1);
    }
  }

  ghost predicate Good(s: System, pa: Plan, pb: Plan, toB: bool) {
    Planned(s, pa, pb) && HopefulTo(s, toB)
  }

  lemma NextGood(ka: Keys, kb: Keys, s: System, pa: Plan, pb: Plan, who: bool, toB: bool)
    requires Good(s, pa, pb, toB)
    ensures Good(Next(ka, kb, s, who), pa, pb, toB)
    ensures Over(s, toB) ==> Over(Next(ka, kb, s, who), toB)
  {
    NextKeeps(ka, kb, s, pa, pb, who, toB);
    if Over(s, toB) {
      NextOpened(ka, kb, s, who);
    }
  }

  // The states of a schedule, one after another.
  ghost predicate Follows(ka: Keys, kb: Keys, states: nat -> System, sched: Schedule) {
    forall n: nat :: Followed(ka, kb, states, sched, n)
  }

  ghost predicate Followed(ka: Keys, kb: Keys, states: nat -> System, sched: Schedule, n: nat) {
    states(n + 1) == Next(ka, kb, states(n), sched(n))
  }

  ghost function Goods(states: nat -> System, pa: Plan, pb: Plan, toB: bool): nat -> bool {
    (n: nat) => Good(states(n), pa, pb, toB)
  }

  lemma GoodForEver(ka: Keys, kb: Keys, states: nat -> System, pa: Plan, pb: Plan, sched: Schedule, toB: bool, n: nat)
    requires Follows(ka, kb, states, sched) && Good(states(0), pa, pb, toB)
    ensures Good(states(n), pa, pb, toB)
  {
    var good := Goods(states, pa, pb, toB);
    forall i: nat
      ensures GoesOn(good, i)
    {
      GoodGoesOn(ka, kb, states, pa, pb, sched, toB, i);
    }
    ForEver(good, 0, n);
  }

  lemma GoodGoesOn(ka: Keys, kb: Keys, states: nat -> System, pa: Plan, pb: Plan, sched: Schedule, toB: bool, n: nat)
    requires Follows(ka, kb, states, sched)
    ensures GoesOn(Goods(states, pa, pb, toB), n)
  {
    if Good(states(n), pa, pb, toB) {
      GoodNext(ka, kb, states, pa, pb, sched, toB, n);
    }
  }

  lemma GoodNext(ka: Keys, kb: Keys, states: nat -> System, pa: Plan, pb: Plan, sched: Schedule, toB: bool, n: nat)
    requires Follows(ka, kb, states, sched) && Good(states(n), pa, pb, toB)
    ensures Good(states(n + 1), pa, pb, toB)
  {
    assert Followed(ka, kb, states, sched, n);
    NextGood(ka, kb, states(n), pa, pb, sched(n), toB);
  }

  lemma StatesForward(ka: Keys, kb: Keys, states: nat -> System, pa: Plan, pb: Plan, sched: Schedule, toB: bool, n: nat)
    requires Follows(ka, kb, states, sched) && Good(states(n), pa, pb, toB) && Good(states(n + 1), pa, pb, toB)
    requires !Over(states(n), toB)
    ensures Forward(StandingOf(states(n), pa, pb), StandingOf(states(n + 1), pa, pb), sched(n))
  {
    assert Followed(ka, kb, states, sched, n);
    NextForward(ka, kb, states(n), pa, pb, sched(n), toB);
  }

  ghost function Total(s: System, pa: Plan, pb: Plan): (p: Standing)
    ensures 0 <= p.bytes
  {
    if Inv(s, pa, pb) then StandingOf(s, pa, pb) else Standing(0, 0, true, 0)
  }

  lemma TotalForward(ka: Keys, kb: Keys, states: nat -> System, pa: Plan, pb: Plan, sched: Schedule, toB: bool, n: nat)
    requires Follows(ka, kb, states, sched) && Good(states(0), pa, pb, toB) && !Over(states(n), toB)
    ensures Forward(Total(states(n), pa, pb), Total(states(n + 1), pa, pb), sched(n))
  {
    GoodForEver(ka, kb, states, pa, pb, sched, toB, n);
    GoodForEver(ka, kb, states, pa, pb, sched, toB, n + 1);
    StatesForward(ka, kb, states, pa, pb, sched, toB, n);
  }

  lemma DoneGoesOn(ka: Keys, kb: Keys, states: nat -> System, pa: Plan, pb: Plan, sched: Schedule, toB: bool, n: nat)
    requires Follows(ka, kb, states, sched) && Good(states(0), pa, pb, toB) && Over(states(n), toB)
    ensures Over(states(n + 1), toB)
  {
    GoodForEver(ka, kb, states, pa, pb, sched, toB, n);
    assert Followed(ka, kb, states, sched, n);
    NextGood(ka, kb, states(n), pa, pb, sched(n), toB);
  }

  // The standings of the states and whether all has been delivered in them.
  ghost predicate Watched(states: nat -> System, pa: Plan, pb: Plan, toB: bool, st: nat -> Standing, done: nat -> bool, n: nat) {
    st(n) == Total(states(n), pa, pb) && done(n) == Over(states(n), toB)
  }

  lemma StatesAhead(ka: Keys, kb: Keys, states: nat -> System, pa: Plan, pb: Plan, sched: Schedule, toB: bool,
                    st: nat -> Standing, done: nat -> bool, n: nat)
    requires Follows(ka, kb, states, sched) && Good(states(0), pa, pb, toB)
    requires Watched(states, pa, pb, toB, st, done, n) && Watched(states, pa, pb, toB, st, done, n + 1)
    ensures Ahead(st, done, sched, n)
  {
    if done(n) {
      DoneGoesOn(ka, kb, states, pa, pb, sched, toB, n);
    } else {
      TotalForward(ka, kb, states, pa, pb, sched, toB, n);
    }
  }

  lemma AllAhead(ka: Keys, kb: Keys, states: nat -> System, pa: Plan, pb: Plan, sched: Schedule, toB: bool,
                 st: nat -> Standing, done: nat -> bool)
    requires Follows(ka, kb, states, sched) && Good(states(0), pa, pb, toB)
    requires forall n: nat :: Watched(states, pa, pb, toB, st, done, n)
    ensures forall n: nat :: Ahead(st, done, sched, n)
  {
    forall n: nat
      ensures Ahead(st, done, sched, n)
    {
      assert Watched(states, pa, pb, toB, st, done, n) && Watched(states, pa, pb, toB, st, done, n + 1);
      StatesAhead(ka, kb, states, pa, pb, sched, toB, st, done, n);
    }
  }

  ghost function Standings(states: nat -> System, pa: Plan, pb: Plan): nat -> Standing {
    (n: nat) => Total(states(n), pa, pb)
  }

  ghost function Deliveries(states: nat -> System, toB: bool): nat -> bool {
    (n: nat) => Over(states(n), toB)
  }

  // Under every fair schedule, all that was queued comes to be delivered to a side whose connection
  // is not ending, and stays so.
  lemma Inevitable(ka: Keys, kb: Keys, states: nat -> System, pa: Plan, pb: Plan, sched: Schedule, toB: bool) returns (k: nat)
    requires Follows(ka, kb, states, sched) && Fair(sched) && Good(states(0), pa, pb, toB)
    ensures forall n: nat :: k <= n ==> Over(states(n), toB)
  {
    var st, done := Standings(states, pa, pb), Deliveries(states, toB);
    AllWatched(states, pa, pb, toB);
    AllAhead(ka, kb, states, pa, pb, sched, toB, st, done);
    k := EventuallyForEver(st, done, sched);
    AllDone(states, toB, k);
  }

  lemma AllWatched(states: nat -> System, pa: Plan, pb: Plan, toB: bool)
    ensures forall n: nat :: Watched(states, pa, pb, toB, Standings(states, pa, pb), Deliveries(states, toB), n)
  {
  }

  lemma AllDone(states: nat -> System, toB: bool, k: nat)
    requires forall n: nat :: k <= n ==> Deliveries(states, toB)(n)
    ensures forall n: nat :: k <= n ==> Over(states(n), toB)
  {
    forall n: nat | k <= n
      ensures Over(states(n), toB)
    {
      assert Deliveries(states, toB)(n);
    }
  }

  lemma EventuallyForEver(st: nat -> Standing, done: nat -> bool, sched: Schedule) returns (k: nat)
    requires Fair(sched)
    requires forall i: nat :: Ahead(st, done, sched, i)
    ensures forall n: nat :: k <= n ==> done(n)
  {
    var d := NextTurn(sched, 0, st(0).who);
    k := Eventually(st, done, sched, 0, d);
    forall i: nat
      ensures GoesOn(done, i)
    {
      assert Ahead(st, done, sched, i);
    }
    forall n: nat | k <= n
      ensures done(n)
    {
      ForEver(done, k, n);
    }
  }

  // ---- Nothing more is asked meanwhile ----

  ghost predicate Asked(s: System, byA: seq<Message>, byB: seq<Message>) {
    SentMessages(s.a.e.queued) == byA && SentMessages(s.b.e.queued) == byB
  }

  lemma NextAsks(ka: Keys, kb: Keys, s: System, who: bool, byA: seq<Message>, byB: seq<Message>)
    requires Asked(s, byA, byB)
    ensures Asked(Next(ka, kb, s, who), byA, byB)
  {
    if who && CanMove(EndA(s), OwnMove(EndA(s))) {
      OwnAsksNothing(ka, EndA(s));
    } else if !who && CanMove(EndB(s), OwnMove(EndB(s))) {
      OwnAsksNothing(kb, EndB(s));
    }
  }

  ghost function Askeds(states: nat -> System, byA: seq<Message>, byB: seq<Message>): nat -> bool {
    (n: nat) => Asked(states(n), byA, byB)
  }

  lemma AskedGoesOn(ka: Keys, kb: Keys, states: nat -> System, sched: Schedule, byA: seq<Message>, byB: seq<Message>, n: nat)
    requires Follows(ka, kb, states, sched)
    ensures GoesOn(Askeds(states, byA, byB), n)
  {
    if Asked(states(n), byA, byB) {
      assert Followed(ka, kb, states, sched, n);
      NextAsks(ka, kb, states(n), sched(n), byA, byB);
    }
  }

  lemma AskedForEver(ka: Keys, kb: Keys, states: nat -> System, sched: Schedule, byA: seq<Message>, byB: seq<Message>, n: nat)
    requires Follows(ka, kb, states, sched) && Asked(states(0), byA, byB)
    ensures Asked(states(n), byA, byB)
  {
    forall i: nat
      ensures GoesOn(Askeds(states, byA, byB), i)
    {
      AskedGoesOn(ka, kb, states, sched, byA, byB, i);
    }
    ForEver(Askeds(states, byA, byB), 0, n);
  }

  // ---- The theorem ----

  // From the k-th state on both connections are made and these messages delivered.
  ghost predicate DeliveredFrom(states: nat -> System, toB: bool, sent: seq<Message>, k: nat) {
    forall n: nat :: k <= n ==>
      && states(n).a.m.outcome == H.Opened && states(n).b.m.outcome == H.Opened
      && (if toB then states(n).b else states(n).a).e.delivered == sent
  }

  lemma DeliveredFor(ka: Keys, kb: Keys, states: nat -> System, pa: Plan, pb: Plan, sched: Schedule, toB: bool,
                     byA: seq<Message>, byB: seq<Message>) returns (k: nat)
    requires Follows(ka, kb, states, sched) && Fair(sched) && Good(states(0), pa, pb, toB) && Asked(states(0), byA, byB)
    ensures DeliveredFrom(states, toB, if toB then byA else byB, k)
  {
    k := Inevitable(ka, kb, states, pa, pb, sched, toB);
    forall n: nat | k <= n
      ensures states(n).a.m.outcome == H.Opened && states(n).b.m.outcome == H.Opened
      ensures (if toB then states(n).b else states(n).a).e.delivered == if toB then byA else byB
    {
      AskedForEver(ka, kb, states, sched, byA, byB, n);
      assert Over(states(n), toB);
      OverAsked(states(n), toB, byA, byB);
    }
  }

  lemma OverAsked(s: System, toB: bool, byA: seq<Message>, byB: seq<Message>)
    requires Over(s, toB) && Asked(s, byA, byB)
    ensures (if toB then s.b else s.a).e.delivered == if toB then byA else byB
  {
  }

  // Whatever has happened since the first byte of the handshake: from then on let both sides do
  // nothing but go on polling, in any order of their steps. Both connections come to be made, and a
  // side whose connection is not ending comes to have delivered every message the other was asked to send, whatever has become of the
  // other, and that is so for ever after.
  lemma DeliveryReached(ka: Keys, kb: Keys, texts: H.Texts, headers: seq<seq<byte>>, request: seq<seq<byte>>,
                        maskA: bool, maskB: bool, cap: nat, memAB: seq<byte>, memBA: seq<byte>, past: seq<Event>,
                        states: nat -> System, sched: Schedule, toB: bool)
    returns (k: nat)
    requires Agreeable(texts, headers, request, cap) && |memAB| == |memBA| == cap
    requires IsRun(ka, kb, Connecting(texts, request, maskA, maskB, cap, memAB, memBA), past)
    requires states(0) == After(ka, kb, Connecting(texts, request, maskA, maskB, cap, memAB, memBA), past)
    requires Follows(ka, kb, states, sched) && Fair(sched)
    requires !E.Ending((if toB then states(0).b else states(0).a).e.ready)
    ensures var s0 := Connecting(texts, request, maskA, maskB, cap, memAB, memBA);
            DeliveredFrom(states, toB, if toB then AskedByA(ka, kb, s0, past) else AskedByB(ka, kb, s0, past), k)
  {
    var s0 := Connecting(texts, request, maskA, maskB, cap, memAB, memBA);
    var pa, pb := ClientPlan(texts, request), ServerPlan(texts, request);
    ConnectingInv(texts, headers, request, maskA, maskB, cap, memAB, memBA);
    RunKeeps(ka, kb, s0, past, pa, pb);
    RunAsksA(ka, kb, s0, past);
    RunAsksB(ka, kb, s0, past);
    var byA, byB := AskedByA(ka, kb, s0, past), AskedByB(ka, kb, s0, past);
    assert [] + byA == byA && [] + byB == byB;
    k := DeliveredFor(ka, kb, states, pa, pb, sched, toB, byA, byB);
  }

  // There is such a schedule, and states that follow it, from every state.
  function At(ka: Keys, kb: Keys, s: System, sched: Schedule, n: nat): System {
    if n == 0 then s else Next(ka, kb, At(ka, kb, s, sched, n - 1), sched(n - 1))
  }

  lemma FairRunExists(ka: Keys, kb: Keys, s: System) returns (states: nat -> System, sched: Schedule)
    ensures states(0) == s && Follows(ka, kb, states, sched) && Fair(sched)
  {
    sched := (n: nat) => n % 2 == 0;
    var turns := sched;
    states := (n: nat) => At(ka, kb, s, turns, n);
    forall n: nat
      ensures Followed(ka, kb, states, sched, n)
    {
    }
    forall n: nat
      ensures Later(sched, n, true) && Later(sched, n, false)
    {
      assert sched(n) != sched(n + 1);
    }
  }
}
