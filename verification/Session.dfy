// Two sides joined by two rings, as ext/easywsclient/socketsharedmemory.cpp joins them, from the
// first byte of the handshake on: each side writes to one ring and reads from the other, and every
// step of a ring operation is a move of its own.
module Session {
  import opened Bytes
  import opened Frame
  import opened Stream
  import E = Endpoint
  import H = Handshake
  import R = Ring
  import SharedSocket
  import Spsc

  type Keys = nat -> Key

  // Where a side is: between calls, or in poll, in the order poll goes through.
  datatype Point = Outside | Receiving | Sending | Finishing | Dispatching

  // heard is a history: the bytes of the handshake taken so far. say holds the handshake lines
  // still to be sent, one call of send each.
  datatype Side = Side(m: H.Machine, heard: seq<byte>, say: seq<seq<byte>>, at: Point, e: E.Endpoint)

  // A side with the ring it writes and the ring it reads.
  datatype End = End(x: Side, out: R.Ring, inp: R.Ring)

  datatype Move =
    | Call(ev: E.Event)             // sendText, sendBinary, sendPing or close
    | Say                           // one line of the handshake
    | Poll
    | Receive | Send                // one turn of a loop of poll
    | Finish(callback: bool)
    | TakeFrame | EndDispatch
    | WriteStep | ReadStep          // one step of the ring operation under way

  // A side is one thread: it does nothing else while a ring operation is under way.
  predicate Idle(x: End) {
    x.out.w.WDone? && x.inp.r.RDone?
  }

  predicate Live(e: E.Endpoint) {
    e.ready == E.OPEN || e.ready == E.CLOSING
  }

  // Messages may be queued while the connection is being made, and by a callback.
  predicate IsCall(e: E.Endpoint, ev: E.Event) {
    match ev
    case SendMessage(_, _) => true
    case CloseCall => e.ready != E.CONNECTING
    case _ => false
  }

  // A complete frame that is taken heads the receive buffer.
  predicate HasFrame(e: E.Endpoint) {
    Parse(e.rx).Got? && Passes(Parse(e.rx).frame.opcode)
  }

  // A send or receive that transfers nothing reports -1 and the socket then claims that it would
  // block, so it never fails the connection: see Receive and Send in SharedSocket.dfy.
  predicate CanMove(x: End, m: Move) {
    match m
    case Call(ev) => Idle(x) && x.x.say == [] && (x.x.at.Outside? || x.x.at.Dispatching?) && IsCall(x.x.e, ev) && E.Enabled(x.x.e, ev)
    case Say => Idle(x) && x.x.say != [] && R.Enabled(x.out, R.WriteCall(x.x.say[0]))
    case Poll => Idle(x) && x.x.say == [] && x.x.at.Outside? && R.Enabled(x.inp, R.ReadCall(1))
    case Receive => Idle(x) && x.x.at.Receiving? && R.Enabled(x.inp, R.ReadCall(E.MAX_READ))
    case Send => Idle(x) && x.x.at.Sending? && x.x.e.tx != [] && R.Enabled(x.out, R.WriteCall(x.x.e.tx))
    case Finish(_) => Idle(x) && (x.x.at.Finishing? || (x.x.at.Sending? && x.x.e.tx == []))
    case TakeFrame => Idle(x) && x.x.at.Dispatching? && HasFrame(x.x.e)
    case EndDispatch => Idle(x) && x.x.at.Dispatching? && !HasFrame(x.x.e)
    case WriteStep => R.Enabled(x.out, R.WriterMoves)
    case ReadStep => R.Enabled(x.inp, R.ReaderMoves)
  }

  function Happen(keys: Keys, e: E.Endpoint, ev: E.Event): E.Endpoint {
    if E.Enabled(e, ev) then E.Step(keys, e, ev) else e
  }

  function Pieces(lines: seq<seq<byte>>): seq<seq<byte>> {
    if lines == [] then [] else [lines[0] + H.CrLf()] + Pieces(lines[1..])
  }

  // One byte of the handshake.
  function Hear(keys: Keys, x: Side, b: byte): Side {
    var m := H.Feed(x.m, b);
    var said := if |x.m.reply| < |m.reply| then Pieces(m.texts.answer) else [];
    var e := match m.outcome
             case Waiting => x.e
             case Opened => Happen(keys, x.e, E.Connected)
             case Dropped => Happen(keys, x.e, E.Failed);
    Side(m, x.heard + [b], x.say + said, x.at, e)
  }

  // A write has come to an end; for a line of the handshake its result is ignored, and the send
  // loop ends when nothing was taken.
  function Written(keys: Keys, x: Side, n: nat): Side {
    if x.say != [] then x.(say := x.say[1..])
    else if n == 0 then x.(at := Finishing)
    else x.(e := Happen(keys, x.e, E.Sent(n)))
  }

  // A read has come to an end; the receive loop ends when nothing was there.
  function Taken(keys: Keys, x: Side, bytes: seq<byte>): Side {
    if x.m.outcome == H.Waiting then (if bytes == [] then x else Hear(keys, x, bytes[0]))
    else if bytes == [] then x.(at := Sending)
    else x.(e := Happen(keys, x.e, E.Received(bytes)))
  }

  // poll on a connection still being made reads one byte, and on a closed one does nothing.
  function Polled(x: End): End
    requires CanMove(x, Poll)
  {
    if x.x.e.ready == E.CONNECTING then x.(inp := R.Step(x.inp, R.ReadCall(1)))
    else if Live(x.x.e) then x.(x := x.x.(at := Receiving))
    else x
  }

  function Moved(keys: Keys, x: End, m: Move): End
    requires CanMove(x, m)
  {
    match m
    case Call(ev) => x.(x := x.x.(e := E.Step(keys, x.x.e, ev)))
    case Say => x.(out := R.Step(x.out, R.WriteCall(x.x.say[0])))
    case Poll => Polled(x)
    case Receive => x.(inp := R.Step(x.inp, R.ReadCall(E.MAX_READ)))
    case Send => x.(out := R.Step(x.out, R.WriteCall(x.x.e.tx)))
    case Finish(callback) =>
      x.(x := x.x.(at := if callback then Dispatching else Outside, e := Happen(keys, x.x.e, E.Drained)))
    case TakeFrame =>
      ParseSize(x.x.e.rx);
      x.(x := x.x.(e := E.Consume(keys, x.x.e, Parse(x.x.e.rx).frame)))
    case EndDispatch =>
      x.(x := x.x.(at := Outside, e := if Parse(x.x.e.rx).Got? then E.CloseConnection(x.x.e) else x.x.e))
    case WriteStep =>
      var out := R.Step(x.out, R.WriterMoves);
      x.(out := out, x := if out.w.WDone? then Written(keys, x.x, out.w.n) else x.x)
    case ReadStep =>
      var inp := R.Step(x.inp, R.ReaderMoves);
      x.(inp := inp, x := if inp.r.RDone? then Taken(keys, x.x, inp.r.buf) else x.x)
  }

  // A is the client, B the server.
  datatype System = System(a: Side, b: Side, ab: R.Ring, ba: R.Ring)

  datatype Event = ByA(m: Move) | ByB(m: Move)

  function EndA(s: System): End {
    End(s.a, s.ab, s.ba)
  }

  function EndB(s: System): End {
    End(s.b, s.ba, s.ab)
  }

  predicate Enabled(s: System, ev: Event) {
    match ev
    case ByA(m) => CanMove(EndA(s), m)
    case ByB(m) => CanMove(EndB(s), m)
  }

  function Step(ka: Keys, kb: Keys, s: System, ev: Event): System
    requires Enabled(s, ev)
  {
    match ev
    case ByA(m) => var x := Moved(ka, EndA(s), m); System(x.x, s.b, x.out, x.inp)
    case ByB(m) => var x := Moved(kb, EndB(s), m); System(s.a, x.x, x.inp, x.out)
  }

  predicate IsRun(ka: Keys, kb: Keys, s: System, evs: seq<Event>)
    decreases |evs|
  {
    evs == [] || (Enabled(s, evs[0]) && IsRun(ka, kb, Step(ka, kb, s, evs[0]), evs[1..]))
  }

  function After(ka: Keys, kb: Keys, s: System, evs: seq<Event>): System
    requires IsRun(ka, kb, s, evs)
    decreases |evs|
  {
    if evs == [] then s else After(ka, kb, Step(ka, kb, s, evs[0]), evs[1..])
  }

  // ---- What every move keeps ----

  // What a side is to say and to hear before its connection is open.
  datatype Plan = Plan(texts: H.Texts, server: bool, mine: seq<byte>, theirs: seq<byte>)

  ghost predicate Sound(p: Plan) {
    && H.FeedAll(H.Start(p.texts, p.server), p.theirs).outcome == H.Opened
    && H.Left(H.Start(p.texts, p.server), p.theirs) == []
    && (p.server ==> p.mine == H.JoinLines(p.texts.answer) && p.texts.answer != [])
  }

  ghost predicate Machine(x: Side, p: Plan) {
    && x.m.server == p.server
    && (p.server ==> H.Serving(p.texts, x.m))
    && (match x.m.outcome case Waiting => x.e.ready == E.CONNECTING case Opened => x.e.ready != E.CONNECTING case Dropped => false)
  }

  // What a side has been given to say so far.
  function Spoken(x: Side, p: Plan): seq<byte> {
    if p.server then x.m.reply else p.mine
  }

  // A write under way is of the next line, or of the head of the transmit buffer.
  ghost predicate Writing(x: Side, w: R.Writer) {
    match w
    case WDone(_) => true
    case WLoadedOwn(data, _) => data == if x.say != [] then x.say[0] else x.e.tx
    case WLoadedBoth(data, _, _, _) => data == if x.say != [] then x.say[0] else x.e.tx
    case WCopying(data, _, _) => if x.say != [] then data == x.say[0] else data <= x.e.tx
  }

  // What has gone into the ring is the handshake text so far and then the bytes of frames.
  ghost predicate Streamed(x: Side, sent: seq<byte>, p: Plan) {
    if x.say != [] then x.e.accepted == [] && sent + Join(x.say) == Spoken(x, p)
    else sent == Spoken(x, p) + x.e.accepted && (x.m.outcome != H.Opened ==> x.e.accepted == [])
  }

  ghost predicate Speaks(x: Side, r: R.Ring, p: Plan) {
    && Streamed(x, r.sent, p)
    && (x.m.outcome == H.Opened ==> Spoken(x, p) == p.mine)
    && |p.mine| + 2 <= r.cap
    && (forall i :: 0 <= i < |x.say| ==> x.say[i] != [])
    && Writing(x, r.w)
  }

  function ReadSize(x: Side): nat {
    if x.m.outcome == H.Waiting then 1 else E.MAX_READ
  }

  ghost predicate Listening(x: Side, r: R.Reader) {
    match r
    case RDone(_) => true
    case RLoadedWrite(maxLen, _, _) => maxLen == ReadSize(x)
    case RLoadedBoth(maxLen, _, _, _) => maxLen == ReadSize(x)
    case RCopying(len, _, _) => len <= ReadSize(x)
  }

  ghost predicate Hears(x: Side, r: R.Ring, p: Plan) {
    && H.Reading(H.Start(p.texts, p.server), p.theirs, |x.heard|, x.m)
    && x.heard == p.theirs[..|x.heard|]
    && r.got == x.heard + x.e.arrived
    && (x.m.outcome == H.Waiting ==> x.e.arrived == [])
    && Listening(x, r.r)
  }

  // Where a side is in poll goes with the state of its connection and the operation under way.
  ghost predicate Placed(x: Side, w: R.Writer, r: R.Reader) {
    && (x.at.Outside? || (x.say == [] && x.m.outcome == H.Opened && (x.at.Dispatching? || Live(x.e))))
    && (w.WDone? || r.RDone?)
    && (!w.WDone? ==> x.at.Sending? || (x.at.Outside? && x.say != []))
    && (!r.RDone? ==> x.at.Receiving? || (x.at.Outside? && x.say == [] && x.m.outcome == H.Waiting))
  }

  // The endpoint's own part.
  ghost predicate Endpoints(e: E.Endpoint) {
    E.Outbound(e) && E.Inbound(e) && (e.ready == E.CLOSED ==> e.tx == [])
  }

  ghost predicate EndInv(x: End, p: Plan) {
    && Sound(p) && Machine(x.x, p) && Placed(x.x, x.out.w, x.inp.r)
    && Endpoints(x.x.e)
    && Speaks(x.x, x.out, p) && Hears(x.x, x.inp, p)
  }

  // As far as they go, the bytes are those of the text.
  ghost predicate Agrees(sent: seq<byte>, text: seq<byte>) {
    forall i :: 0 <= i < |sent| && i < |text| ==> sent[i] == text[i]
  }

  lemma SpokenPrefix(x: Side, p: Plan)
    requires Sound(p) && Machine(x, p)
    ensures Spoken(x, p) == p.mine || Spoken(x, p) == []
  {
  }

  lemma StreamAgrees(x: Side, sent: seq<byte>, p: Plan)
    requires Streamed(x, sent, p) && (x.m.outcome == H.Opened ==> Spoken(x, p) == p.mine)
    requires Spoken(x, p) == p.mine || Spoken(x, p) == []
    ensures Agrees(sent, p.mine)
  {
    if x.say != [] {
      forall i | 0 <= i < |sent| && i < |p.mine|
        ensures sent[i] == p.mine[i]
      {
        assert sent[i] == (sent + Join(x.say))[i];
      }
    }
  }

  // ---- Ring operations ----

  // A step of a writer leaves the reader's side alone.
  lemma WriterFrame(r: R.Ring)
    requires R.Indices(r) && !r.w.WDone?
    ensures var t := R.WriterStep(r); t.r == r.r && t.got == r.got && t.cap == r.cap
  {
  }

  lemma ReaderFrame(r: R.Ring)
    requires R.Indices(r) && !r.r.RDone?
    ensures var t := R.ReaderStep(r); t.w == r.w && t.sent == r.sent && t.cap == r.cap
  {
  }

  // Where the write under way stands after a step.
  lemma WriterNext(r: R.Ring)
    requires R.Indices(r) && !r.w.WDone? && (r.w.WLoadedBoth? ==> R.Loaded(r))
    ensures var t := R.WriterStep(r);
            match r.w
            case WLoadedOwn(data, _) => t.sent == r.sent && t.w.WLoadedBoth? && t.w.data == data
            case WLoadedBoth(data, _, _, _) =>
              && t.sent == r.sent && (t.w == R.WDone(0) || (t.w.WCopying? && t.w.data <= data))
              && (|r.sent| + |data| + 2 <= r.cap && data != [] ==> t.w.WCopying? && t.w.data == data)
            case WCopying(data, _, done) =>
              if done < |data| then t.sent == r.sent && t.w.WCopying? && t.w.data == data
              else t.sent == r.sent + data && t.w == R.WDone(|data|)
  {
    if r.w.WLoadedBoth? {
      R.LoadedTakes(r);
      assert r.w.data[..|r.w.data|] == r.w.data;
    }
  }

  // Where the read under way stands after a step.
  lemma ReaderNext(r: R.Ring)
    requires R.Inv(r) && R.Indices(r) && !r.r.RDone?
    ensures var t := R.ReaderStep(r);
            match r.r
            case RLoadedWrite(maxLen, _, _) => t.got == r.got && t.r.RLoadedBoth? && t.r.maxLen == maxLen
            case RLoadedBoth(maxLen, _, _, _) => t.got == r.got && (t.r == R.RDone([]) || (t.r.RCopying? && t.r.len <= maxLen))
            case RCopying(len, _, buf) =>
              if |buf| < len then t.got == r.got && t.r.RCopying? && t.r.len == len
              else t.got == r.got + buf && t.r == R.RDone(buf) && |buf| == len && 0 < len && r.got + buf <= r.sent
  {
  }

  // ---- Writing ----

  lemma JoinHead(say: seq<seq<byte>>, sent: seq<byte>)
    requires say != []
    ensures (sent + say[0]) + Join(say[1..]) == sent + Join(say)
  {
  }

  // A line said whole.
  lemma LineSaid(x: Side, sent: seq<byte>, p: Plan)
    requires x.say != [] && Streamed(x, sent, p)
    ensures Streamed(x.(say := x.say[1..]), sent + x.say[0], p)
  {
    JoinHead(x.say, sent);
    if x.say[1..] == [] {
      assert (sent + x.say[0]) + [] == sent + x.say[0];
      assert Spoken(x, p) + [] == Spoken(x, p);
    }
  }

  // Bytes of frames sent.
  lemma BytesSent(x: Side, sent: seq<byte>, p: Plan, n: nat)
    requires x.say == [] && Streamed(x, sent, p) && x.m.outcome == H.Opened && n <= |x.e.tx|
    ensures Streamed(x.(e := x.e.(tx := x.e.tx[n..], accepted := x.e.accepted + x.e.tx[..n])), sent + x.e.tx[..n], p)
  {
    Associative(Spoken(x, p), x.e.accepted, x.e.tx[..n]);
  }

  // Room for the next line.
  lemma RoomToSay(x: Side, r: R.Ring, p: Plan)
    requires x.say != [] && Speaks(x, r, p) && (Spoken(x, p) == p.mine || Spoken(x, p) == [])
    ensures |r.sent| + |x.say[0]| + 2 <= r.cap && x.say[0] != []
  {
    JoinHead(x.say, r.sent);
  }

  lemma SaidStep(keys: Keys, x: Side, r: R.Ring, p: Plan)
    requires x.say != [] && Speaks(x, r, p) && (Spoken(x, p) == p.mine || Spoken(x, p) == [])
    requires R.Indices(r) && !r.w.WDone? && (r.w.WLoadedBoth? ==> R.Loaded(r))
    ensures var t := R.WriterStep(r); Speaks(if t.w.WDone? then Written(keys, x, t.w.n) else x, t, p)
  {
    RoomToSay(x, r, p);
    WriterNext(r);
    WriterFrame(r);
    LineSaid(x, r.sent, p);
  }

  lemma SentStep(keys: Keys, x: Side, r: R.Ring, p: Plan)
    requires x.say == [] && x.m.outcome == H.Opened && Live(x.e) && Speaks(x, r, p)
    requires R.Indices(r) && !r.w.WDone? && (r.w.WLoadedBoth? ==> R.Loaded(r))
    ensures var t := R.WriterStep(r); Speaks(if t.w.WDone? then Written(keys, x, t.w.n) else x, t, p)
  {
    WriterNext(r);
    WriterFrame(r);
    if r.w.WCopying? && r.w.done >= |r.w.data| {
      var n := |r.w.data|;
      if n == 0 {
        assert r.sent + r.w.data == r.sent;
      } else {
        assert x.e.tx[..n] == r.w.data;
        BytesSent(x, r.sent, p, n);
      }
    }
  }

  // What a completed write changes besides.
  lemma WrittenRest(keys: Keys, x: Side, n: nat, p: Plan)
    requires Machine(x, p) && Endpoints(x.e) && (x.say == [] ==> Live(x.e) && n <= |x.e.tx|)
    ensures var y := Written(keys, x, n);
            && Machine(y, p) && Endpoints(y.e)
            && y.m == x.m && y.heard == x.heard && y.e.arrived == x.e.arrived && y.e.ready == x.e.ready
  {
    if x.say == [] && n != 0 {
      E.SentOutbound(x.e, n);
      E.StepInbound(keys, x.e, E.Sent(n));
    }
  }

  lemma WrittenPlaced(keys: Keys, x: Side, w: R.Writer, r: R.Reader, n: nat)
    requires Placed(x, w, r) && !w.WDone? && (x.say == [] ==> n <= |x.e.tx|)
    ensures Placed(Written(keys, x, n), R.WDone(n), r)
  {
  }

  lemma SameHears(x: Side, y: Side, r: R.Ring, t: R.Ring, p: Plan)
    requires Hears(x, r, p) && t.got == r.got && t.r == r.r
    requires y.m == x.m && y.heard == x.heard && y.e.arrived == x.e.arrived
    ensures Hears(y, t, p)
  {
  }

  lemma SameSpeaks(x: Side, y: Side, r: R.Ring, t: R.Ring, p: Plan)
    requires Speaks(x, r, p) && t.sent == r.sent && t.w == r.w && t.cap == r.cap
    requires y.m == x.m && y.say == x.say && y.e.accepted == x.e.accepted
    requires r.w.WDone? || y.e.tx == x.e.tx
    ensures Speaks(y, t, p)
  {
  }

  // A step of the write under way, as far as it concerns what is said.
  lemma WriteStepSpeaks(keys: Keys, x: Side, r: R.Ring, p: Plan)
    requires Speaks(x, r, p) && (Spoken(x, p) == p.mine || Spoken(x, p) == [])
    requires x.say == [] ==> x.m.outcome == H.Opened && Live(x.e)
    requires R.Indices(r) && !r.w.WDone? && (r.w.WLoadedBoth? ==> R.Loaded(r))
    ensures var t := R.WriterStep(r); Speaks(if t.w.WDone? then Written(keys, x, t.w.n) else x, t, p)
    ensures var t := R.WriterStep(r); t.w.WDone? && x.say == [] ==> t.w.n <= |x.e.tx|
  {
    WriterNext(r);
    if x.say != [] {
      SaidStep(keys, x, r, p);
    } else {
      SentStep(keys, x, r, p);
    }
  }

  lemma WriterHas(r: R.Ring)
    requires R.Inv(r)
    ensures r.w.WLoadedBoth? ==> R.Loaded(r)
  {
  }

  lemma WriteStepKeeps(keys: Keys, x: End, p: Plan)
    requires EndInv(x, p) && CanMove(x, WriteStep) && (x.out.w.WLoadedBoth? ==> R.Loaded(x.out))
    ensures EndInv(Moved(keys, x, WriteStep), p)
  {
    var t := R.WriterStep(x.out);
    SpokenPrefix(x.x, p);
    WriteStepSpeaks(keys, x.x, x.out, p);
    if t.w.WDone? {
      var y := Written(keys, x.x, t.w.n);
      WrittenRest(keys, x.x, t.w.n, p);
      WrittenPlaced(keys, x.x, x.out.w, x.inp.r, t.w.n);
      SameHears(x.x, y, x.inp, x.inp, p);
    }
  }

  // ---- Reading ----

  lemma {:induction false} PiecesJoin(lines: seq<seq<byte>>)
    ensures Join(Pieces(lines)) == H.JoinLines(lines)
    ensures forall i :: 0 <= i < |Pieces(lines)| ==> Pieces(lines)[i] != []
    ensures lines != [] ==> Pieces(lines) != [] && Join(Pieces(lines)) != []
  {
    if lines != [] {
      PiecesJoin(lines[1..]);
      assert Pieces(lines)[1..] == Pieces(lines[1..]);
    }
  }

  // The next byte is the next of the text.
  lemma NextByte(got: seq<byte>, sent: seq<byte>, text: seq<byte>, b: byte)
    requires got + [b] <= sent && Agrees(sent, text) && |got| < |text| && got == text[..|got|]
    ensures b == text[|got|] && got + [b] == text[..|got| + 1]
  {
    assert (got + [b])[|got|] == sent[|got|];
  }

  // What one byte of the handshake does to a side.
  lemma HearMachine(keys: Keys, x: Side, p: Plan, b: byte)
    requires Sound(p) && Machine(x, p) && x.m.outcome == H.Waiting
    requires H.Reading(H.Start(p.texts, p.server), p.theirs, |x.heard|, x.m) && x.heard == p.theirs[..|x.heard|]
    requires |x.heard| < |p.theirs| && b == p.theirs[|x.heard|]
    ensures var y := Hear(keys, x, b);
            && Machine(y, p) && H.Reading(H.Start(p.texts, p.server), p.theirs, |y.heard|, y.m)
            && y.heard == p.theirs[..|y.heard|] && x.m.reply <= y.m.reply
            && y.e == (if y.m.outcome == H.Opened then x.e.(ready := E.OPEN) else x.e)
  {
    var start := H.Start(p.texts, p.server);
    H.ReadingStep(start, p.theirs, |x.heard|, x.m);
    H.ReadingProgress(start, p.theirs, |x.heard| + 1, H.Feed(x.m, b));
    if p.server {
      H.ServingStep(p.texts, x.m, b);
    }
  }

  // A server has its answer to say once it has heard the request line.
  lemma HearSpeaks(keys: Keys, x: Side, r: R.Ring, p: Plan, b: byte)
    requires Speaks(x, r, p) && r.w.WDone? && x.say == [] && x.e.accepted == [] && (p.server ==> p.texts.answer != [])
    requires var y := Hear(keys, x, b);
             && y.e.accepted == [] && (y.m.outcome == H.Opened ==> Spoken(y, p) == p.mine)
             && (if |x.m.reply| < |y.m.reply|
                 then p.server && x.m.reply == [] && y.m.reply == H.JoinLines(p.texts.answer) && y.m.texts == p.texts
                 else Spoken(y, p) == Spoken(x, p))
    ensures Speaks(Hear(keys, x, b), r, p)
  {
    var y := Hear(keys, x, b);
    var lines := y.m.texts.answer;
    assert y.say == if |x.m.reply| < |y.m.reply| then Pieces(lines) else [] by {
      assert [] + Pieces(lines) == Pieces(lines);
    }
    PiecesJoin(lines);
    HearStreamed(x, y, r.sent, p);
  }

  lemma HearStreamed(x: Side, y: Side, sent: seq<byte>, p: Plan)
    requires Streamed(x, sent, p) && x.say == [] && x.e.accepted == y.e.accepted == []
    requires if y.say != [] then p.server && x.m.reply == [] && Join(y.say) == y.m.reply else Spoken(y, p) == Spoken(x, p)
    ensures Streamed(y, sent, p)
  {
    assert Spoken(x, p) + [] == Spoken(x, p);
    assert [] + Join(y.say) == Join(y.say);
  }

  // A server is given its answer to say once, a client nothing more.
  lemma SpokenOnce(x: Side, y: Side, p: Plan, b: byte)
    requires Sound(p) && Machine(x, p) && Machine(y, p) && x.m.reply <= y.m.reply && y.m == H.Feed(x.m, b)
    ensures y.m.outcome == H.Opened ==> Spoken(y, p) == p.mine || !p.server
    ensures if |x.m.reply| < |y.m.reply|
            then p.server && x.m.reply == [] && y.m.reply == H.JoinLines(p.texts.answer) && y.m.texts == p.texts
            else Spoken(y, p) == Spoken(x, p)
  {
  }

  lemma OpenedKeeps(e: E.Endpoint)
    requires Endpoints(e) && e.ready == E.CONNECTING
    ensures Endpoints(e.(ready := E.OPEN))
  {
    assert E.Taken(e.(ready := E.OPEN)) == E.Taken(e);
  }

  lemma HeardKeeps(keys: Keys, x: End, p: Plan, t: R.Ring, b: byte)
    requires EndInv(x, p) && x.out.w.WDone? && x.x.say == [] && x.x.m.outcome == H.Waiting
    requires t.r == R.RDone([b]) && t.got == x.inp.got + [b]
    requires |x.x.heard| < |p.theirs| && b == p.theirs[|x.x.heard|]
    ensures EndInv(End(Hear(keys, x.x, b), x.out, t), p)
  {
    HearMachine(keys, x.x, p, b);
    SpokenOnce(x.x, Hear(keys, x.x, b), p, b);
    HearSpeaks(keys, x.x, x.out, p, b);
    OpenedKeeps(x.x.e);
    HearHears(keys, x.x, x.inp, p, t, b);
  }

  lemma HearHears(keys: Keys, x: Side, r: R.Ring, p: Plan, t: R.Ring, b: byte)
    requires Hears(x, r, p) && x.m.outcome == H.Waiting && t.r.RDone? && t.got == r.got + [b]
    requires var y := Hear(keys, x, b);
             && H.Reading(H.Start(p.texts, p.server), p.theirs, |y.heard|, y.m)
             && y.heard == p.theirs[..|y.heard|] && y.e.arrived == x.e.arrived
    ensures Hears(Hear(keys, x, b), t, p)
  {
    assert r.got == x.heard + [] == x.heard;
    assert Hear(keys, x, b).heard + [] == r.got + [b];
  }

  lemma ArrivedKeeps(e: E.Endpoint, buf: seq<byte>)
    requires Endpoints(e)
    ensures Endpoints(E.Arrive(e, buf))
  {
    E.SameOutbound(e, E.Arrive(e, buf));
    E.ArriveInbound(e, buf);
  }

  lemma ReceivedHears(x: Side, r: R.Ring, p: Plan, t: R.Ring, buf: seq<byte>)
    requires Hears(x, r, p) && x.m.outcome == H.Opened && t.r.RDone? && t.got == r.got + buf
    ensures Hears(x.(e := E.Arrive(x.e, buf)), t, p)
  {
    Associative(x.heard, x.e.arrived, buf);
  }

  lemma ReceivedKeeps(keys: Keys, x: End, p: Plan, t: R.Ring, buf: seq<byte>)
    requires EndInv(x, p) && x.out.w.WDone? && x.x.at.Receiving?
    requires t.r == R.RDone(buf) && t.got == x.inp.got + buf && 0 < |buf| <= E.MAX_READ
    ensures EndInv(End(Taken(keys, x.x, buf), x.out, t), p)
  {
    var y := x.x.(e := E.Arrive(x.x.e, buf));
    assert Taken(keys, x.x, buf) == y;
    ArrivedKeeps(x.x.e, buf);
    SameSpeaks(x.x, y, x.out, x.out, p);
    ReceivedHears(x.x, x.inp, p, t, buf);
  }

  lemma HearStep(keys: Keys, x: End, p: Plan, t: R.Ring, buf: seq<byte>)
    requires EndInv(x, p) && x.out.w.WDone? && x.x.say == [] && x.x.m.outcome == H.Waiting
    requires |buf| == 1 && t.r == R.RDone(buf) && t.got == x.inp.got + buf && t.got <= x.inp.sent
    requires Agrees(x.inp.sent, p.theirs)
    ensures EndInv(End(Taken(keys, x.x, buf), x.out, t), p)
  {
    assert buf == [buf[0]];
    assert x.x.heard + [] == x.x.heard;
    H.ReadingProgress(H.Start(p.texts, p.server), p.theirs, |x.x.heard|, x.x.m);
    NextByte(x.inp.got, x.inp.sent, p.theirs, buf[0]);
    HeardKeeps(keys, x, p, t, buf[0]);
  }

  // The read under way goes on, or ends with nothing.
  lemma StillReading(keys: Keys, x: End, p: Plan, t: R.Ring)
    requires EndInv(x, p) && !x.inp.r.RDone? && t.got == x.inp.got && Listening(x.x, t.r) && (t.r.RDone? ==> t.r.buf == [])
    ensures EndInv(End(if t.r.RDone? then Taken(keys, x.x, t.r.buf) else x.x, x.out, t), p)
  {
  }

  // What comes of a step of the read under way.
  lemma ReadGoesOn(x: Side, r: R.Ring)
    requires Listening(x, r.r) && R.Inv(r) && R.Indices(r) && !r.r.RDone?
    ensures var t := R.ReaderStep(r);
            if t.r.RDone? && t.r.buf != [] then t.got == r.got + t.r.buf && t.got <= r.sent && |t.r.buf| <= ReadSize(x)
            else t.got == r.got && Listening(x, t.r)
  {
    ReaderNext(r);
  }

  lemma ReadStepKeeps(keys: Keys, x: End, p: Plan)
    requires EndInv(x, p) && R.Inv(x.inp) && CanMove(x, ReadStep) && Agrees(x.inp.sent, p.theirs)
    ensures EndInv(Moved(keys, x, ReadStep), p)
  {
    var t := R.ReaderStep(x.inp);
    ReadGoesOn(x.x, x.inp);
    if !t.r.RDone? || t.r.buf == [] {
      StillReading(keys, x, p, t);
    } else if x.x.m.outcome == H.Waiting {
      HearStep(keys, x, p, t, t.r.buf);
    } else {
      ReceivedKeeps(keys, x, p, t, t.r.buf);
    }
  }

  lemma RingsKeep(keys: Keys, x: End, m: Move)
    requires R.Inv(x.out) && R.Inv(x.inp) && CanMove(x, m)
    ensures var y := Moved(keys, x, m); R.Inv(y.out) && R.Inv(y.inp)
  {
    match m
    case Say => R.StepKeeps(x.out, R.WriteCall(x.x.say[0]));
    case Poll => R.StepKeeps(x.inp, R.ReadCall(1));
    case Send => R.StepKeeps(x.out, R.WriteCall(x.x.e.tx));
    case Receive => R.StepKeeps(x.inp, R.ReadCall(E.MAX_READ));
    case WriteStep => R.StepKeeps(x.out, R.WriterMoves);
    case ReadStep => R.StepKeeps(x.inp, R.ReaderMoves);
    case _ =>
  }

  // ---- Starting an operation, and the rest ----

  lemma BeginKeeps(keys: Keys, x: End, p: Plan, m: Move)
    requires m == Say || m == Poll || m == Send || m == Receive
    requires EndInv(x, p) && CanMove(x, m)
    ensures EndInv(Moved(keys, x, m), p)
  {
  }

  lemma ConsumeFrame(keys: Keys, e: E.Endpoint, f: Incoming)
    requires E.Sendable(PONG, f.payload) && f.size <= |e.rx|
    ensures var g := E.Consume(keys, e, f);
            && g.accepted == e.accepted && g.arrived == e.arrived && g.ready == e.ready
            && (E.Ending(e.ready) ==> g.tx == e.tx)
  {
  }

  lemma TakenFrameInv(keys: Keys, e: E.Endpoint, f: Incoming)
    requires E.Outbound(e) && E.Inbound(e) && Parse(e.rx) == Got(f) && Passes(f.opcode)
    requires E.Sendable(PONG, f.payload) && f.size <= |e.rx|
    ensures E.Outbound(E.Consume(keys, e, f)) && E.Inbound(E.Consume(keys, e, f))
  {
    E.ConsumeOutbound(keys, e, f);
    E.ConsumeInbound(keys, e);
  }

  // Two endpoints that differ in nothing the other invariants see.
  ghost predicate SameStreams(e: E.Endpoint, g: E.Endpoint) {
    g.accepted == e.accepted && g.arrived == e.arrived && (g.ready == E.CONNECTING <==> e.ready == E.CONNECTING)
  }

  lemma TakenFrame(keys: Keys, e: E.Endpoint, f: Incoming)
    requires Endpoints(e) && Parse(e.rx) == Got(f) && Passes(f.opcode)
    requires E.Sendable(PONG, f.payload) && f.size <= |e.rx|
    ensures Endpoints(E.Consume(keys, e, f)) && SameStreams(e, E.Consume(keys, e, f))
  {
    TakenFrameInv(keys, e, f);
    ConsumeFrame(keys, e, f);
  }

  lemma CalledKeeps(keys: Keys, e: E.Endpoint, ev: E.Event)
    requires Endpoints(e) && IsCall(e, ev) && E.Enabled(e, ev)
    ensures Endpoints(E.Step(keys, e, ev)) && SameStreams(e, E.Step(keys, e, ev))
  {
    E.StepOutbound(keys, e, ev);
    E.StepInbound(keys, e, ev);
  }

  lemma FinishedKeeps(keys: Keys, e: E.Endpoint)
    requires Endpoints(e)
    ensures Endpoints(Happen(keys, e, E.Drained)) && SameStreams(e, Happen(keys, e, E.Drained))
  {
    if E.Enabled(e, E.Drained) {
      E.StepOutbound(keys, e, E.Drained);
      E.StepInbound(keys, e, E.Drained);
    }
  }

  // Another endpoint in the place of this one, and another point in poll.
  lemma SwapKeeps(x: End, p: Plan, at: Point, e: E.Endpoint)
    requires EndInv(x, p) && Idle(x) && Endpoints(e) && SameStreams(x.x.e, e)
    requires at.Outside? || (at.Dispatching? && x.x.say == [] && x.x.m.outcome == H.Opened)
    ensures EndInv(x.(x := x.x.(at := at, e := e)), p)
  {
    var y := x.x.(at := at, e := e);
    SameSpeaks(x.x, y, x.out, x.out, p);
    SameHears(x.x, y, x.inp, x.inp, p);
  }

  lemma ActKeeps(keys: Keys, x: End, p: Plan, m: Move)
    requires m.Call? || m.Finish? || m.TakeFrame? || m.EndDispatch?
    requires EndInv(x, p) && CanMove(x, m)
    ensures EndInv(Moved(keys, x, m), p)
  {
    var e := x.x.e;
    match m
    case Call(ev) =>
      CalledKeeps(keys, e, ev);
      SwapKeeps(x, p, x.x.at, E.Step(keys, e, ev));
    case Finish(callback) =>
      FinishedKeeps(keys, e);
      SwapKeeps(x, p, if callback then Dispatching else Outside, Happen(keys, e, E.Drained));
    case TakeFrame =>
      ParseSize(e.rx);
      TakenFrame(keys, e, Parse(e.rx).frame);
      SwapKeeps(x, p, Dispatching, E.Consume(keys, e, Parse(e.rx).frame));
    case EndDispatch =>
      CalledKeeps(keys, e, E.CloseCall);
      SwapKeeps(x, p, Outside, if Parse(e.rx).Got? then E.CloseConnection(e) else e);
    case _ =>
  }

  // A move keeps what holds of the side that makes it, and leaves the other side's part of the
  // rings alone.
  lemma MoveKeeps(keys: Keys, x: End, p: Plan, m: Move)
    requires EndInv(x, p) && R.Inv(x.out) && R.Inv(x.inp) && CanMove(x, m) && Agrees(x.inp.sent, p.theirs)
    ensures var y := Moved(keys, x, m); EndInv(y, p) && R.Inv(y.out) && R.Inv(y.inp)
  {
    RingsKeep(keys, x, m);
    WriterHas(x.out);
    match m
    case WriteStep => WriteStepKeeps(keys, x, p);
    case ReadStep => ReadStepKeeps(keys, x, p);
    case Say => BeginKeeps(keys, x, p, m);
    case Poll => BeginKeeps(keys, x, p, m);
    case Receive => BeginKeeps(keys, x, p, m);
    case Send => BeginKeeps(keys, x, p, m);
    case _ => ActKeeps(keys, x, p, m);
  }

  lemma MoveFrame(keys: Keys, x: End, m: Move)
    requires CanMove(x, m)
    ensures var y := Moved(keys, x, m);
            && y.out.r == x.out.r && y.out.got == x.out.got && y.out.cap == x.out.cap
            && y.inp.w == x.inp.w && y.inp.sent == x.inp.sent && y.inp.cap == x.inp.cap
  {
    match m
    case WriteStep => WriterFrame(x.out);
    case ReadStep => ReaderFrame(x.inp);
    case _ =>
  }

  // The other side is where it was, its rings moved on by their other ends.
  lemma PeerKeeps(y: End, out: R.Ring, inp: R.Ring, p: Plan)
    requires EndInv(y, p)
    requires out.w == y.out.w && out.sent == y.out.sent && out.cap == y.out.cap
    requires inp.r == y.inp.r && inp.got == y.inp.got
    ensures EndInv(End(y.x, out, inp), p)
  {
    SameSpeaks(y.x, y.x, y.out, out, p);
    SameHears(y.x, y.x, y.inp, inp, p);
  }

  // ---- Both sides ----

  ghost predicate Inv(s: System, pa: Plan, pb: Plan) {
    && EndInv(EndA(s), pa) && EndInv(EndB(s), pb)
    && R.Inv(s.ab) && R.Inv(s.ba)
    && pa.mine == pb.theirs && pb.mine == pa.theirs
  }

  lemma EndAgrees(x: End, p: Plan)
    requires EndInv(x, p)
    ensures Agrees(x.out.sent, p.mine)
  {
    SpokenPrefix(x.x, p);
    StreamAgrees(x.x, x.out.sent, p);
  }

  lemma StepKeeps(ka: Keys, kb: Keys, s: System, ev: Event, pa: Plan, pb: Plan)
    requires Inv(s, pa, pb) && Enabled(s, ev)
    ensures Inv(Step(ka, kb, s, ev), pa, pb)
  {
    var a, b := EndA(s), EndB(s);
    match ev
    case ByA(m) =>
      EndAgrees(b, pb);
      MoveKeeps(ka, a, pa, m);
      MoveFrame(ka, a, m);
      PeerKeeps(b, Moved(ka, a, m).inp, Moved(ka, a, m).out, pb);
    case ByB(m) =>
      EndAgrees(a, pa);
      MoveKeeps(kb, b, pb, m);
      MoveFrame(kb, b, m);
      PeerKeeps(a, Moved(kb, b, m).inp, Moved(kb, b, m).out, pa);
  }

  lemma {:induction false} RunKeeps(ka: Keys, kb: Keys, s: System, evs: seq<Event>, pa: Plan, pb: Plan)
    requires Inv(s, pa, pb) && IsRun(ka, kb, s, evs)
    ensures Inv(After(ka, kb, s, evs), pa, pb)
    decreases |evs|
  {
    if evs != [] {
      StepKeeps(ka, kb, s, evs[0], pa, pb);
      RunKeeps(ka, kb, Step(ka, kb, s, evs[0]), evs[1..], pa, pb);
    }
  }

  // ---- The start ----

  // A client that has yet to send its request, in as many calls as it likes, and a server that
  // has yet to read it, over two empty rings.
  function Connecting(texts: H.Texts, request: seq<seq<byte>>, maskA: bool, maskB: bool, cap: nat,
                      memAB: seq<byte>, memBA: seq<byte>): System {
    System(Side(H.Start(texts, false), [], request, Outside, E.Fresh(maskA, E.CONNECTING)),
           Side(H.Start(texts, true), [], [], Outside, E.Fresh(maskB, E.CONNECTING)),
           R.Empty(cap, memAB), R.Empty(cap, memBA))
  }

  function ClientPlan(texts: H.Texts, request: seq<seq<byte>>): Plan {
    Plan(texts, false, Join(request), H.JoinLines(texts.answer))
  }

  function ServerPlan(texts: H.Texts, request: seq<seq<byte>>): Plan {
    Plan(texts, true, H.JoinLines(texts.answer), Join(request))
  }

  // The request is one the server takes, and both texts fit into a ring.
  ghost predicate Agreeable(texts: H.Texts, headers: seq<seq<byte>>, request: seq<seq<byte>>, cap: nat) {
    && H.Proper(texts) && (forall i :: 0 <= i < |headers| ==> H.Header(headers[i]))
    && Join(request) == H.Request(texts, headers) && (forall i :: 0 <= i < |request| ==> request[i] != [])
    && |Join(request)| + 2 <= cap && |H.JoinLines(texts.answer)| + 2 <= cap < U32
  }

  // The bytes of a ring in a file of the shared socket.
  const RING_SIZE: nat := SharedSocket.SHARED_BUFFER_SIZE - Spsc.HEADER_SIZE

  lemma {:induction false} LinesSize(lines: seq<seq<byte>>)
    requires forall i :: 0 <= i < |lines| ==> H.Plain(lines[i])
    ensures |H.JoinLines(lines)| <= 255 * |lines|
  {
    if lines != [] {
      LinesSize(lines[1..]);
    }
  }

  // The source's own texts are such, for a request that fits into its rings.
  lemma SourceAgreeable(headers: seq<seq<byte>>, request: seq<seq<byte>>)
    requires forall i :: 0 <= i < |headers| ==> H.Header(headers[i])
    requires Join(request) == H.Request(H.SourceTexts(), headers) && (forall i :: 0 <= i < |request| ==> request[i] != [])
    requires |Join(request)| + 2 <= RING_SIZE
    ensures Agreeable(H.SourceTexts(), headers, request, RING_SIZE)
  {
    H.SourceProper();
    AnswerSize(H.SourceTexts());
  }

  lemma AnswerSize(texts: H.Texts)
    requires H.Proper(texts)
    ensures |H.JoinLines(texts.answer)| <= 255 * 6
  {
    LinesSize(texts.answer);
  }

  lemma PlansSound(texts: H.Texts, headers: seq<seq<byte>>, request: seq<seq<byte>>, cap: nat)
    requires Agreeable(texts, headers, request, cap)
    ensures Sound(ClientPlan(texts, request)) && Sound(ServerPlan(texts, request))
  {
    H.ServerReads(texts, headers, []);
    H.ClientReads(texts, texts.answer, []);
    assert Join(request) + [] == Join(request) && H.JoinLines(texts.answer) + [] == H.JoinLines(texts.answer);
  }

  lemma ConnectingInv(texts: H.Texts, headers: seq<seq<byte>>, request: seq<seq<byte>>,
                      maskA: bool, maskB: bool, cap: nat, memAB: seq<byte>, memBA: seq<byte>)
    requires Agreeable(texts, headers, request, cap) && |memAB| == |memBA| == cap
    ensures Inv(Connecting(texts, request, maskA, maskB, cap, memAB, memBA), ClientPlan(texts, request), ServerPlan(texts, request))
  {
    var s := Connecting(texts, request, maskA, maskB, cap, memAB, memBA);
    PlansSound(texts, headers, request, cap);
    R.EmptyInv(cap, memAB);
    R.EmptyInv(cap, memBA);
    E.FreshMeets(maskA, E.CONNECTING);
    E.FreshMeets(maskB, E.CONNECTING);
    ClientStarts(s.a, ClientPlan(texts, request), s.ab, s.ba);
    ServerStarts(s.b, ServerPlan(texts, request), s.ba, s.ab);
  }

  lemma ClientStarts(x: Side, p: Plan, out: R.Ring, inp: R.Ring)
    requires Sound(p) && !p.server && Endpoints(x.e) && x.e.ready == E.CONNECTING && x.at.Outside?
    requires x.m == H.Start(p.texts, false) && x.heard == [] && Join(x.say) == p.mine && x.e.accepted == x.e.arrived == []
    requires forall i :: 0 <= i < |x.say| ==> x.say[i] != []
    requires out.sent == [] && out.w.WDone? && |p.mine| + 2 <= out.cap && inp.got == [] && inp.r.RDone?
    ensures EndInv(End(x, out, inp), p)
  {
    assert [] + Join(x.say) == p.mine;
    assert p.theirs[..0] == [];
  }

  lemma ServerStarts(x: Side, p: Plan, out: R.Ring, inp: R.Ring)
    requires Sound(p) && p.server && Endpoints(x.e) && x.e.ready == E.CONNECTING && x.at.Outside?
    requires x.m == H.Start(p.texts, true) && x.heard == [] && x.say == [] && x.e.accepted == x.e.arrived == []
    requires out.sent == [] && out.w.WDone? && |p.mine| + 2 <= out.cap && inp.got == [] && inp.r.RDone?
    ensures EndInv(End(x, out, inp), p)
  {
    assert p.theirs[..0] == [];
  }
}
