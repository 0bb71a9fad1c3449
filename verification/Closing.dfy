// What becomes of messages that are on their way to a side whose connection is closing: poll closes it
// as soon as its send loop has emptied the transmit buffer, and it never reads again.
module Closing {
  import opened Bytes
  import opened Frame
  import opened Stream
  import opened Session
  import opened EndToEnd
  import opened Progress
  import E = Endpoint
  import H = Handshake
  import R = Ring

  // ---- Delivered or not, by counting bytes ----

  // How many bytes the first n frames of a queue take.
  ghost function Size(os: seq<Outgoing>, n: nat): nat
    requires E.AllValid(os) && n <= |os|
  {
    |E.EncodeAll(os[..n])|
  }

  lemma {:induction false} SizeStep(os: seq<Outgoing>, n: nat)
    requires E.AllValid(os) && n < |os|
    ensures Size(os, n + 1) == Size(os, n) + |Encode(os[n])| > Size(os, n)
  {
    assert os[..n + 1] == os[..n] + [os[n]];
    E.EncodeAllSnoc(os[..n], os[n]);
  }

  lemma {:induction false} SizeGrows(os: seq<Outgoing>, k: nat, n: nat)
    requires E.AllValid(os) && k <= n <= |os|
    ensures Size(os, k) <= Size(os, n) && (k < n ==> Size(os, k) < Size(os, n))
    decreases n
  {
    if k < n {
      var m := n - 1;
      SizeStep(os, m);
      SizeGrows(os, k, m);
      assert Size(os, n) == Size(os, m + 1);
    }
  }

  // How many bytes of the first n frames lie before the end of the last data frame among them.
  ghost function DataEndOf(os: seq<Outgoing>, n: nat): nat
    requires E.AllValid(os) && n <= |os|
  {
    if n == 0 then 0 else if IsData(os[n - 1].opcode) then Size(os, n) else DataEndOf(os, n - 1)
  }

  ghost function DataEnd(os: seq<Outgoing>): nat
    requires E.AllValid(os)
  {
    DataEndOf(os, |os|)
  }

  lemma {:induction false} DataEndBound(os: seq<Outgoing>, n: nat)
    requires E.AllValid(os) && n <= |os|
    ensures DataEndOf(os, n) <= Size(os, n)
  {
    if n != 0 {
      SizeStep(os, n - 1);
      DataEndBound(os, n - 1);
    }
  }

  lemma {:induction false} SentSnoc(os: seq<Outgoing>, o: Outgoing)
    ensures SentMessages(os + [o]) == [] <==> SentMessages(os) == [] && !IsData(o.opcode)
  {
    SentConcat(os, [o]);
    assert [o][1..] == [];
  }

  // The frames from k on carry no message exactly when the last data frame ends before them.
  lemma {:induction false} NoMessageLeft(os: seq<Outgoing>, k: nat, n: nat)
    requires E.AllValid(os) && k <= n <= |os|
    ensures SentMessages(os[k..n]) == [] <==> DataEndOf(os, n) <= Size(os, k)
    decreases n
  {
    if k == n {
      DataEndBound(os, n);
    } else {
      var init, last := os[k..n - 1], os[n - 1];
      assert os[k..n] == init + [last];
      SentSnoc(init, last);
      SizeGrows(os, k, n);
      NoMessageLeft(os, k, n - 1);
    }
  }

  // The frame after the first k is wholly inside the bytes up to the end of the last data frame.
  lemma {:induction false} DataEndReaches(os: seq<Outgoing>, k: nat, n: nat)
    requires E.AllValid(os) && k < n <= |os| && Size(os, k) < DataEndOf(os, n)
    ensures Size(os, k + 1) <= DataEndOf(os, n) && (IsData(os[k].opcode) || k < n - 1)
    decreases n
  {
    if IsData(os[n - 1].opcode) {
      SizeGrows(os, k + 1, n);
    } else {
      DataEndBound(os, n - 1);
      if k < n - 1 {
        DataEndReaches(os, k, n - 1);
      }
    }
  }

  lemma {:induction false} SizeSplit(os: seq<Outgoing>, taken: seq<byte>, left: seq<byte>, k: nat)
    requires E.AllValid(os) && k <= |os| && E.AllValid(os[k..])
    requires E.EncodeAll(os) == taken + left && left == E.EncodeAll(os[k..])
    ensures Size(os, k) == |taken|
  {
    var xs, ys := os[..k], os[k..];
    assert xs + ys == os;
    E.EncodeConcat(xs, ys);
    assert |E.EncodeAll(os)| == |E.EncodeAll(xs)| + |left|;
  }

  // All messages have been delivered exactly when the bytes taken reach the end of the last of them.
  lemma {:induction false} DeliveredExactly(x: E.Endpoint, waiting: seq<byte>, y: E.Endpoint)
    requires Flow(x, waiting, y)
    ensures y.delivered == SentMessages(x.queued) <==> DataEnd(x.queued) <= |E.Taken(y)|
  {
    var os, taken := x.queued, E.Taken(y);
    FlowBytes(x, waiting, y);
    var k := DecodePrefix(os, taken, y.rx + (waiting + x.tx));
    MessagesRead(os[..k]);
    SentSplit(os, k);
    SizeSplit(os, taken, y.rx + (waiting + x.tx), k);
    assert os[k..|os|] == os[k..];
    NoMessageLeft(os, k, |os|);
  }

  // And, after a dispatch, when the bytes received do.
  lemma {:induction false} ArrivedExactly(x: E.Endpoint, waiting: seq<byte>, y: E.Endpoint)
    requires Flow(x, waiting, y) && !HasFrame(y)
    ensures y.delivered == SentMessages(x.queued) <==> DataEnd(x.queued) <= |y.arrived|
  {
    var os, taken := x.queued, E.Taken(y);
    DeliveredExactly(x, waiting, y);
    FlowBytes(x, waiting, y);
    var k := DecodePrefix(os, taken, y.rx + (waiting + x.tx));
    SizeSplit(os, taken, y.rx + (waiting + x.tx), k);
    DataEndBound(os, |os|);
    if |taken| < DataEnd(os) <= |y.arrived| {
      FrameArrived(os, k, y.rx, waiting + x.tx);
      assert false;
    }
  }

  // A frame before the end of the last data frame, wholly received.
  lemma {:induction false} FrameArrived(os: seq<Outgoing>, k: nat, rx: seq<byte>, rest: seq<byte>)
    requires E.AllValid(os) && k < |os| && E.AllValid(os[k..]) && E.EncodeAll(os[k..]) == rx + rest
    requires Size(os, k) < DataEnd(os) <= Size(os, k) + |rx|
    ensures Parse(rx) == Got(Delivered(os[k])) && (IsData(os[k].opcode) || k < |os| - 1)
  {
    DataEndReaches(os, k, |os|);
    SizeStep(os, k);
    HeadArrived(os[k..], rx, rest);
  }

  // A first frame wholly received is read.
  lemma {:induction false} HeadArrived(os: seq<Outgoing>, rx: seq<byte>, rest: seq<byte>)
    requires E.AllValid(os) && os != [] && E.EncodeAll(os) == rx + rest && |Encode(os[0])| <= |rx|
    ensures Parse(rx) == Got(Delivered(os[0]))
  {
    E.EncodeHead(os);
    var n := |Encode(os[0])|;
    Rest(Encode(os[0]), E.EncodeAll(os[1..]), rx, rest);
    assert rx == Encode(os[0]) + rx[n..] by {
      assert (rx + rest)[..n] == Encode(os[0]);
    }
    RoundTrip(os[0], rx[n..]);
  }

  // ---- A closing side whose send loop is over ----

  // The transmit buffer is empty: the next thing poll does is to close the connection.
  predicate LoopOver(x: End) {
    Idle(x) && x.x.at.Sending? && x.x.e.ready == E.CLOSING && x.x.e.tx == []
  }

  // It has no other move, and takes this one to a closed connection.
  lemma ClosesNext(keys: Keys, x: End, m: Move)
    requires LoopOver(x) && CanMove(x, m) && Placed(x.x, x.out.w, x.inp.r)
    ensures m.Finish? && Moved(keys, x, m).x.e == x.x.e.(ready := E.CLOSED)
  {
  }

  // From there on, each poll being given a callback: what has arrived stays as it is, and once poll
  // is over nothing in it is left to take.
  ghost predicate Shut(x: End, arrived: seq<byte>) {
    && Idle(x) && x.x.say == [] && x.x.e.arrived == arrived
    && (|| LoopOver(x)
        || (x.x.e.ready == E.CLOSED && (x.x.at.Dispatching? || (x.x.at.Outside? && !HasFrame(x.x.e)))))
  }

  lemma ShutKeeps(keys: Keys, x: End, m: Move, arrived: seq<byte>)
    requires Shut(x, arrived) && x.x.m.outcome == H.Opened && CanMove(x, m) && m != Finish(false)
    ensures Shut(Moved(keys, x, m), arrived)
  {
    if m.TakeFrame? {
      ParseSize(x.x.e.rx);
      ConsumeFrame(keys, x.x.e, Parse(x.x.e.rx).frame);
    } else if LoopOver(x) {
      assert m.Finish?;
    } else if m.Call? {
      ShutCalled(keys, x.x.e, m.ev);
    }
  }

  // Calls on a closed connection do nothing.
  lemma ShutCalled(keys: Keys, e: E.Endpoint, ev: E.Event)
    requires e.ready == E.CLOSED && IsCall(e, ev) && E.Enabled(e, ev)
    ensures var g := E.Step(keys, e, ev); g == e.(draws := g.draws)
  {
  }

  lemma ShutPeer(x: End, out: R.Ring, inp: R.Ring, arrived: seq<byte>)
    requires Shut(x, arrived) && out.w == x.out.w && inp.r == x.inp.r
    ensures Shut(End(x.x, out, inp), arrived)
  {
  }

  // Each poll of the side is given a callback.
  predicate Served(evs: seq<Event>, toB: bool) {
    evs == [] || (evs[0] != (if toB then ByB(Finish(false)) else ByA(Finish(false))) && Served(evs[1..], toB))
  }

  lemma ShutOpened(x: End, p: Plan, arrived: seq<byte>)
    requires EndInv(x, p) && Shut(x, arrived)
    ensures x.x.m.outcome == H.Opened
  {
  }

  lemma ShutStep(ka: Keys, kb: Keys, s: System, pa: Plan, pb: Plan, ev: Event, toB: bool, arrived: seq<byte>)
    requires Inv(s, pa, pb) && Enabled(s, ev) && Shut(EndOf(s, !toB), arrived)
    requires ev != if toB then ByB(Finish(false)) else ByA(Finish(false))
    ensures Shut(EndOf(Step(ka, kb, s, ev), !toB), arrived)
  {
    ShutOpened(EndOf(s, !toB), if toB then pb else pa, arrived);
    match ev
    case ByA(m) =>
      MoveFrame(ka, EndA(s), m);
      if toB {
        ShutPeer(EndB(s), Moved(ka, EndA(s), m).inp, Moved(ka, EndA(s), m).out, arrived);
      } else {
        ShutKeeps(ka, EndA(s), m, arrived);
      }
    case ByB(m) =>
      MoveFrame(kb, EndB(s), m);
      if toB {
        ShutKeeps(kb, EndB(s), m, arrived);
      } else {
        ShutPeer(EndA(s), Moved(kb, EndB(s), m).inp, Moved(kb, EndB(s), m).out, arrived);
      }
  }

  lemma {:induction false} ShutRun(ka: Keys, kb: Keys, s: System, pa: Plan, pb: Plan, evs: seq<Event>, toB: bool, arrived: seq<byte>)
    requires Inv(s, pa, pb) && IsRun(ka, kb, s, evs) && Shut(EndOf(s, !toB), arrived) && Served(evs, toB)
    ensures Shut(EndOf(After(ka, kb, s, evs), !toB), arrived)
    decreases |evs|
  {
    if evs != [] {
      var t := Step(ka, kb, s, evs[0]);
      ShutStep(ka, kb, s, pa, pb, evs[0], toB, arrived);
      StepKeeps(ka, kb, s, evs[0], pa, pb);
      ShutRun(ka, kb, t, pa, pb, evs[1..], toB, arrived);
    }
  }

  // The queue of the other side.
  function QueueTo(s: System, toB: bool): seq<Outgoing> {
    (if toB then s.a else s.b).e.queued
  }

  lemma QueueValid(s: System, pa: Plan, pb: Plan, toB: bool)
    requires Inv(s, pa, pb)
    ensures E.AllValid(QueueTo(s, toB))
  {
  }

  lemma FlowTo(x: End, px: Plan, z: End, pz: Plan)
    requires Joined(x, px, z, pz) && z.x.m.outcome == H.Opened
    ensures Flow(x.x.e, x.out.sent[|x.out.got|..], z.x.e)
  {
    OpenFlow(x, px, z, pz);
  }

  // Whatever happens from the moment the send loop of a closing side is over: once its poll is over,
  // the connection is closed, and it has delivered all the messages the other side has queued by then
  // exactly when all of these had arrived at that moment. The rest it never delivers.
  lemma ClosingExactly(ka: Keys, kb: Keys, s: System, pa: Plan, pb: Plan, evs: seq<Event>, toB: bool)
    requires Inv(s, pa, pb) && LoopOver(EndOf(s, !toB)) && IsRun(ka, kb, s, evs) && Served(evs, toB)
    ensures var t := After(ka, kb, s, evs); var z := EndOf(t, !toB);
            && E.AllValid(QueueTo(t, toB))
            && (z.x.at.Outside? ==>
                z.x.e.ready == E.CLOSED && (DoneTo(t, toB) <==> DataEnd(QueueTo(t, toB)) <= |EndOf(s, !toB).x.e.arrived|))
  {
    var z0 := EndOf(s, !toB);
    EndsClear(s, pa, pb, toB);
    ShutRun(ka, kb, s, pa, pb, evs, toB, z0.x.e.arrived);
    RunKeeps(ka, kb, s, evs, pa, pb);
    var t := After(ka, kb, s, evs);
    QueueValid(t, pa, pb, toB);
    if EndOf(t, !toB).x.at.Outside? {
      ShutExactly(EndOf(t, toB), if toB then pa else pb, EndOf(t, !toB), if toB then pb else pa, z0.x.e.arrived);
    }
  }

  lemma EndsClear(s: System, pa: Plan, pb: Plan, toB: bool)
    requires Inv(s, pa, pb) && EndOf(s, !toB).x.at.Sending?
    ensures EndOf(s, !toB).x.say == []
  {
  }

  lemma ShutExactly(x: End, px: Plan, z: End, pz: Plan, arrived: seq<byte>)
    requires Joined(x, px, z, pz) && Shut(z, arrived) && z.x.at.Outside?
    ensures z.x.e.ready == E.CLOSED && E.AllValid(x.x.e.queued)
    ensures Done(x.x, z.x) <==> DataEnd(x.x.e.queued) <= |arrived|
  {
    FlowTo(x, px, z, pz);
    ArrivedExactly(x.x.e, x.out.sent[|x.out.got|..], z.x.e);
  }

  // ---- A closed side ----

  lemma ClosedMove(keys: Keys, x: End, p: Plan, m: Move)
    requires Machine(x.x, p) && Placed(x.x, x.out.w, x.inp.r) && x.x.e.ready == E.CLOSED && CanMove(x, m)
    ensures var e := Moved(keys, x, m).x.e; e.ready == E.CLOSED && e.arrived == x.x.e.arrived
  {
    match m
    case Call(ev) => ShutCalled(keys, x.x.e, ev);
    case TakeFrame =>
      ParseSize(x.x.e.rx);
      ConsumeFrame(keys, x.x.e, Parse(x.x.e.rx).frame);
    case _ =>
  }

  // It reads no more: in every run what has arrived stays as it is.
  lemma {:induction false} ClosedReadsNoMore(ka: Keys, kb: Keys, s: System, pa: Plan, pb: Plan, evs: seq<Event>, who: bool)
    requires Inv(s, pa, pb) && IsRun(ka, kb, s, evs) && EndOf(s, who).x.e.ready == E.CLOSED
    ensures var e := EndOf(After(ka, kb, s, evs), who).x.e;
            e.ready == E.CLOSED && e.arrived == EndOf(s, who).x.e.arrived
    decreases |evs|
  {
    if evs != [] {
      var t := Step(ka, kb, s, evs[0]);
      StepKeeps(ka, kb, s, evs[0], pa, pb);
      if evs[0].ByA? == who {
        ClosedMove(if who then ka else kb, EndOf(s, who), if who then pa else pb, evs[0].m);
      }
      ClosedReadsNoMore(ka, kb, t, pa, pb, evs[1..], who);
    }
  }

  // ---- A message that is lost ----

  lemma QueueGrows(keys: Keys, x: End, m: Move)
    requires CanMove(x, m)
    ensures x.x.e.queued <= Moved(keys, x, m).x.e.queued
  {
    match m
    case TakeFrame => ParseSize(x.x.e.rx);
    case _ =>
  }

  lemma {:induction false} QueueRun(ka: Keys, kb: Keys, s: System, evs: seq<Event>, toB: bool)
    requires IsRun(ka, kb, s, evs)
    ensures QueueTo(s, toB) <= QueueTo(After(ka, kb, s, evs), toB)
    decreases |evs|
  {
    if evs != [] {
      match evs[0] {
        case ByA(m) => QueueGrows(ka, EndA(s), m);
        case ByB(m) => QueueGrows(kb, EndB(s), m);
      }
      QueueRun(ka, kb, Step(ka, kb, s, evs[0]), evs[1..], toB);
    }
  }

  lemma {:induction false} DataEndPrefix(os: seq<Outgoing>, more: seq<Outgoing>, n: nat)
    requires os <= more && E.AllValid(more) && n <= |os|
    ensures E.AllValid(os) && DataEndOf(os, n) == DataEndOf(more, n)
  {
    assert forall i :: 0 <= i < |os| ==> os[i] == more[i];
    assert os[..n] == more[..n];
    if n != 0 {
      DataEndPrefix(os, more, n - 1);
    }
  }

  lemma {:induction false} DataEndGrows(os: seq<Outgoing>, k: nat, n: nat)
    requires E.AllValid(os) && k <= n <= |os|
    ensures DataEndOf(os, k) <= DataEndOf(os, n)
    decreases n
  {
    if k < n {
      DataEndGrows(os, k, n - 1);
      DataEndBound(os, k);
      SizeGrows(os, k, n);
    }
  }

  // With one more data frame the messages end beyond all that has arrived.
  lemma BeyondArrived(x: End, px: Plan, z: End, pz: Plan, o: Outgoing)
    requires Joined(x, px, z, pz) && z.x.m.outcome == H.Opened && o.Valid() && IsData(o.opcode)
    ensures E.AllValid(x.x.e.queued + [o]) && |z.x.e.arrived| < DataEnd(x.x.e.queued + [o])
  {
    var os := x.x.e.queued;
    FlowTo(x, px, z, pz);
    E.EncodeAllSnoc(os, o);
    NonEmpty(o);
    assert (os + [o])[..|os + [o]|] == os + [o];
    assert |E.EncodeAll(os)| == |x.x.e.accepted| + |x.x.e.tx|;
  }

  lemma StillBeyond(os: seq<Outgoing>, more: seq<Outgoing>, n: nat)
    requires os <= more && E.AllValid(more) && E.AllValid(os) && n < DataEnd(os)
    ensures n < DataEnd(more)
  {
    DataEndPrefix(os, more, |os|);
    DataEndGrows(more, |os|, |more|);
  }

  // A call by which a text is sent.
  predicate Sends(s: System, ev: Event, toB: bool) {
    && ev.m.Call? && ev.m.ev.SendMessage? && ev.m.ev.opcode == TEXT_FRAME && ev.ByA? == toB
    && Enabled(s, ev) && !E.Ending(EndOf(s, toB).x.e.ready)
  }

  lemma CallQueues(keys: Keys, x: End, ev: E.Event)
    requires CanMove(x, Call(ev)) && ev.SendMessage? && !E.Ending(x.x.e.ready)
    ensures Moved(keys, x, Call(ev)).x.e.queued
         == x.x.e.queued + [Outgoing(ev.opcode, ev.payload, x.x.e.useMask, keys(x.x.e.draws))]
  {
  }

  lemma SendsQueues(ka: Keys, kb: Keys, s: System, ev: Event, toB: bool) returns (o: Outgoing)
    requires Sends(s, ev, toB)
    ensures QueueTo(Step(ka, kb, s, ev), toB) == QueueTo(s, toB) + [o] && o.Valid() && IsData(o.opcode)
  {
    var keys: Keys := if toB then ka else kb;
    var x := EndOf(s, toB);
    assert CanMove(x, ev.m);
    CallQueues(keys, x, ev.m.ev);
    o := Outgoing(ev.m.ev.opcode, ev.m.ev.payload, x.x.e.useMask, keys(x.x.e.draws));
  }

  lemma SendsBeyond(ka: Keys, kb: Keys, s: System, pa: Plan, pb: Plan, ev: Event, toB: bool)
    requires Inv(s, pa, pb) && LoopOver(EndOf(s, !toB)) && Sends(s, ev, toB)
    ensures var s1 := Step(ka, kb, s, ev);
            E.AllValid(QueueTo(s1, toB)) && |EndOf(s, !toB).x.e.arrived| < DataEnd(QueueTo(s1, toB))
  {
    LostOpened(EndOf(s, !toB), if toB then pb else pa);
    var o := SendsQueues(ka, kb, s, ev, toB);
    BeyondArrived(EndOf(s, toB), if toB then pa else pb, EndOf(s, !toB), if toB then pb else pa, o);
  }

  // A text sent by the other side at that moment is never delivered.
  lemma LostText(ka: Keys, kb: Keys, s: System, pa: Plan, pb: Plan, ev: Event, evs: seq<Event>, toB: bool)
    requires Inv(s, pa, pb) && LoopOver(EndOf(s, !toB)) && Sends(s, ev, toB)
    requires IsRun(ka, kb, Step(ka, kb, s, ev), evs) && Served(evs, toB)
    ensures var t := After(ka, kb, Step(ka, kb, s, ev), evs);
            EndOf(t, !toB).x.at.Outside? ==> EndOf(t, !toB).x.e.ready == E.CLOSED && !DoneTo(t, toB)
  {
    var s1 := Step(ka, kb, s, ev);
    RunCons(ka, kb, s, ev, evs);
    ClosingExactly(ka, kb, s, pa, pb, [ev] + evs, toB);
    SendsBeyond(ka, kb, s, pa, pb, ev, toB);
    QueueRun(ka, kb, s1, evs, toB);
    StillBeyond(QueueTo(s1, toB), QueueTo(After(ka, kb, s1, evs), toB), |EndOf(s, !toB).x.e.arrived|);
  }

  lemma {:induction false} RunCons(ka: Keys, kb: Keys, s: System, ev: Event, evs: seq<Event>)
    requires Enabled(s, ev) && IsRun(ka, kb, Step(ka, kb, s, ev), evs)
    ensures IsRun(ka, kb, s, [ev] + evs) && After(ka, kb, s, [ev] + evs) == After(ka, kb, Step(ka, kb, s, ev), evs)
    ensures !ev.m.Finish? || ev.m.callback ==> forall toB :: Served(evs, toB) ==> Served([ev] + evs, toB)
  {
    assert ([ev] + evs)[1..] == evs;
  }

  lemma LostOpened(z: End, p: Plan)
    requires EndInv(z, p) && LoopOver(z)
    ensures z.x.m.outcome == H.Opened
  {
  }

  // ---- Such a moment comes ----

  // A closing side with nothing to read, and a close frame that it has yet to send.
  ghost predicate Closes(x: End) {
    && x.x.say == [] && x.x.m.outcome == H.Opened && x.x.e.ready == E.CLOSING
    && x.inp.got == x.inp.sent && x.out.got == x.out.sent && x.x.e.tx != [] && |x.x.e.tx| + 2 <= x.out.cap
    && (x.x.at.Outside? || x.x.at.Receiving? || x.x.at.Sending?)
    && (x.out.w.WLoadedBoth? ==> x.out.w.snap == |x.out.got|)
    && (x.out.w.WCopying? ==> x.out.w.data == x.x.e.tx)
  }

  lemma ClosesWrite(keys: Keys, x: End, p: Plan)
    requires Closes(x) && Ready(x.x, x.out, p) && x.inp.r.RDone? && Countable(x.inp) && CanMove(x, WriteStep)
    ensures var y := Moved(keys, x, WriteStep);
            Countable(y.inp) && ((Closes(y) && Pos(y) < Pos(x)) || LoopOver(y))
  {
    WriterFrame(x.out);
    WriterNext(x.out);
    if x.out.w.WLoadedBoth? {
      R.LoadedTakes(x.out);
      assert x.out.w.data[..|x.out.w.data|] == x.out.w.data;
    }
    if !R.WriterStep(x.out).w.WDone? {
      WriteGoesOn(x.x, x.out, p);
    }
  }

  lemma ClosesRead(keys: Keys, x: End, p: Plan)
    requires Closes(x) && Hears(x.x, x.inp, p) && R.Inv(x.inp) && CanMove(x, ReadStep)
    requires ReadPlace(x.x) && x.out.w.WDone? && Countable(x.out) && Countable(R.ReaderStep(x.inp))
    ensures var y := Moved(keys, x, ReadStep); Countable(x.inp) && Countable(y.inp) && Closes(y) && Pos(y) < Pos(x)
  {
    ReadGoesOn(x.x, x.inp);
    ReaderGoesOn(x.inp, ReadSize(x.x));
    ReaderFrame(x.inp);
  }

  lemma ClosesBegin(keys: Keys, x: End, p: Plan)
    requires Closes(x) && Idle(x) && Placed(x.x, x.out.w, x.inp.r) && CanMove(x, OwnMove(x)) && Countable(x.out) && Countable(x.inp)
    ensures var y := Moved(keys, x, OwnMove(x)); Countable(y.inp) && Closes(y) && Pos(y) < Pos(x)
  {
  }

  lemma ClosesStep(keys: Keys, x: End, px: Plan, z: End, pz: Plan)
    requires Joined(x, px, z, pz) && Closes(x)
    ensures CanMove(x, OwnMove(x)) && Countable(x.inp)
    ensures var y := Moved(keys, x, OwnMove(x));
            Joined(y, px, Peer(z, y), pz) && Countable(y.inp) && ((Closes(y) && Pos(y) < Pos(x)) || LoopOver(y))
  {
    R.InvIndices(x.out);
    R.InvIndices(x.inp);
    OwnEnabled(x, px);
    JoinedCounted(x, px, z, pz);
    JoinedKeeps(keys, x, px, z, pz, OwnMove(x));
    if Idle(x) {
      ClosesBegin(keys, x, px);
    } else if !x.out.w.WDone? {
      SpokenPrefix(x.x, px);
      WriterReady(x.out);
      ClosesWrite(keys, x, px);
    } else {
      ReaderReady(x.inp);
      ClosesRead(keys, x, px);
    }
  }

  // The event of a side.
  function ByOf(who: bool, m: Move): Event {
    if who then ByA(m) else ByB(m)
  }

  // The closing side goes on alone until its send loop is over.
  lemma {:induction false} ShutsAlone(ka: Keys, kb: Keys, s: System, pa: Plan, pb: Plan, who: bool) returns (evs: seq<Event>)
    requires Inv(s, pa, pb) && Closes(EndOf(s, who)) && Countable(EndOf(s, who).inp)
    ensures IsRun(ka, kb, s, evs)
    ensures var t := After(ka, kb, s, evs);
            LoopOver(EndOf(t, who)) && EndOf(t, !who).x == EndOf(s, !who).x && EndOf(t, !who).out.w == EndOf(s, !who).out.w
            && EndOf(t, !who).inp.r == EndOf(s, !who).inp.r
    decreases Pos(EndOf(s, who))
  {
    var x, z := EndOf(s, who), EndOf(s, !who);
    var m := OwnMove(x);
    ClosesStep(if who then ka else kb, x, if who then pa else pb, z, if who then pb else pa);
    MoveFrame(if who then ka else kb, x, m);
    var t := Step(ka, kb, s, ByOf(who, m));
    StepKeeps(ka, kb, s, ByOf(who, m), pa, pb);
    var rest := [];
    if !LoopOver(EndOf(t, who)) {
      rest := ShutsAlone(ka, kb, t, pa, pb, who);
    }
    RunCons(ka, kb, s, ByOf(who, m), rest);
    evs := [ByOf(who, m)] + rest;
  }

  // An open side between two polls, with nothing on its way to it or from it.
  ghost predicate Resting(x: End) {
    && Idle(x) && x.x.at.Outside? && x.x.say == [] && x.x.e.ready == E.OPEN && x.x.m.outcome == H.Opened
    && x.x.e.tx == [] && x.inp.got == x.inp.sent && x.out.got == x.out.sent && 8 <= x.out.cap
  }

  lemma CloseCalled(keys: Keys, x: End)
    requires Resting(x)
    ensures CanMove(x, Call(E.CloseCall)) && Closes(Moved(keys, x, Call(E.CloseCall)))
  {
  }

  // From a state in which both sides are open and at rest, one closes its connection and polls.
  lemma CloseRun(ka: Keys, kb: Keys, s: System, pa: Plan, pb: Plan, who: bool) returns (evs: seq<Event>)
    requires Inv(s, pa, pb) && Resting(EndOf(s, who)) && Resting(EndOf(s, !who))
    ensures IsRun(ka, kb, s, evs)
    ensures var t := After(ka, kb, s, evs);
            LoopOver(EndOf(t, who)) && EndOf(t, !who).x == EndOf(s, !who).x && Idle(EndOf(t, !who))
  {
    var close := ByOf(who, Call(E.CloseCall));
    CloseCalled(if who then ka else kb, EndOf(s, who));
    var s1 := Step(ka, kb, s, close);
    StepKeeps(ka, kb, s, close, pa, pb);
    InvCountable(EndOf(s1, who).inp);
    var rest := ShutsAlone(ka, kb, s1, pa, pb, who);
    RunCons(ka, kb, s, close, rest);
    evs := [close] + rest;
  }

  lemma TextCalled(x: End, payload: seq<byte>)
    requires Idle(x) && x.x.at.Outside? && x.x.say == [] && x.x.e.ready == E.OPEN && E.Sendable(TEXT_FRAME, payload)
    ensures CanMove(x, Call(E.SendMessage(TEXT_FRAME, payload)))
  {
  }

  // All continuations of a state in which this text is sent.
  ghost predicate NeverDelivered(ka: Keys, kb: Keys, t: System, text: Event, toB: bool)
    requires Enabled(t, text)
  {
    forall more :: IsRun(ka, kb, Step(ka, kb, t, text), more) && Served(more, toB) ==>
      var u := After(ka, kb, Step(ka, kb, t, text), more);
      EndOf(u, !toB).x.at.Outside? ==> EndOf(u, !toB).x.e.ready == E.CLOSED && !DoneTo(u, toB)
  }

  lemma LostForEver(ka: Keys, kb: Keys, t: System, pa: Plan, pb: Plan, text: Event, toB: bool)
    requires Inv(t, pa, pb) && LoopOver(EndOf(t, !toB)) && Sends(t, text, toB)
    ensures NeverDelivered(ka, kb, t, text, toB)
  {
    forall more | IsRun(ka, kb, Step(ka, kb, t, text), more) && Served(more, toB)
      ensures var u := After(ka, kb, Step(ka, kb, t, text), more);
              EndOf(u, !toB).x.at.Outside? ==> EndOf(u, !toB).x.e.ready == E.CLOSED && !DoneTo(u, toB)
    {
      LostText(ka, kb, t, pa, pb, text, more, toB);
    }
  }

  // Such a text: when the send loop of that side is over the other sends a text. No continuation
  // delivers it.
  lemma CloseLosesText(ka: Keys, kb: Keys, s: System, pa: Plan, pb: Plan, payload: seq<byte>, toB: bool)
    returns (evs: seq<Event>)
    requires Inv(s, pa, pb) && Resting(EndOf(s, toB)) && Resting(EndOf(s, !toB)) && E.Sendable(TEXT_FRAME, payload)
    ensures IsRun(ka, kb, s, evs)
    ensures var t := After(ka, kb, s, evs); var text := ByOf(toB, Call(E.SendMessage(TEXT_FRAME, payload)));
            Sends(t, text, toB) && NeverDelivered(ka, kb, t, text, toB)
  {
    evs := CloseRun(ka, kb, s, pa, pb, !toB);
    var t := After(ka, kb, s, evs);
    RunKeeps(ka, kb, s, evs, pa, pb);
    TextCalled(EndOf(t, toB), payload);
    LostForEver(ka, kb, t, pa, pb, ByOf(toB, Call(E.SendMessage(TEXT_FRAME, payload))), toB);
  }

  // ---- A close reaches the other side ----

  // The close frame is the last that has been queued.
  ghost predicate CloseQueued(x: Side) {
    x.e.queued != [] && E.Last(x.e) == E.CLOSE_FRAME
  }

  lemma CloseEnds(x: End, p: Plan)
    requires EndInv(x, p) && CloseQueued(x.x)
    ensures E.Ending(x.x.e.ready)
  {
  }

  lemma {:induction false} TakenPass(d: seq<byte>, i: nat)
    requires i < |Frames(d)|
    ensures Passes(Frames(d)[i].opcode)
    decreases |d|
  {
    var f := Parse(d).frame;
    ParseSize(d);
    if i != 0 {
      TakenPass(d[f.size..], i - 1);
    }
  }

  lemma {:induction false} ReadAt(os: seq<Outgoing>, i: nat)
    requires E.AllValid(os) && i < |os|
    ensures |AsRead(os)| == |os| && AsRead(os)[i] == Delivered(os[i])
  {
    if i != 0 {
      ReadAt(os[1..], i - 1);
    } else if |os| > 1 {
      ReadAt(os[1..], 0);
    }
  }

  // All that was queued has arrived, the close last: then a frame heads the receive buffer.
  lemma {:induction false} CloseAtHead(x: E.Endpoint, y: E.Endpoint)
    requires Flow(x, [], y) && x.tx == [] && x.queued != [] && E.Last(x) == E.CLOSE_FRAME
    ensures Parse(y.rx).Got?
  {
    var os, taken := x.queued, E.Taken(y);
    FlowBytes(x, [], y);
    assert y.rx + ([] + []) == y.rx;
    var k := DecodePrefix(os, taken, y.rx);
    if k == |os| {
      assert os[..k] == os;
      ReadAt(os, k - 1);
      TakenPass(taken, k - 1);
    } else {
      E.EncodeHead(os[k..]);
      RoundTrip(os[k], E.EncodeAll(os[k..][1..]));
    }
  }

  lemma NothingWaits(x: End, px: Plan, z: End, pz: Plan)
    requires Joined(x, px, z, pz) && NoWork(x, z) && x.x.m.outcome == H.Opened && Live(z.x.e)
    ensures x.out.got == x.out.sent && x.x.e.tx == []
  {
    AllRead(x, px, z, pz);
    TheirsNonEmpty(pz);
    if x.x.e.tx != [] {
      R.AcceptedExact(x.out.cap, 0, |x.x.e.tx|);
    }
  }

  // A side that has closed leaves the other something to do until that is ending too.
  lemma CloseWorks(x: End, px: Plan, z: End, pz: Plan)
    requires Joined(x, px, z, pz) && CloseQueued(x.x) && x.x.m.outcome == H.Opened && z.x.m.outcome == H.Opened
    requires Countable(x.out) && Countable(z.out) && !E.Ending(z.x.e.ready)
    ensures Work(x) || Work(z)
  {
    if NoWork(x, z) {
      NothingWaits(x, px, z, pz);
      FlowTo(x, px, z, pz);
      CloseAtHead(x.x.e, z.x.e);
    }
  }

  lemma EndingStays(keys: Keys, x: End, m: Move)
    requires CanMove(x, m) && E.Ending(x.x.e.ready) && x.x.m.outcome == H.Opened
    ensures E.Ending(Moved(keys, x, m).x.e.ready) && Moved(keys, x, m).x.e.queued == x.x.e.queued
  {
    match m
    case TakeFrame => ParseSize(x.x.e.rx);
    case _ =>
  }

  // From a state in which one side has closed: either side.
  ghost predicate Hung(s: System, toB: bool) {
    CloseQueued(EndOf(s, toB).x) && EndOf(s, toB).x.m.outcome == H.Opened
  }

  lemma NextHung(ka: Keys, kb: Keys, s: System, pa: Plan, pb: Plan, who: bool, toB: bool)
    requires Inv(s, pa, pb)
    ensures Hung(s, toB) ==> Hung(Next(ka, kb, s, who), toB)
    ensures Hung(s, toB) && EndOf(s, !toB).x.m.outcome == H.Opened && E.Ending(EndOf(s, !toB).x.e.ready) ==>
      E.Ending(EndOf(Next(ka, kb, s, who), !toB).x.e.ready) && EndOf(Next(ka, kb, s, who), !toB).x.m.outcome == H.Opened
  {
    NextInv(ka, kb, s, pa, pb, who);
    var x := EndOf(s, who);
    OwnMoveStays(if who then ka else kb, x, if who then pa else pb);
  }

  lemma OwnMoveStays(keys: Keys, x: End, p: Plan)
    requires EndInv(x, p) && CanMove(x, OwnMove(x))
    ensures var y := Moved(keys, x, OwnMove(x)).x;
            && (x.x.m.outcome == H.Opened ==> y.m.outcome == H.Opened)
            && (CloseQueued(x.x) && x.x.m.outcome == H.Opened ==> CloseQueued(y))
            && (E.Ending(x.x.e.ready) && x.x.m.outcome == H.Opened ==> E.Ending(y.e.ready))
  {
    if x.x.m.outcome == H.Opened {
      OpenedStays(keys, x, OwnMove(x));
      if CloseQueued(x.x) {
        CloseEnds(x, p);
      }
      if E.Ending(x.x.e.ready) {
        EndingStays(keys, x, OwnMove(x));
      }
    }
  }

  ghost predicate Kept(s: System, pa: Plan, pb: Plan, toB: bool) {
    Planned(s, pa, pb) && Hung(s, toB)
  }

  ghost predicate Ends(s: System, toB: bool) {
    EndOf(s, !toB).x.m.outcome == H.Opened && E.Ending(EndOf(s, !toB).x.e.ready)
  }

  lemma NextKept(ka: Keys, kb: Keys, s: System, pa: Plan, pb: Plan, who: bool, toB: bool)
    requires Kept(s, pa, pb, toB)
    ensures Kept(Next(ka, kb, s, who), pa, pb, toB)
    ensures Ends(s, toB) ==> Ends(Next(ka, kb, s, who), toB)
  {
    NextInv(ka, kb, s, pa, pb, who);
    NextHung(ka, kb, s, pa, pb, who, toB);
  }

  // Until then some side has something to do.
  lemma KeptWorks(s: System, pa: Plan, pb: Plan, toB: bool)
    requires Kept(s, pa, pb, toB) && !Ends(s, toB) && Countable(s.ab) && Countable(s.ba)
    ensures Work(EndA(s)) || Work(EndB(s))
  {
    InvJoined(s, pa, pb);
    if NoWork(EndA(s), EndB(s)) {
      BothOpen(EndA(s), pa, EndB(s), pb);
      if toB {
        CloseWorks(EndA(s), pa, EndB(s), pb);
      } else {
        CloseWorks(EndB(s), pb, EndA(s), pa);
      }
    }
  }

  lemma KeptForward(ka: Keys, kb: Keys, s: System, pa: Plan, pb: Plan, who: bool, toB: bool)
    requires Kept(s, pa, pb, toB) && !Ends(s, toB) && Inv(Next(ka, kb, s, who), pa, pb)
    ensures Forward(StandingOf(s, pa, pb), StandingOf(Next(ka, kb, s, who), pa, pb), who)
  {
    EndsCounted(s, pa, pb);
    KeptWorks(s, pa, pb, toB);
    NextGoes(ka, kb, s, pa, pb, who);
  }

  ghost function Kepts(states: nat -> System, pa: Plan, pb: Plan, toB: bool): nat -> bool {
    (n: nat) => Kept(states(n), pa, pb, toB)
  }

  ghost function Endings(states: nat -> System, toB: bool): nat -> bool {
    (n: nat) => Ends(states(n), toB)
  }

  lemma KeptGoesOn(ka: Keys, kb: Keys, states: nat -> System, pa: Plan, pb: Plan, sched: Schedule, toB: bool, n: nat)
    requires Follows(ka, kb, states, sched)
    ensures GoesOn(Kepts(states, pa, pb, toB), n)
  {
    if Kept(states(n), pa, pb, toB) {
      assert Followed(ka, kb, states, sched, n);
      NextKept(ka, kb, states(n), pa, pb, sched(n), toB);
    }
  }

  lemma KeptForEver(ka: Keys, kb: Keys, states: nat -> System, pa: Plan, pb: Plan, sched: Schedule, toB: bool, n: nat)
    requires Follows(ka, kb, states, sched) && Kept(states(0), pa, pb, toB)
    ensures Kept(states(n), pa, pb, toB)
  {
    forall i: nat
      ensures GoesOn(Kepts(states, pa, pb, toB), i)
    {
      KeptGoesOn(ka, kb, states, pa, pb, sched, toB, i);
    }
    ForEver(Kepts(states, pa, pb, toB), 0, n);
  }

  lemma EndingAhead(ka: Keys, kb: Keys, states: nat -> System, pa: Plan, pb: Plan, sched: Schedule, toB: bool, n: nat)
    requires Follows(ka, kb, states, sched) && Kept(states(n), pa, pb, toB) && Kept(states(n + 1), pa, pb, toB)
    ensures Ends(states(n), toB) ==> Ends(states(n + 1), toB)
    ensures !Ends(states(n), toB) ==> Forward(Total(states(n), pa, pb), Total(states(n + 1), pa, pb), sched(n))
  {
    assert Followed(ka, kb, states, sched, n);
    NextKept(ka, kb, states(n), pa, pb, sched(n), toB);
    if !Ends(states(n), toB) {
      KeptForward(ka, kb, states(n), pa, pb, sched(n), toB);
    }
  }

  lemma EndingsAhead(ka: Keys, kb: Keys, states: nat -> System, pa: Plan, pb: Plan, sched: Schedule, toB: bool, n: nat)
    requires Follows(ka, kb, states, sched) && Kept(states(0), pa, pb, toB)
    ensures Ahead(Standings(states, pa, pb), Endings(states, toB), sched, n)
  {
    KeptForEver(ka, kb, states, pa, pb, sched, toB, n);
    KeptForEver(ka, kb, states, pa, pb, sched, toB, n + 1);
    EndingAhead(ka, kb, states, pa, pb, sched, toB, n);
  }

  lemma AllEnd(states: nat -> System, toB: bool, k: nat)
    requires forall n: nat :: k <= n ==> Endings(states, toB)(n)
    ensures forall n: nat :: k <= n ==> Ends(states(n), toB)
  {
    forall n: nat | k <= n
      ensures Ends(states(n), toB)
    {
      assert Endings(states, toB)(n);
    }
  }

  // Once a side has closed its connection, by a call or on a frame, the other comes to be ending too
  // under every fair schedule, and stays so.
  lemma CloseReached(ka: Keys, kb: Keys, states: nat -> System, pa: Plan, pb: Plan, sched: Schedule, toB: bool) returns (k: nat)
    requires Follows(ka, kb, states, sched) && Fair(sched) && Planned(states(0), pa, pb)
    requires EndOf(states(0), toB).x.e.ready == E.CLOSING
    ensures forall n: nat :: k <= n ==> Ends(states(n), toB)
  {
    ClosingHangs(states(0), pa, pb, toB);
    forall n: nat
      ensures Ahead(Standings(states, pa, pb), Endings(states, toB), sched, n)
    {
      EndingsAhead(ka, kb, states, pa, pb, sched, toB, n);
    }
    k := EventuallyForEver(Standings(states, pa, pb), Endings(states, toB), sched);
    AllEnd(states, toB, k);
  }

  lemma ClosingHangs(s: System, pa: Plan, pb: Plan, toB: bool)
    requires Inv(s, pa, pb) && EndOf(s, toB).x.e.ready == E.CLOSING
    ensures Hung(s, toB)
  {
  }

  // The step behind it: all that the closing side has queued accepted and arrived, nothing left to
  // take, the end of the dispatch ends the other connection.
  lemma CloseAnswered(keys: Keys, x: End, px: Plan, z: End, pz: Plan)
    requires Joined(x, px, z, pz) && CloseQueued(x.x) && x.x.e.tx == [] && x.out.got == x.out.sent
    requires CanMove(z, EndDispatch) && z.x.m.outcome == H.Opened
    ensures E.Ending(Moved(keys, z, EndDispatch).x.e.ready)
  {
    FlowTo(x, px, z, pz);
    assert x.out.sent[|x.out.got|..] == [];
    CloseAtHead(x.x.e, z.x.e);
  }
}
