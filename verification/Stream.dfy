// A stream of frames and the messages it carries: what _dispatchBinary in
// ext/easywsclient/easywsclient.cpp is to make of the bytes it is given.
module Stream {
  import opened Bytes
  import opened Frame

  // One call of receiveMessage.
  datatype Message = Message(payload: seq<byte>, isText: bool)

  predicate IsData(opcode: byte) {
    opcode == TEXT_FRAME || opcode == BINARY_FRAME || opcode == CONTINUATION
  }

  // Frames that are taken out of the stream; CLOSE and unknown opcodes stay at its head for good.
  predicate Passes(opcode: byte) {
    IsData(opcode) || opcode == PING || opcode == PONG
  }

  // The frames at the head of a stream, up to the first that is incomplete or does not pass.
  function Frames(d: seq<byte>): seq<Incoming>
    decreases |d|
  {
    match Parse(d)
    case Got(f) => ParseSize(d); if Passes(f.opcode) then [f] + Frames(d[f.size..]) else []
    case _ => []
  }

  // No frame up to there is beyond the model.
  predicate Sane(d: seq<byte>)
    decreases |d|
  {
    match Parse(d)
    case Got(f) => ParseSize(d); Passes(f.opcode) ==> Sane(d[f.size..])
    case More => true
    case Oversize => false
  }

  // A stream that consists of such frames and nothing else.
  predicate Whole(d: seq<byte>)
    decreases |d|
  {
    d == [] ||
    match Parse(d)
    case Got(f) => ParseSize(d); Passes(f.opcode) && Whole(d[f.size..])
    case _ => false
  }

  lemma {:induction false} FramesConcat(d: seq<byte>, tail: seq<byte>)
    requires Whole(d)
    ensures Frames(d + tail) == Frames(d) + Frames(tail)
    ensures Whole(tail) ==> Whole(d + tail)
    decreases |d|
  {
    if d == [] {
      assert d + tail == tail;
    } else {
      var f := Parse(d).frame;
      ParseSize(d);
      ParseStable(d, tail);
      assert (d + tail)[f.size..] == d[f.size..] + tail;
      FramesConcat(d[f.size..], tail);
      assert Frames(d + tail) == [f] + (Frames(d[f.size..]) + Frames(tail));
    }
  }

  // ---- Reassembly ----

  // The calls made for a sequence of frames when acc has been accumulated before it.
  function Messages(fs: seq<Incoming>, acc: seq<byte>): seq<Message> {
    if fs == [] then []
    else if !IsData(fs[0].opcode) then Messages(fs[1..], acc)
    else if fs[0].fin then [Message(acc + fs[0].payload, fs[0].opcode == TEXT_FRAME)] + Messages(fs[1..], [])
    else Messages(fs[1..], acc + fs[0].payload)
  }

  // What is left accumulated afterwards.
  function Pending(fs: seq<Incoming>, acc: seq<byte>): seq<byte> {
    if fs == [] then acc
    else if !IsData(fs[0].opcode) then Pending(fs[1..], acc)
    else if fs[0].fin then Pending(fs[1..], [])
    else Pending(fs[1..], acc + fs[0].payload)
  }

  lemma {:induction false} MessagesConcat(fs: seq<Incoming>, gs: seq<Incoming>, acc: seq<byte>)
    ensures Messages(fs + gs, acc) == Messages(fs, acc) + Messages(gs, Pending(fs, acc))
    ensures Pending(fs + gs, acc) == Pending(gs, Pending(fs, acc))
  {
    if fs == [] {
      assert fs + gs == gs;
    } else {
      assert (fs + gs)[1..] == fs[1..] + gs;
      MessagesConcat(fs[1..], gs, if !IsData(fs[0].opcode) then acc else if fs[0].fin then [] else acc + fs[0].payload);
    }
  }

  predicate EndsMessage(f: Incoming) {
    IsData(f.opcode) && f.fin
  }

  // The payloads of the data frames, joined; control frames do not count.
  function DataBytes(fs: seq<Incoming>): seq<byte> {
    if fs == [] then [] else (if IsData(fs[0].opcode) then fs[0].payload else []) + DataBytes(fs[1..])
  }

  lemma {:induction false} OpenFragments(mid: seq<Incoming>, acc: seq<byte>)
    requires forall i :: 0 <= i < |mid| ==> !EndsMessage(mid[i])
    ensures Messages(mid, acc) == [] && Pending(mid, acc) == acc + DataBytes(mid)
  {
    if mid == [] {
    } else if IsData(mid[0].opcode) {
      OpenFragments(mid[1..], acc + mid[0].payload);
      assert acc + (mid[0].payload + DataBytes(mid[1..])) == (acc + mid[0].payload) + DataBytes(mid[1..]);
    } else {
      OpenFragments(mid[1..], acc);
    }
  }

  lemma {:induction false} NothingPending(pre: seq<Incoming>, acc: seq<byte>)
    requires pre != [] && EndsMessage(pre[|pre| - 1])
    ensures Pending(pre, acc) == []
  {
    var n := |pre| - 1;
    assert pre == pre[..n] + [pre[n]];
    MessagesConcat(pre[..n], [pre[n]], acc);
  }

  // Each frame that ends a message makes one call, with everything since the one before it.
  lemma {:induction false} Reassembly(pre: seq<Incoming>, mid: seq<Incoming>, last: Incoming)
    requires pre == [] || EndsMessage(pre[|pre| - 1])
    requires forall i :: 0 <= i < |mid| ==> !EndsMessage(mid[i])
    requires EndsMessage(last)
    ensures Messages(pre + mid + [last], []) ==
            Messages(pre, []) + [Message(DataBytes(mid) + last.payload, last.opcode == TEXT_FRAME)]
    ensures Messages(pre + mid, []) == Messages(pre, [])
  {
    if pre != [] {
      NothingPending(pre, []);
    }
    OpenFragments(mid, []);
    MessagesConcat(pre, mid, []);
    MessagesConcat(pre + mid, [last], []);
    assert [] + DataBytes(mid) == DataBytes(mid);
  }

  function CountEnds(fs: seq<Incoming>): nat {
    if fs == [] then 0 else (if EndsMessage(fs[0]) then 1 else 0) + CountEnds(fs[1..])
  }

  lemma {:induction false} OneCallPerEnd(fs: seq<Incoming>, acc: seq<byte>)
    ensures |Messages(fs, acc)| == CountEnds(fs)
  {
    if fs != [] {
      OneCallPerEnd(fs[1..], if !IsData(fs[0].opcode) then acc else if fs[0].fin then [] else acc + fs[0].payload);
    }
  }

  // The data frames alone.
  function DataFrames(fs: seq<Incoming>): seq<Incoming> {
    if fs == [] then [] else (if IsData(fs[0].opcode) then [fs[0]] else []) + DataFrames(fs[1..])
  }

  // Control frames make no difference, wherever they stand.
  lemma {:induction false} ControlFramesApart(fs: seq<Incoming>, acc: seq<byte>)
    ensures Messages(fs, acc) == Messages(DataFrames(fs), acc)
    ensures Pending(fs, acc) == Pending(DataFrames(fs), acc)
  {
    if fs != [] {
      var rest := DataFrames(fs[1..]);
      if IsData(fs[0].opcode) {
        assert DataFrames(fs)[1..] == rest;
        ControlFramesApart(fs[1..], if fs[0].fin then [] else acc + fs[0].payload);
      } else {
        assert DataFrames(fs) == rest;
        ControlFramesApart(fs[1..], acc);
      }
    }
  }

  // A message in fragments as section 5.4 of RFC 6455 lays it out.
  predicate Fragments(fs: seq<Incoming>) {
    && fs != []
    && (fs[0].opcode == TEXT_FRAME || fs[0].opcode == BINARY_FRAME)
    && (forall i :: 1 <= i < |fs| ==> fs[i].opcode == CONTINUATION)
    && (forall i :: 0 <= i < |fs| ==> fs[i].fin == (i == |fs| - 1))
  }

  // The same with control frames injected anywhere, which that section allows.
  predicate InjectedFragments(fs: seq<Incoming>) {
    && (forall i :: 0 <= i < |fs| ==> Passes(fs[i].opcode))
    && Fragments(DataFrames(fs))
  }

  lemma {:induction false} LoneFragments(fs: seq<Incoming>)
    requires Fragments(fs)
    ensures Messages(fs, []) == [Message(DataBytes(fs[..|fs| - 1]) + fs[|fs| - 1].payload, |fs| == 1 && fs[0].opcode == TEXT_FRAME)]
  {
    var n := |fs| - 1;
    assert fs == [] + fs[..n] + [fs[n]];
    Reassembly([], fs[..n], fs[n]);
  }

  // The source goes by the last data frame: the reported kind is the first one's exactly when
  // there is only one data frame or the message is not text.
  lemma {:induction false} KindOfFragments(fs: seq<Incoming>)
    requires InjectedFragments(fs)
    ensures |Messages(fs, [])| == 1
    ensures var ds := DataFrames(fs);
            Messages(fs, [])[0].isText == (ds[0].opcode == TEXT_FRAME) <==> |ds| == 1 || ds[0].opcode != TEXT_FRAME
  {
    ControlFramesApart(fs, []);
    LoneFragments(DataFrames(fs));
  }

  // A text message in two fragments, with a PING between them, is reported as binary.
  lemma FragmentedTextReportedBinary()
    ensures var fs := [Incoming(false, TEXT_FRAME, false, [0x68], 3), Incoming(true, PING, false, [], 2),
                       Incoming(true, CONTINUATION, false, [0x69], 3)];
            InjectedFragments(fs) && Messages(fs, []) == [Message([0x68, 0x69], false)]
  {
    var a := Incoming(false, TEXT_FRAME, false, [0x68], 3);
    var p := Incoming(true, PING, false, [], 2);
    var b := Incoming(true, CONTINUATION, false, [0x69], 3);
    ThreeFrames(a, p, b);
    ControlFramesApart([a, p, b], []);
    LoneFragments([a, b]);
    assert [a, b][..1] == [a];
    assert DataBytes([a]) == [0x68] + DataBytes([a][1..]) == [0x68];
    assert [0x68 as byte] + [0x69] == [0x68, 0x69];
  }

  lemma {:induction false} ThreeFrames(a: Incoming, p: Incoming, b: Incoming)
    requires IsData(a.opcode) && !IsData(p.opcode) && IsData(b.opcode)
    ensures DataFrames([a, p, b]) == [a, b]
  {
    assert [a, p, b][1..] == [p, b] && [p, b][1..] == [b] && [b][1..] == [];
    assert DataFrames([b]) == [b] && DataFrames([p, b]) == [b];
  }

  // The payloads of the PINGs.
  function Pings(fs: seq<Incoming>): seq<seq<byte>> {
    if fs == [] then [] else (if fs[0].opcode == PING then [fs[0].payload] else []) + Pings(fs[1..])
  }

  lemma {:induction false} PingsConcat(fs: seq<Incoming>, gs: seq<Incoming>)
    ensures Pings(fs + gs) == Pings(fs) + Pings(gs)
  {
    if fs == [] {
      assert fs + gs == gs;
    } else {
      assert (fs + gs)[1..] == fs[1..] + gs;
      PingsConcat(fs[1..], gs);
    }
  }
}
