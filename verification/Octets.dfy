// What the opcodes, lengths and limits come to on the wire, octet by octet: the constants and branches
// of ext/easywsclient/easywsclient.cpp, and section 5 of RFC 6455, in plain numbers.
module Octets {
  import opened Bytes
  import opened Frame
  import opened Stream
  import E = Endpoint
  import FastXor

  type Keys = nat -> Key

  // ---- Which frames are taken ----

  // The last four bits of the first octet.
  function Nibble(d: seq<byte>): byte
    requires d != []
  {
    d[0] & 0x0f
  }

  predicate DataNibble(b: byte) {
    b == 0 || b == 1 || b == 2
  }

  predicate TakenNibble(b: byte) {
    b == 0 || b == 1 || b == 2 || b == 9 || b == 10
  }

  lemma OpcodesTaken(b: byte)
    ensures IsData(b) == DataNibble(b) && Passes(b) == TakenNibble(b)
  {
  }

  lemma HeadOpcode(d: seq<byte>)
    requires Parse(d).Got?
    ensures d != [] && Parse(d).frame.opcode == Nibble(d)
    ensures Parse(d).frame.fin == (d[0] & 0x80 != 0)
  {
    HighBit(d[0]);
  }

  lemma HighBit(b: byte)
    ensures (b & 0x80 == 0x80) == (b & 0x80 != 0)
  {
  }

  lemma {:induction false} DispatchShrinks(keys: Keys, e: E.Endpoint)
    ensures |E.Dispatch(keys, e).rx| <= |e.rx|
    decreases |e.rx|
  {
    match Parse(e.rx)
    case Got(f) =>
      ParseSize(e.rx);
      if Passes(f.opcode) {
        DispatchShrinks(keys, E.Consume(keys, e, f));
      }
    case _ =>
  }

  // A complete frame at the head of the receive buffer is consumed if and only if its opcode is one
  // of 0, 1, 2, 9 and 10; any other stays where it is and the connection is then ending.
  lemma {:induction false} HeadDecides(keys: Keys, e: E.Endpoint)
    requires Parse(e.rx).Got?
    ensures e.rx != []
    ensures var g := E.Dispatch(keys, e);
            if TakenNibble(Nibble(e.rx)) then |g.rx| < |e.rx|
            else g.rx == e.rx && g.delivered == e.delivered && (g.ready == E.CLOSING || g.ready == E.CLOSED)
  {
    var f := Parse(e.rx).frame;
    ParseSize(e.rx);
    HeadOpcode(e.rx);
    OpcodesTaken(f.opcode);
    if TakenNibble(Nibble(e.rx)) {
      DispatchShrinks(keys, E.Consume(keys, e, f));
    }
  }

  // close puts its six octets behind what waits, once.
  lemma CloseOctets(e: E.Endpoint)
    ensures var g := E.CloseConnection(e);
            if e.ready == E.CLOSING || e.ready == E.CLOSED then g == e
            else g.ready == E.CLOSING && g.tx == e.tx + [0x88, 0x80, 0x00, 0x00, 0x00, 0x00] && g.rx == e.rx
  {
    assert FastXor.Mask([], [0, 0, 0, 0]) == [];
    assert Encode(E.CLOSE_FRAME) == [0x88, 0x80, 0x00, 0x00, 0x00, 0x00];
  }

  // ---- Messages ----

  // A FIN data frame makes one call with what has been accumulated and its own payload, as text
  // exactly for opcode 1; any other data frame is accumulated.
  lemma OneCall(keys: Keys, e: E.Endpoint, f: Incoming)
    requires Parse(e.rx) == Got(f) && DataNibble(Nibble(e.rx))
    ensures E.Sendable(PONG, f.payload) && f.size <= |e.rx|
    ensures var g := E.Consume(keys, e, f);
            && g.rx == e.rx[f.size..] && g.tx == e.tx && g.queued == e.queued && g.ready == e.ready
            && (if e.rx[0] & 0x80 != 0
                then g.delivered == e.delivered + [Message(e.acc + f.payload, Nibble(e.rx) == 1)] && g.acc == []
                else g.delivered == e.delivered && g.acc == e.acc + f.payload)
  {
    ParseSize(e.rx);
    HeadOpcode(e.rx);
    assert [] + f.payload == f.payload;
  }

  // Octet by octet: a text, a binary message, and a last fragment.
  lemma FirstOctets()
    ensures forall d: seq<byte> :: Parse(d).Got? && d[0] == 0x81 ==> Parse(d).frame.fin && Parse(d).frame.opcode == 1
    ensures forall d: seq<byte> :: Parse(d).Got? && d[0] == 0x82 ==> Parse(d).frame.fin && Parse(d).frame.opcode == 2
    ensures forall d: seq<byte> :: Parse(d).Got? && d[0] == 0x80 ==> Parse(d).frame.fin && Parse(d).frame.opcode == 0
    ensures forall d: seq<byte> :: Parse(d).Got? && d[0] == 0x01 ==> !Parse(d).frame.fin && Parse(d).frame.opcode == 1
  {
    forall d: seq<byte> | Parse(d).Got?
      ensures Parse(d).frame.opcode == Nibble(d) && Parse(d).frame.fin == (d[0] & 0x80 != 0)
    {
      HeadOpcode(d);
    }
  }

  // What the calls put on the wire begins with 0x81, 0x82, 0x89, and the answer to a PING with 0x8A.
  lemma SentOctets(payload: seq<byte>, useMask: bool, key: Key)
    requires |payload| + MAX_HEADER < U32
    ensures Encode(Outgoing(TEXT_FRAME, payload, useMask, key))[0] == 0x81
    ensures Encode(Outgoing(BINARY_FRAME, payload, useMask, key))[0] == 0x82
    ensures Encode(Outgoing(PING, payload, useMask, key))[0] == 0x89
    ensures Encode(Outgoing(PONG, payload, useMask, key))[0] == 0x8A
    ensures Encode(Outgoing(CLOSE, payload, useMask, key))[0] == 0x88
  {
  }

  // A frame with first octet 0x89 on an open connection is answered by one with first octet 0x8A and
  // the same payload; its own octets are gone.
  lemma PingOctets(keys: Keys, e: E.Endpoint)
    requires Parse(e.rx).Got? && Nibble(e.rx) == 9 && (e.ready == E.OPEN || e.ready == E.CONNECTING)
    ensures var f := Parse(e.rx).frame;
            && E.Sendable(PONG, f.payload) && f.size <= |e.rx|
            && var g := E.Consume(keys, e, f);
               && |g.queued| == |e.queued| + 1
               && var o := g.queued[|e.queued|];
                  && o.Valid() && o.payload == f.payload && Encode(o)[0] == 0x8A && g.tx == e.tx + Encode(o)
                  && g.rx == e.rx[f.size..] && g.delivered == e.delivered
  {
    ParseSize(e.rx);
    HeadOpcode(e.rx);
    SentOctets(Parse(e.rx).frame.payload, e.useMask, keys(e.draws));
  }

  // ---- The examples of section 5.7 of RFC 6455 ----

  lemma HelloText()
    ensures Parse([0x81, 0x05, 0x48, 0x65, 0x6c, 0x6c, 0x6f])
         == Got(Incoming(true, 1, false, [0x48, 0x65, 0x6c, 0x6c, 0x6f], 7))
  {
    var d: seq<byte> := [0x81, 0x05, 0x48, 0x65, 0x6c, 0x6c, 0x6f];
    assert d[2..7] == [0x48, 0x65, 0x6c, 0x6c, 0x6f];
  }

  lemma HelloMasked()
    ensures Parse([0x81, 0x85, 0x37, 0xfa, 0x21, 0x3d, 0x7f, 0x9f, 0x4d, 0x51, 0x58])
         == Got(Incoming(true, 1, true, [0x48, 0x65, 0x6c, 0x6c, 0x6f], 11))
  {
    var d: seq<byte> := [0x81, 0x85, 0x37, 0xfa, 0x21, 0x3d, 0x7f, 0x9f, 0x4d, 0x51, 0x58];
    assert d[2..6] == [0x37, 0xfa, 0x21, 0x3d] && d[6..11] == [0x7f, 0x9f, 0x4d, 0x51, 0x58];
    HelloUnmasked();
  }

  lemma HelloUnmasked()
    ensures FastXor.Mask([0x7f, 0x9f, 0x4d, 0x51, 0x58], [0x37, 0xfa, 0x21, 0x3d]) == [0x48, 0x65, 0x6c, 0x6c, 0x6f]
  {
    var s: seq<byte> := [0x7f, 0x9f, 0x4d, 0x51, 0x58];
    var key: Key := [0x37, 0xfa, 0x21, 0x3d];
    var r := FastXor.Mask(s, key);
    FastXor.MaskAt(s, key, 0);
    FastXor.MaskAt(s, key, 1);
    FastXor.MaskAt(s, key, 2);
    FastXor.MaskAt(s, key, 3);
    FastXor.MaskAt(s, key, 4);
    assert r == [r[0], r[1], r[2], r[3], r[4]];
  }

  lemma HelloFragments()
    ensures Parse([0x01, 0x03, 0x48, 0x65, 0x6c]) == Got(Incoming(false, 1, false, [0x48, 0x65, 0x6c], 5))
    ensures Parse([0x80, 0x02, 0x6c, 0x6f]) == Got(Incoming(true, 0, false, [0x6c, 0x6f], 4))
  {
    var d: seq<byte> := [0x01, 0x03, 0x48, 0x65, 0x6c];
    var e: seq<byte> := [0x80, 0x02, 0x6c, 0x6f];
    assert d[2..5] == [0x48, 0x65, 0x6c] && e[2..4] == [0x6c, 0x6f];
  }

  lemma HelloPing()
    ensures Parse([0x89, 0x05, 0x48, 0x65, 0x6c, 0x6c, 0x6f])
         == Got(Incoming(true, 9, false, [0x48, 0x65, 0x6c, 0x6c, 0x6f], 7))
  {
    var d: seq<byte> := [0x89, 0x05, 0x48, 0x65, 0x6c, 0x6c, 0x6f];
    assert d[2..7] == [0x48, 0x65, 0x6c, 0x6c, 0x6f];
  }

  lemma HelloDelivered(keys: Keys, useMask: bool)
    ensures var e := E.Fresh(useMask, E.OPEN).(rx := [0x81, 0x05, 0x48, 0x65, 0x6c, 0x6c, 0x6f]);
            && E.Dispatch(keys, e).delivered == [Message([0x48, 0x65, 0x6c, 0x6c, 0x6f], true)]
            && E.Dispatch(keys, e).rx == []
  {
    HelloText();
    var e := E.Fresh(useMask, E.OPEN).(rx := [0x81, 0x05, 0x48, 0x65, 0x6c, 0x6c, 0x6f]);
    var f := Parse(e.rx).frame;
    var g := E.Consume(keys, e, f);
    assert g.rx == [];
    assert E.Dispatch(keys, g) == g;
  }

  // A message sent puts one frame behind what waits, with the next key, unless the connection is ending.
  lemma SendExactly(keys: Keys, e: E.Endpoint, opcode: byte, payload: seq<byte>)
    requires opcode < 16 && |payload| + 14 < 0x1_0000_0000
    ensures var g := E.SendData(keys, e, opcode, payload); var o := Outgoing(opcode, payload, e.useMask, keys(e.draws));
            && g.draws == e.draws + 1 && g.ready == e.ready && g.rx == e.rx && g.delivered == e.delivered
            && (if e.ready == E.CLOSING || e.ready == E.CLOSED then g.tx == e.tx && g.queued == e.queued
                else g.tx == e.tx + Encode(o) && g.queued == e.queued + [o])
  {
  }

  // ---- The edge of the model ----

  // A frame is beyond it exactly when its whole header is there, the length is in eight octets, and
  // with the longest header it does not fit in 32 bits.
  lemma OversizeExactly(d: seq<byte>)
    ensures Parse(d) == Oversize <==>
      && |d| >= 10 && Val(d[1] & 0x7f) == 127 && (d[1] & 0x80 == 0x80 ==> |d| >= 14)
      && EightJoined(d) + 14 >= 0x1_0000_0000
  {
    if |d| >= 2 {
      SecondOctet(d[1]);
      if |d| >= 4 {
        TwoOctets(d[2..4]);
      }
      if |d| >= 10 {
        ReadEight(d);
      }
    }
  }

  // Bytes are sane exactly when no dispatch of them comes to such a frame.
  lemma {:induction false} SaneExactly(keys: Keys, e: E.Endpoint)
    ensures Sane(e.rx) <==> Parse(E.Dispatch(keys, e).rx) != Oversize
    decreases |e.rx|
  {
    match Parse(e.rx)
    case Got(f) =>
      ParseSize(e.rx);
      if Passes(f.opcode) {
        SaneExactly(keys, E.Consume(keys, e, f));
      }
    case _ =>
  }

  // A dispatch meets no refusal as long as no frame is beyond the model and the three buffers
  // together hold no more than this.
  lemma BearableExactly(keys: Keys, e: E.Endpoint)
    ensures E.Bearable(e) <==>
      && Parse(E.Dispatch(keys, e).rx) != Oversize
      && 2 * |e.tx| + 2 * |e.acc| + 16 * |e.rx| + 98 <= 536870912
  {
    SaneExactly(keys, e);
  }

  // A frame as a peer may lay it out is sane with what follows it.
  lemma SaneWire(w: Wire, tail: seq<byte>)
    requires w.Valid()
    ensures TakenNibble(w.first & 0x0f) ==> (Sane(Octets(w) + tail) <==> Sane(tail))
    ensures !TakenNibble(w.first & 0x0f) ==> Sane(Octets(w) + tail)
  {
    var d := Octets(w) + tail;
    WireRoundTrip(w, tail);
    ParseSize(d);
    OpcodesTaken(w.first & 0x0f);
    assert d[|Octets(w)|..] == tail;
  }

  // Everything an endpoint queues is sane, cut off anywhere.
  lemma {:induction false} SaneQueue(os: seq<Outgoing>, rx: seq<byte>, rest: seq<byte>)
    requires E.AllValid(os) && E.EncodeAll(os) == rx + rest
    ensures Sane(rx)
    decreases |os|
  {
    if rx != [] {
      E.EncodeHead(os);
      var first := Encode(os[0]);
      EncodeIsWire(os[0]);
      if |rx| < |first| {
        assert rx == first[..|rx|] by {
          assert (rx + rest)[..|rx|] == (first + E.EncodeAll(os[1..]))[..|rx|];
        }
        PrefixIncomplete(os[0], |rx|);
      } else {
        var tail := rx[|first|..];
        assert rx == first + tail && E.EncodeAll(os[1..]) == tail + rest by {
          assert (rx + rest)[..|first|] == first && (rx + rest)[|first|..] == E.EncodeAll(os[1..]);
        }
        SaneQueue(os[1..], tail, rest);
        SaneWire(AsWire(os[0]), tail);
      }
    }
  }

  // ---- The constants ----

  lemma Constants()
    ensures CONTINUATION == 0 && TEXT_FRAME == 1 && BINARY_FRAME == 2 && CLOSE == 8 && PING == 9 && PONG == 10
    ensures MAX_HEADER == 14 && U32 == 4294967296 && E.MAX_READ == 4096 && E.MAX_BUFFER == 536870912
  {
  }
}
