// WebSocketImpl of ext/easywsclient/easywsclient.cpp: the buffers it works on in place. Its view
// is an endpoint, and every call is a run of the transition system of Endpoint.dfy.
module WebSocket {
  import opened Bytes
  import opened Frame
  import opened Stream
  import FastXor
  import E = Endpoint
  import H = Handshake
  import SimpleBuffer
  import Socket
  import Connector

  const DEFAULT_BUFFER_SIZE: nat := 1024 * 16
  const MAXIMUM_BUFFER_SIZE: nat := E.MAX_BUFFER

  lemma Slice(mem: seq<byte>, lo: nat, hi: nat, a: nat, b: nat)
    requires lo <= hi <= |mem| && a <= b <= hi - lo
    ensures mem[lo..hi][a..b] == mem[lo + a..lo + b]
  {
    forall i | 0 <= i < b - a
      ensures mem[lo..hi][a..b][i] == mem[lo + a..lo + b][i]
    {
    }
  }

  // Masking the tail of a window in place.
  lemma {:induction false} MaskTail(mem: seq<byte>, lo: nat, hi: nat, front: seq<byte>, tail: seq<byte>, key: Key)
    requires lo <= hi <= |mem| && mem[lo..hi] == front + tail
    ensures FastXor.MaskRange(mem, hi - |tail|, |tail|, key)[lo..hi] == front + FastXor.Mask(tail, key)
  {
    var at := hi - |tail|;
    SplitWindow(mem, lo, hi, front, tail);
    FastXor.MaskRangeSplice(mem, at, |tail|, key);
    SpliceJoins(mem, at, FastXor.Mask(tail, key), lo);
  }

  lemma SplitWindow(mem: seq<byte>, lo: nat, hi: nat, front: seq<byte>, tail: seq<byte>)
    requires lo <= hi <= |mem| && mem[lo..hi] == front + tail
    ensures var at := hi - |tail|; lo <= at && mem[lo..at] == front && mem[at..at + |tail|] == tail
  {
    Slice(mem, lo, hi, 0, |front|);
    Slice(mem, lo, hi, |front|, |front| + |tail|);
  }

  // Masking a part of a buffer in place.
  lemma {:induction false} MaskInside(mem: seq<byte>, at: nat, n: nat, hi: nat, key: Key)
    requires at + n <= hi <= |mem|
    ensures var t := FastXor.MaskRange(mem, at, n, key);
            t[at..at + n] == FastXor.Mask(mem[at..at + n], key) && t[at + n..hi] == mem[at + n..hi]
  {
    FastXor.MaskRangeSplice(mem, at, n, key);
    SpliceInside(mem, at, FastXor.Mask(mem[at..at + n], key), hi);
  }

  lemma {:induction false} MaskedBody(mem: seq<byte>, lo: nat, hi: nat, h: nat, n: nat, key: Key)
    requires lo + h + n <= hi <= |mem|
    ensures FastXor.MaskRange(mem, lo + h, n, key)[lo + h..lo + h + n] == FastXor.Mask(mem[lo..hi][h..h + n], key)
  {
    Slice(mem, lo, hi, h, h + n);
    MaskInside(mem, lo + h, n, hi, key);
  }

  lemma {:induction false} MaskedRest(mem: seq<byte>, lo: nat, hi: nat, h: nat, n: nat, key: Key)
    requires lo + h + n <= hi <= |mem|
    ensures FastXor.MaskRange(mem, lo + h, n, key)[lo..hi][h + n..] == mem[lo..hi][h + n..]
  {
    MaskInside(mem, lo + h, n, hi, key);
    SameRest(mem, FastXor.MaskRange(mem, lo + h, n, key), lo, hi, h + n);
  }

  // The same seen through a window, or nothing done.
  lemma {:induction false} UnmaskWindow(mem: seq<byte>, lo: nat, hi: nat, h: nat, n: nat, masked: bool, key: Key)
    requires lo + h + n <= hi <= |mem|
    ensures var t := if masked then FastXor.MaskRange(mem, lo + h, n, key) else mem;
            var body := mem[lo..hi][h..h + n];
            && t[lo + h..lo + h + n] == (if masked then FastXor.Mask(body, key) else body)
            && t[lo..hi][h + n..] == mem[lo..hi][h + n..]
  {
    if masked {
      MaskedBody(mem, lo, hi, h, n, key);
      MaskedRest(mem, lo, hi, h, n, key);
    } else {
      Slice(mem, lo, hi, h, h + n);
    }
  }

  lemma SameRest(mem: seq<byte>, t: seq<byte>, lo: nat, hi: nat, k: nat)
    requires lo + k <= hi <= |mem| == |t| && t[lo + k..hi] == mem[lo + k..hi]
    ensures t[lo..hi][k..] == mem[lo..hi][k..]
  {
    Slice(mem, lo, hi, k, hi - lo);
    Slice(t, lo, hi, k, hi - lo);
  }

  lemma SpliceInside(mem: seq<byte>, at: nat, part: seq<byte>, hi: nat)
    requires at + |part| <= hi <= |mem|
    ensures Splice(mem, at, part)[at..at + |part|] == part
    ensures Splice(mem, at, part)[at + |part|..hi] == mem[at + |part|..hi]
  {
  }

  // Acting on a frame once its payload is unmasked in place, and then dropping it.
  lemma {:induction false} TakenData(keys: nat -> Key, e: E.Endpoint, rx: seq<byte>, f: Incoming)
    requires E.Sendable(PONG, f.payload) && f.size <= |e.rx| && IsData(f.opcode)
    ensures E.Consume(keys, e, f)
         == E.Deliver(e.(rx := rx), Incoming(f.fin, f.opcode, false, f.payload, 0)).(rx := e.rx[f.size..])
  {
  }

  lemma {:induction false} TakenPing(keys: nat -> Key, e: E.Endpoint, rx: seq<byte>, f: Incoming)
    requires E.Sendable(PONG, f.payload) && f.size <= |e.rx| && f.opcode == PING
    ensures E.Consume(keys, e, f) == E.SendData(keys, e.(rx := rx), PONG, f.payload).(rx := e.rx[f.size..])
  {
  }

  // The receive buffer takes another read unless this much waits in it.
  const PLENTY: nat := 0x1000_0000 - 3 * 4096

  // In plain numbers.
  lemma Limits()
    ensures DEFAULT_BUFFER_SIZE == 16384 && MAXIMUM_BUFFER_SIZE == 536870912 && PLENTY == 268423168
  {
  }

  lemma NoRoomToRead(startLoc: nat, endLoc: nat, maxLen: nat)
    requires startLoc <= endLoc <= maxLen
    requires !SimpleBuffer.Accepts(startLoc, endLoc, maxLen, MAXIMUM_BUFFER_SIZE, E.MAX_READ)
    ensures PLENTY < endLoc - startLoc
  {
  }

  // An append is refused only when this much has come together.
  lemma Refused(startLoc: nat, endLoc: nat, maxLen: nat, n: nat)
    requires startLoc <= endLoc <= maxLen
    requires !SimpleBuffer.Accepts(startLoc, endLoc, maxLen, MAXIMUM_BUFFER_SIZE, n)
    ensures MAXIMUM_BUFFER_SIZE < 2 * (endLoc - startLoc) + 5 * n
  {
  }

  // The transmit buffer takes a header and then a payload of these sizes.
  predicate TakesBoth(g: SimpleBuffer.Extent, header: nat, payload: nat)
    requires g.startLoc <= g.endLoc
  {
    SimpleBuffer.Takes(g, MAXIMUM_BUFFER_SIZE, header) &&
    SimpleBuffer.Takes(SimpleBuffer.Grown(g, header), MAXIMUM_BUFFER_SIZE, payload)
  }

  // What the end of the handshake is to the connection.
  function Conclusion(made: bool): E.Event {
    if made then E.Connected else E.Failed
  }

  // What has been accumulated is reported.
  function Reported(e: E.Endpoint, isText: bool): E.Endpoint {
    e.(acc := [], delivered := e.delivered + (if e.acc == [] then [] else [Message(e.acc, isText)]))
  }

  class WebSocketImpl {
    const keys: nat -> Key        // the masking key of each draw
    const mUseMask: bool
    const mTransmitBuffer: SimpleBuffer.Buffer
    const mReceiveBuffer: SimpleBuffer.Buffer
    const mReceivedData: SimpleBuffer.Buffer
    var mReadyState: E.ReadyState
    var mDraws: nat
    ghost var queued: seq<Outgoing>
    ghost var accepted: seq<byte>
    ghost var arrived: seq<byte>
    ghost var delivered: seq<Message>

    constructor (keys: nat -> Key, useMask: bool)
      ensures Valid() && View() == E.Fresh(useMask, E.CONNECTING) && this.keys == keys
      ensures fresh(mTransmitBuffer) && fresh(mTransmitBuffer.mBuffer)
      ensures fresh(mReceiveBuffer) && fresh(mReceiveBuffer.mBuffer)
      ensures fresh(mReceivedData) && fresh(mReceivedData.mBuffer)
    {
      this.keys := keys;
      mUseMask := useMask;
      mTransmitBuffer := new SimpleBuffer.Buffer(DEFAULT_BUFFER_SIZE, MAXIMUM_BUFFER_SIZE);
      mReceivedData := new SimpleBuffer.Buffer(DEFAULT_BUFFER_SIZE, MAXIMUM_BUFFER_SIZE);
      mReceiveBuffer := new SimpleBuffer.Buffer(DEFAULT_BUFFER_SIZE, MAXIMUM_BUFFER_SIZE);
      mReadyState := E.CONNECTING;
      mDraws := 0;
      queued, accepted, arrived, delivered := [], [], [], [];
    }

    ghost predicate Valid()
      reads this, mTransmitBuffer, mReceiveBuffer, mReceivedData
    {
      && mTransmitBuffer.Valid() && mReceiveBuffer.Valid() && mReceivedData.Valid()
      && mTransmitBuffer.mMaxGrowSize == mReceiveBuffer.mMaxGrowSize == mReceivedData.mMaxGrowSize == MAXIMUM_BUFFER_SIZE
      && mTransmitBuffer != mReceiveBuffer && mTransmitBuffer != mReceivedData && mReceiveBuffer != mReceivedData
      && mTransmitBuffer.mBuffer != mReceiveBuffer.mBuffer
      && mTransmitBuffer.mBuffer != mReceivedData.mBuffer
      && mReceiveBuffer.mBuffer != mReceivedData.mBuffer
    }

    ghost function View(): E.Endpoint
      requires Valid()
      reads this, mTransmitBuffer, mTransmitBuffer.mBuffer, mReceiveBuffer, mReceiveBuffer.mBuffer,
        mReceivedData, mReceivedData.mBuffer
    {
      E.Endpoint(mUseMask, mReadyState, mDraws, mTransmitBuffer.Contents(), mReceiveBuffer.Contents(),
                 mReceivedData.Contents(), queued, accepted, arrived, delivered)
    }

    // The endpoint is where these events lead from v.
    ghost predicate Ran(v: E.Endpoint, log: seq<E.Event>)
      requires Valid()
      reads this, mTransmitBuffer, mTransmitBuffer.mBuffer, mReceiveBuffer, mReceiveBuffer.mBuffer,
        mReceivedData, mReceivedData.mBuffer
    {
      E.IsRun(keys, v, log) && View() == E.After(keys, v, log)
    }

    // ---- Sending ----

    // Fills in the header and returns its length.
    method FillHeader(header: array<byte>, opcode: byte, messageSize: nat, key: Key) returns (headerLen: nat)
      requires header.Length == MAX_HEADER && messageSize < U32
      modifies header
      ensures headerLen <= MAX_HEADER && header[..headerLen] == Header(opcode, messageSize, mUseMask, key)
    {
      header[0] := 0x80 | opcode;
      if messageSize < 126 {
        header[1] := ToByte(messageSize) | MaskBit(mUseMask);
        headerLen := 2;
      } else if messageSize < 65536 {
        header[1] := 126 | MaskBit(mUseMask);
        header[2], header[3] := ToByte(messageSize / 0x100 % 256), ToByte(messageSize % 256);
        BigEndianTwo(messageSize);
        headerLen := 4;
      } else {
        header[1] := 127 | MaskBit(mUseMask);
        FillEight(header, messageSize);
        headerLen := 10;
      }
      assert header[..headerLen] == LengthPart(opcode, messageSize, mUseMask);
      if mUseMask {
        ghost var l := header[..headerLen];
        CopyInto(header, headerLen, key);
        headerLen := headerLen + 4;
        assert header[..headerLen] == l + key;
      }
    }

    method FillEight(header: array<byte>, n: nat)
      requires header.Length == MAX_HEADER
      modifies header
      ensures header[0] == old(header[0]) && header[1] == old(header[1]) && header[2..10] == BigEndian(n, 8)
    {
      BigEndianEight(n);
      ghost var field := EightShifted(n);
      header[2] := ToByte(n / 0x100_0000_0000_0000 % 256);
      header[3] := ToByte(n / 0x1_0000_0000_0000 % 256);
      header[4] := ToByte(n / 0x100_0000_0000 % 256);
      header[5] := ToByte(n / 0x1_0000_0000 % 256);
      assert header[2..6] == field[..4];
      FillFour(header, n, field);
    }

    method FillFour(header: array<byte>, n: nat, ghost field: seq<byte>)
      requires header.Length == MAX_HEADER && |field| == 8 && field == EightShifted(n) && header[2..6] == field[..4]
      modifies header
      ensures header[0] == old(header[0]) && header[1] == old(header[1]) && header[2..10] == field
    {
      header[6] := ToByte(n / 0x100_0000 % 256);
      header[7] := ToByte(n / 0x1_0000 % 256);
      header[8] := ToByte(n / 0x100 % 256);
      header[9] := ToByte(n % 256);
      assert header[2..6] == field[..4] && header[6..10] == field[4..];
      assert header[2..10] == header[2..6] + header[6..10];
    }

    // False when the transmit buffer refuses to grow; the source goes on regardless.
    method SendData(opcode: byte, payload: seq<byte>) returns (ok: bool)
      requires Valid() && E.Sendable(opcode, payload)
      requires 2 * MAXIMUM_BUFFER_SIZE + |payload| < U32
      modifies this`mDraws, this`queued, mTransmitBuffer, mTransmitBuffer.mBuffer
      ensures Valid()
      ensures mTransmitBuffer.mBuffer == old(mTransmitBuffer.mBuffer) || fresh(mTransmitBuffer.mBuffer)
      ensures ok ==> View() == E.SendData(keys, old(View()), opcode, payload)
      ensures !ok ==> MAXIMUM_BUFFER_SIZE < 2 * |old(mTransmitBuffer.Contents())| + 5 * |payload| + 98
      ensures ok == (E.Ending(mReadyState) || TakesBoth(old(mTransmitBuffer.Place()), |Header(opcode, |payload|, mUseMask, keys(old(mDraws)))|, |payload|))
    {
      var key := keys(mDraws);
      mDraws := mDraws + 1;
      ok := true;
      if mReadyState == E.CLOSING || mReadyState == E.CLOSED {
        return;
      }
      ok := QueueFrame(Outgoing(opcode, payload, mUseMask, key), opcode, payload, key);
    }

    method QueueFrame(ghost o: Outgoing, opcode: byte, payload: seq<byte>, key: Key) returns (ok: bool)
      requires Valid() && E.Sendable(opcode, payload) && o == Outgoing(opcode, payload, mUseMask, key)
      requires 2 * MAXIMUM_BUFFER_SIZE + |payload| < U32
      modifies this`queued, mTransmitBuffer, mTransmitBuffer.mBuffer
      ensures Valid()
      ensures mTransmitBuffer.mBuffer == old(mTransmitBuffer.mBuffer) || fresh(mTransmitBuffer.mBuffer)
      ensures ok ==> View() == E.Queue(old(View()), o)
      ensures !ok ==> MAXIMUM_BUFFER_SIZE < 2 * |old(mTransmitBuffer.Contents())| + 5 * |payload| + 98
      ensures ok == TakesBoth(old(mTransmitBuffer.Place()), |Header(opcode, |payload|, mUseMask, key)|, |payload|)
    {
      ok := AppendFrame(o, opcode, payload, key);
      if ok {
        queued := queued + [o];
      }
    }

    // sendText, sendBinary and sendPing.
    method SendText(payload: seq<byte>) returns (ok: bool)
      requires Valid() && |payload| + 14 < 0x1_0000_0000 && 2 * MAXIMUM_BUFFER_SIZE + |payload| < U32
      modifies this`mDraws, this`queued, mTransmitBuffer, mTransmitBuffer.mBuffer
      ensures Valid()
      ensures mTransmitBuffer.mBuffer == old(mTransmitBuffer.mBuffer) || fresh(mTransmitBuffer.mBuffer)
      ensures ok ==> View() == E.SendData(keys, old(View()), 1, payload)
    {
      ok := SendData(TEXT_FRAME, payload);
    }

    method SendBinary(payload: seq<byte>) returns (ok: bool)
      requires Valid() && |payload| + 14 < 0x1_0000_0000 && 2 * MAXIMUM_BUFFER_SIZE + |payload| < U32
      modifies this`mDraws, this`queued, mTransmitBuffer, mTransmitBuffer.mBuffer
      ensures Valid()
      ensures mTransmitBuffer.mBuffer == old(mTransmitBuffer.mBuffer) || fresh(mTransmitBuffer.mBuffer)
      ensures ok ==> View() == E.SendData(keys, old(View()), 2, payload)
    {
      ok := SendData(BINARY_FRAME, payload);
    }

    method SendPing() returns (ok: bool)
      requires Valid()
      modifies this`mDraws, this`queued, mTransmitBuffer, mTransmitBuffer.mBuffer
      ensures Valid()
      ensures mTransmitBuffer.mBuffer == old(mTransmitBuffer.mBuffer) || fresh(mTransmitBuffer.mBuffer)
      ensures ok ==> View() == E.SendData(keys, old(View()), 9, [])
    {
      ok := SendData(PING, []);
    }

    // Appends header and payload, then masks the payload where it lies.
    method AppendFrame(ghost o: Outgoing, opcode: byte, payload: seq<byte>, key: Key) returns (ok: bool)
      requires Valid() && E.Sendable(opcode, payload) && o == Outgoing(opcode, payload, mUseMask, key)
      requires 2 * MAXIMUM_BUFFER_SIZE + |payload| < U32
      modifies mTransmitBuffer, mTransmitBuffer.mBuffer
      ensures Valid()
      ensures mTransmitBuffer.mBuffer == old(mTransmitBuffer.mBuffer) || fresh(mTransmitBuffer.mBuffer)
      ensures ok ==> mTransmitBuffer.Contents() == old(mTransmitBuffer.Contents()) + Encode(o)
      ensures !ok ==> MAXIMUM_BUFFER_SIZE < 2 * |old(mTransmitBuffer.Contents())| + 5 * |payload| + 98
      ensures ok == TakesBoth(old(mTransmitBuffer.Place()), |Header(opcode, |payload|, mUseMask, key)|, |payload|)
    {
      var header := new byte[MAX_HEADER];
      var headerLen := FillHeader(header, opcode, |payload|, key);
      ghost var was, h := mTransmitBuffer.Contents(), header[..headerLen];
      ok := AppendBoth(header[..headerLen], payload);
      if ok && mUseMask {
        MaskLast(was + h, payload, key);
      }
      Associative(was, h, if mUseMask then FastXor.Mask(payload, key) else payload);
    }

    method AppendTx(data: seq<byte>) returns (ok: bool)
      requires Valid() && 2 * MAXIMUM_BUFFER_SIZE + |data| < U32
      modifies mTransmitBuffer, mTransmitBuffer.mBuffer
      ensures Valid()
      ensures mTransmitBuffer.mBuffer == old(mTransmitBuffer.mBuffer) || fresh(mTransmitBuffer.mBuffer)
      ensures ok ==> mTransmitBuffer.Contents() == old(mTransmitBuffer.Contents()) + data
      ensures !ok ==> MAXIMUM_BUFFER_SIZE < 2 * |old(mTransmitBuffer.Contents())| + 5 * |data|
      ensures ok == SimpleBuffer.Takes(old(mTransmitBuffer.Place()), MAXIMUM_BUFFER_SIZE, |data|)
      ensures ok ==> mTransmitBuffer.Place() == SimpleBuffer.Grown(old(mTransmitBuffer.Place()), |data|)
      ensures !ok ==> mTransmitBuffer.Contents() == old(mTransmitBuffer.Contents())
    {
      var tx := mTransmitBuffer;
      ghost var startLoc, endLoc, maxLen := tx.mStartLoc, tx.mEndLoc, tx.mMaxLen;
      ok := tx.AddBuffer(SimpleBuffer.Some(data), |data|);
      if !ok {
        Refused(startLoc, endLoc, maxLen, |data|);
      }
    }

    method AppendBoth(header: seq<byte>, payload: seq<byte>) returns (ok: bool)
      requires Valid() && |header| <= MAX_HEADER
      requires 2 * MAXIMUM_BUFFER_SIZE + |payload| < U32
      modifies mTransmitBuffer, mTransmitBuffer.mBuffer
      ensures Valid()
      ensures mTransmitBuffer.mBuffer == old(mTransmitBuffer.mBuffer) || fresh(mTransmitBuffer.mBuffer)
      ensures ok ==> mTransmitBuffer.Contents() == old(mTransmitBuffer.Contents()) + header + payload
      ensures !ok ==> MAXIMUM_BUFFER_SIZE < 2 * |old(mTransmitBuffer.Contents())| + 5 * |payload| + 98
      ensures ok == TakesBoth(old(mTransmitBuffer.Place()), |header|, |payload|)
    {
      ok := AppendTx(header);
      if ok {
        ok := AppendTx(payload);
      }
    }

    method MaskLast(ghost front: seq<byte>, payload: seq<byte>, key: Key)
      requires Valid() && |payload| < U32 && mTransmitBuffer.Contents() == front + payload
      modifies mTransmitBuffer.mBuffer
      ensures mTransmitBuffer.Contents() == front + FastXor.Mask(payload, key)
    {
      var tx := mTransmitBuffer;
      var messageOffset := tx.GetSize() - |payload|;
      MaskTail(tx.mBuffer[..], tx.mStartLoc, tx.mEndLoc, front, payload, key);
      FastXor.FastXor(tx.mBuffer, tx.mAddress, tx.mStartLoc + messageOffset, |payload|, key);
    }

    // close.
    method Close() returns (ok: bool)
      requires Valid()
      modifies this`mReadyState, this`queued, mTransmitBuffer, mTransmitBuffer.mBuffer
      ensures Valid()
      ensures mTransmitBuffer.mBuffer == old(mTransmitBuffer.mBuffer) || fresh(mTransmitBuffer.mBuffer)
      ensures ok ==> View() == E.CloseConnection(old(View()))
      ensures !ok ==> MAXIMUM_BUFFER_SIZE < 2 * |old(mTransmitBuffer.Contents())| + 30
      ensures !ok ==> View() == old(View()).(ready := E.CLOSING)
    {
      ok := true;
      if mReadyState == E.CLOSING || mReadyState == E.CLOSED {
        return;
      }
      mReadyState := E.CLOSING;
      var closeFrame: seq<byte> := [0x88, 0x80, 0x00, 0x00, 0x00, 0x00];
      ok := AppendTx(closeFrame);
      if ok {
        CloseBytes();
        queued := queued + [E.CLOSE_FRAME];
      }
    }

    static lemma CloseBytes()
      ensures Encode(E.CLOSE_FRAME) == [0x88, 0x80, 0x00, 0x00, 0x00, 0x00]
    {
      assert FastXor.Mask([], [0, 0, 0, 0]) == [];
    }

    // ---- Receiving ----

    // Unmasks the payload where it lies in the receive buffer and returns it.
    method Unmask(headerSize: nat, n: nat, masked: bool, key: Key) returns (payload: seq<byte>)
      requires Valid() && headerSize + n <= mReceiveBuffer.GetSize()
      modifies mReceiveBuffer.mBuffer
      ensures payload == if masked then FastXor.Mask(old(mReceiveBuffer.Contents()[headerSize..headerSize + n]), key)
                         else old(mReceiveBuffer.Contents()[headerSize..headerSize + n])
      ensures mReceiveBuffer.Contents()[headerSize + n..] == old(mReceiveBuffer.Contents()[headerSize + n..])
      ensures |mReceiveBuffer.Contents()| == |old(mReceiveBuffer.Contents())|
    {
      var rx := mReceiveBuffer;
      var at := rx.mStartLoc + headerSize;
      UnmaskWindow(rx.mBuffer[..], rx.mStartLoc, rx.mEndLoc, headerSize, n, masked, key);
      if masked {
        FastXor.FastXor(rx.mBuffer, rx.mAddress, at, n, key);
      }
      payload := rx.mBuffer[at..at + n];
    }

    // A data frame with its payload unmasked.
    method Accumulate(fin: bool, opcode: byte, payload: seq<byte>) returns (ok: bool)
      requires Valid() && 2 * MAXIMUM_BUFFER_SIZE + |payload| < U32
      modifies this`delivered, mReceivedData, mReceivedData.mBuffer
      ensures Valid()
      ensures mReceivedData.mBuffer == old(mReceivedData.mBuffer) || fresh(mReceivedData.mBuffer)
      ensures ok ==> View() == E.Deliver(old(View()), Incoming(fin, opcode, false, payload, 0))
      ensures !ok ==> MAXIMUM_BUFFER_SIZE < 2 * |old(mReceivedData.Contents())| + 5 * |payload|
      ensures !ok ==> View() == (if fin then Reported(old(View()), opcode == TEXT_FRAME) else old(View()))
    {
      ok := true;
      if fin && mReceivedData.GetSize() == 0 {
        delivered := delivered + [Message(payload, opcode == TEXT_FRAME)];
      } else {
        ok := AppendFragment(payload);
        if fin {
          Report(opcode == TEXT_FRAME);
        }
      }
    }

    method AppendFragment(payload: seq<byte>) returns (ok: bool)
      requires Valid() && 2 * MAXIMUM_BUFFER_SIZE + |payload| < U32
      modifies mReceivedData, mReceivedData.mBuffer
      ensures Valid()
      ensures mReceivedData.mBuffer == old(mReceivedData.mBuffer) || fresh(mReceivedData.mBuffer)
      ensures View() == if ok then old(View()).(acc := old(View()).acc + payload) else old(View())
      ensures !ok ==> MAXIMUM_BUFFER_SIZE < 2 * |old(mReceivedData.Contents())| + 5 * |payload|
    {
      ghost var startLoc, endLoc, maxLen := mReceivedData.mStartLoc, mReceivedData.mEndLoc, mReceivedData.mMaxLen;
      ok := mReceivedData.AddBuffer(SimpleBuffer.Some(payload), |payload|);
      if !ok {
        Refused(startLoc, endLoc, maxLen, |payload|);
      }
    }

    // Reports what has been accumulated.
    method Report(isText: bool)
      requires Valid()
      modifies this`delivered, mReceivedData`mStartLoc, mReceivedData`mEndLoc
      ensures Valid() && View() == Reported(old(View()), isText)
    {
      if mReceivedData.GetSize() != 0 {
        delivered := delivered + [Message(mReceivedData.Contents(), isText)];
      }
      mReceivedData.Clear();
    }

    // Unmasks the frame at the head of the receive buffer where it lies.
    method UnmaskFrame(d: seq<byte>) returns (payload: seq<byte>)
      requires Valid() && d == mReceiveBuffer.Contents() && Parse(d).Got? && Parse(d).frame.size <= |d|
      modifies mReceiveBuffer.mBuffer
      ensures payload == Parse(d).frame.payload
      ensures |mReceiveBuffer.Contents()| == |d|
      ensures mReceiveBuffer.Contents()[Parse(d).frame.size..] == d[Parse(d).frame.size..]
    {
      payload := Unmask(HeaderSize(d), PayloadLen(d), Masked(d), FrameKey(d));
    }

    // The endpoint is as it was in v, but for the frame f at the head of the receive buffer,
    // whose payload has been unmasked there.
    ghost predicate Unmasked(v: E.Endpoint, f: Incoming)
      requires Valid()
      reads this, mTransmitBuffer, mTransmitBuffer.mBuffer, mReceiveBuffer, mReceiveBuffer.mBuffer,
        mReceivedData, mReceivedData.mBuffer
    {
      && E.Sendable(PONG, f.payload) && 2 <= f.size <= |v.rx|
      && View() == v.(rx := View().rx)
      && |View().rx| == |v.rx| && View().rx[f.size..] == v.rx[f.size..]
    }

    method TakeData(fin: bool, opcode: byte, payload: seq<byte>, frameSize: nat, ghost v: E.Endpoint, ghost f: Incoming)
      returns (ok: bool)
      requires Valid() && Unmasked(v, f) && IsData(f.opcode)
      requires f.fin == fin && f.opcode == opcode && f.payload == payload && f.size == frameSize
      requires 2 * MAXIMUM_BUFFER_SIZE + |payload| < U32
      modifies this`delivered, mReceiveBuffer`mStartLoc, mReceiveBuffer`mEndLoc, mReceivedData, mReceivedData.mBuffer
      ensures Valid()
      ensures mReceivedData.mBuffer == old(mReceivedData.mBuffer) || fresh(mReceivedData.mBuffer)
      ensures ok ==> View() == E.Consume(keys, v, f)
      ensures !ok ==> MAXIMUM_BUFFER_SIZE < 2 * |v.acc| + 5 * |payload|
    {
      TakenData(keys, v, View().rx, f);
      ok := Accumulate(fin, opcode, payload);
      if ok {
        mReceiveBuffer.Consume(frameSize);
      }
    }

    method TakePing(payload: seq<byte>, frameSize: nat, ghost v: E.Endpoint, ghost f: Incoming) returns (ok: bool)
      requires Valid() && Unmasked(v, f) && f.opcode == PING
      requires f.payload == payload && f.size == frameSize
      requires 2 * MAXIMUM_BUFFER_SIZE + |payload| < U32
      modifies this`mDraws, this`queued, mReceiveBuffer`mStartLoc, mReceiveBuffer`mEndLoc, mTransmitBuffer, mTransmitBuffer.mBuffer
      ensures Valid()
      ensures mTransmitBuffer.mBuffer == old(mTransmitBuffer.mBuffer) || fresh(mTransmitBuffer.mBuffer)
      ensures ok ==> View() == E.Consume(keys, v, f)
      ensures !ok ==> MAXIMUM_BUFFER_SIZE < 2 * |v.tx| + 5 * |payload| + 98
    {
      TakenPing(keys, v, View().rx, f);
      ok := SendData(PONG, payload);
      if ok {
        mReceiveBuffer.Consume(frameSize);
      }
    }

    // Acts on a frame that passes and consumes it.
    method TakeFrame(d: seq<byte>, frameSize: nat, ghost f: Incoming) returns (ok: bool)
      requires Valid() && d == mReceiveBuffer.Contents() && Parse(d) == Got(f)
      requires E.Sendable(PONG, f.payload) && |f.payload| + 2 <= f.size <= |d|
      requires Passes(f.opcode) && frameSize == f.size && Fin(d) == f.fin && Opcode(d) == f.opcode
      modifies this`mDraws, this`queued, this`delivered,
        mTransmitBuffer, mTransmitBuffer.mBuffer, mReceiveBuffer`mStartLoc, mReceiveBuffer`mEndLoc, mReceiveBuffer.mBuffer,
        mReceivedData, mReceivedData.mBuffer
      ensures Valid()
      ensures mTransmitBuffer.mBuffer == old(mTransmitBuffer.mBuffer) || fresh(mTransmitBuffer.mBuffer)
      ensures mReceivedData.mBuffer == old(mReceivedData.mBuffer) || fresh(mReceivedData.mBuffer)
      ensures ok ==> View() == E.Consume(keys, old(View()), f)
      ensures !ok ==> MAXIMUM_BUFFER_SIZE < E.Load(old(View()))
    {
      ghost var v := View();
      var opcode := Opcode(d);
      ok := true;
      if IsData(opcode) {
        var payload := UnmaskFrame(d);
        ok := TakeData(Fin(d), opcode, payload, frameSize, v, f);
      } else if opcode == PING {
        var payload := UnmaskFrame(d);
        ok := TakePing(payload, frameSize, v, f);
      } else {
        mReceiveBuffer.Consume(frameSize);
      }
    }

    // Acts on the complete frame at the head of the receive buffer.
    method ActOn(d: seq<byte>, frameSize: nat, ghost f: Incoming) returns (more: bool, ok: bool)
      requires Valid() && d == mReceiveBuffer.Contents() && Parse(d) == Got(f)
      requires E.Sendable(PONG, f.payload) && |f.payload| + 2 <= f.size <= |d|
      requires frameSize == f.size && Fin(d) == f.fin && Opcode(d) == f.opcode
      modifies this`mReadyState, this`mDraws, this`queued, this`delivered,
        mTransmitBuffer, mTransmitBuffer.mBuffer, mReceiveBuffer`mStartLoc, mReceiveBuffer`mEndLoc, mReceiveBuffer.mBuffer,
        mReceivedData, mReceivedData.mBuffer
      ensures Valid()
      ensures mTransmitBuffer.mBuffer == old(mTransmitBuffer.mBuffer) || fresh(mTransmitBuffer.mBuffer)
      ensures mReceivedData.mBuffer == old(mReceivedData.mBuffer) || fresh(mReceivedData.mBuffer)
      ensures more == Passes(f.opcode)
      ensures ok ==> View() == if more then E.Consume(keys, old(View()), f) else E.CloseConnection(old(View()))
      ensures !ok ==> MAXIMUM_BUFFER_SIZE < E.Load(old(View()))
    {
      more := Passes(Opcode(d));
      if more {
        ok := TakeFrame(d, frameSize, f);
      } else {
        ok := Close();
      }
    }

    // The length of the header, from its second octet.
    static method ReadHeaderSize(d: seq<byte>) returns (headerSize: nat)
      requires 2 <= |d|
      ensures headerSize == HeaderSize(d) && 2 <= headerSize
    {
      var n0 := Val(d[1] & 0x7f);
      headerSize := 2;
      if n0 == 126 {
        headerSize := headerSize + 2;
      }
      if n0 == 127 {
        headerSize := headerSize + 8;
      }
      if d[1] & 0x80 == 0x80 {
        headerSize := headerSize + 4;
      }
    }

    // The length of the payload, put together from the octets of its field.
    static method ReadLength(d: seq<byte>) returns (n: nat)
      requires 2 <= |d| && HeaderSize(d) <= |d|
      ensures n == PayloadLen(d)
    {
      n := Val(d[1] & 0x7f);
      if n == 126 {
        n := Val(d[2]) * 0x100 + Val(d[3]);
        ReadTwo(d);
      } else if n == 127 {
        n := Val(d[2]) * 0x100_0000_0000_0000 + Val(d[3]) * 0x1_0000_0000_0000 + Val(d[4]) * 0x100_0000_0000
             + Val(d[5]) * 0x1_0000_0000 + Val(d[6]) * 0x100_0000 + Val(d[7]) * 0x1_0000 + Val(d[8]) * 0x100 + Val(d[9]);
        ReadEight(d);
      } else {
        SevenBits(d[1]);
      }
    }

    static lemma SevenBits(b: byte)
      ensures Val(b & 0x7f) < 128
    {
      SecondOctet(b);
    }

    // One turn of the loop in _dispatchBinary: more says whether to go on. Not ok means that a
    // buffer refused to grow, or that the frame is beyond the model.
    method DispatchOne() returns (more: bool, ok: bool)
      requires Valid()
      modifies this`mReadyState, this`mDraws, this`queued, this`delivered,
        mTransmitBuffer, mTransmitBuffer.mBuffer, mReceiveBuffer`mStartLoc, mReceiveBuffer`mEndLoc, mReceiveBuffer.mBuffer,
        mReceivedData, mReceivedData.mBuffer
      ensures Valid()
      ensures mTransmitBuffer.mBuffer == old(mTransmitBuffer.mBuffer) || fresh(mTransmitBuffer.mBuffer)
      ensures mReceivedData.mBuffer == old(mReceivedData.mBuffer) || fresh(mReceivedData.mBuffer)
      ensures ok ==> E.Dispatch(keys, old(View())) == (if more then E.Dispatch(keys, View()) else View())
      ensures ok && more ==> |View().rx| < |old(View()).rx|
      ensures !ok ==> !E.Bearable(old(View()))
      ensures ok && more ==> (E.Bearable(old(View())) ==> E.Bearable(View()))
    {
      more, ok := false, true;
      var d := mReceiveBuffer.mBuffer[mReceiveBuffer.mStartLoc..mReceiveBuffer.mEndLoc];
      if |d| < 2 {
        return;
      }
      var headerSize := ReadHeaderSize(d);
      if |d| < headerSize {
        return;
      }
      var n := ReadLength(d);
      if U32 <= n + MAX_HEADER {
        ok := false;
        return;
      }
      var frameSize := headerSize + n;
      if |d| < frameSize {
        return;
      }
      ParseSize(d);
      ghost var v, f := View(), Parse(d).frame;
      more, ok := ActOn(d, frameSize, f);
      E.ConsumeLoad(keys, v, f);
    }

    // _dispatchBinary.
    method DispatchBinary() returns (ok: bool)
      requires Valid()
      modifies this`mReadyState, this`mDraws, this`queued, this`delivered,
        mTransmitBuffer, mTransmitBuffer.mBuffer, mReceiveBuffer`mStartLoc, mReceiveBuffer`mEndLoc, mReceiveBuffer.mBuffer,
        mReceivedData, mReceivedData.mBuffer
      ensures Valid()
      ensures mTransmitBuffer.mBuffer == old(mTransmitBuffer.mBuffer) || fresh(mTransmitBuffer.mBuffer)
      ensures mReceivedData.mBuffer == old(mReceivedData.mBuffer) || fresh(mReceivedData.mBuffer)
      ensures ok ==> View() == E.Dispatch(keys, old(View()))
      ensures !ok ==> !E.Bearable(old(View()))
    {
      ok := true;
      var more := true;
      while more && ok
        invariant Valid()
        invariant mTransmitBuffer.mBuffer == old(mTransmitBuffer.mBuffer) || fresh(mTransmitBuffer.mBuffer)
        invariant mReceivedData.mBuffer == old(mReceivedData.mBuffer) || fresh(mReceivedData.mBuffer)
        invariant !ok ==> !E.Bearable(old(View()))
        invariant ok && more && E.Bearable(old(View())) ==> E.Bearable(View())
        invariant ok ==> E.Dispatch(keys, old(View())) == if more then E.Dispatch(keys, View()) else View()
        decreases more && ok, mReceiveBuffer.GetSize()
      {
        more, ok := DispatchOne();
      }
    }

    // ---- Polling ----

    // Bytes that have been written behind the window become part of it.
    method TakeIn(ghost bytes: seq<byte>, n: nat)
      requires Valid() && mReceiveBuffer.mEndLoc + n <= mReceiveBuffer.mMaxLen && n <= E.MAX_READ
      requires bytes == mReceiveBuffer.mBuffer[mReceiveBuffer.mEndLoc..mReceiveBuffer.mEndLoc + n]
      modifies this`arrived, mReceiveBuffer, mReceiveBuffer.mBuffer
      ensures Valid() && mReceiveBuffer.mBuffer == old(mReceiveBuffer.mBuffer)
      ensures View() == E.Arrive(old(View()), bytes)
    {
      var _ := mReceiveBuffer.AddBuffer(SimpleBuffer.None, n);
      arrived := arrived + bytes;
    }

    // One receive into the free end of the buffer, which has room for it.
    method ReceiveBytes(socket: Socket.Wsocket) returns (ret: int, bytes: seq<byte>)
      requires Valid() && mReceiveBuffer.mEndLoc + E.MAX_READ <= mReceiveBuffer.mMaxLen
      modifies this`arrived, mReceiveBuffer, mReceiveBuffer.mBuffer, socket
      ensures Valid() && mReceiveBuffer.mBuffer == old(mReceiveBuffer.mBuffer)
      ensures socket.offered == old(socket.offered) && socket.taken == old(socket.taken)
      ensures socket.given == old(socket.given) + bytes && |bytes| == (if ret > 0 then ret else 0) <= E.MAX_READ
      ensures ret > 0 ==> |socket.mInbox| < |old(socket.mInbox)|
      ensures socket.readBlocked == (ret < 0 && socket.mWouldBlock) && socket.writeBlocked == old(socket.writeBlocked)
      ensures View() == if ret > 0 then E.Arrive(old(View()), bytes) else old(View())
    {
      var rx := mReceiveBuffer;
      ghost var was, given := rx.Contents(), |socket.given|;
      ret := socket.Receive(rx.mBuffer, rx.mEndLoc, E.MAX_READ);
      bytes := [];
      assert rx.Contents() == was;
      if ret > 0 {
        bytes := rx.mBuffer[rx.mEndLoc..rx.mEndLoc + ret];
        assert bytes == socket.given[given..];
        TakeIn(bytes, ret);
      } else {
        assert socket.given[..given] == socket.given;
      }
    }

    // The socket has given out.
    method Fail(socket: Socket.Wsocket)
      requires Valid() && mReadyState != E.CLOSED
      modifies this`mReadyState, socket`mClosed
      ensures Valid() && View() == E.Step(keys, old(View()), E.Failed) && socket.mClosed
    {
      socket.Close();
      mReadyState := E.CLOSED;
    }

    // One turn of the receive loop; failed and bytes say what came of it.
    method ReceiveOne(socket: Socket.Wsocket) returns (failed: bool, bytes: seq<byte>)
      requires Valid() && (mReadyState == E.OPEN || mReadyState == E.CLOSING)
      modifies this`mReadyState, this`arrived, mReceiveBuffer, mReceiveBuffer.mBuffer, socket
      ensures Valid()
      ensures mReceiveBuffer.mBuffer == old(mReceiveBuffer.mBuffer) || fresh(mReceiveBuffer.mBuffer)
      ensures socket.offered == old(socket.offered) && socket.taken == old(socket.taken)
      ensures socket.given == old(socket.given) + bytes && |bytes| <= E.MAX_READ && (failed ==> bytes == [])
      ensures bytes != [] ==> |socket.mInbox| < |old(socket.mInbox)|
      ensures !failed && bytes == [] ==> socket.readBlocked || PLENTY < |View().rx|
      ensures socket.writeBlocked == old(socket.writeBlocked)
      ensures View() == if failed then E.Step(keys, old(View()), E.Failed) else E.Arrive(old(View()), bytes)
      ensures failed ==> socket.mClosed && !socket.readBlocked
    {
      failed, bytes := false, [];
      E.ArriveNone(View());
      assert socket.given + [] == socket.given;
      ghost var startLoc, endLoc, maxLen := mReceiveBuffer.mStartLoc, mReceiveBuffer.mEndLoc, mReceiveBuffer.mMaxLen;
      var roomy := mReceiveBuffer.ConfirmCapacity(E.MAX_READ);
      if !roomy {
        NoRoomToRead(startLoc, endLoc, maxLen);
      } else {
        var ret: int;
        ret, bytes := ReceiveBytes(socket);
        if Socket.Breaks(ret, socket.mWouldBlock) {
          Fail(socket);
          failed := true;
        }
      }
    }

    // The receive loop of poll.
    method ReceiveLoop(socket: Socket.Wsocket) returns (log: seq<E.Event>, failed: bool)
      requires Valid() && (mReadyState == E.OPEN || mReadyState == E.CLOSING)
      modifies this`mReadyState, this`arrived, mReceiveBuffer, mReceiveBuffer.mBuffer, socket
      ensures Valid()
      ensures mReceiveBuffer.mBuffer == old(mReceiveBuffer.mBuffer) || fresh(mReceiveBuffer.mBuffer)
      ensures Ran(old(View()), log + E.Just(failed, E.Failed))
      ensures forall i :: 0 <= i < |log| ==> log[i].Received?
      ensures mReadyState == if failed then E.CLOSED else old(mReadyState)
      ensures !failed ==> socket.readBlocked || PLENTY < |View().rx|
      ensures socket.taken == old(socket.taken)
      ensures old(arrived) <= arrived && socket.given == old(socket.given) + arrived[|old(arrived)|..]
      ensures View().rx == old(View()).rx + arrived[|old(arrived)|..]
      ensures failed ==> socket.mClosed && !socket.readBlocked
    {
      log, failed := [], false;
      ghost var v, got: seq<byte> := View(), [];
      ghost var given, taken := socket.given, socket.taken;
      var again := true;
      while again
        invariant Valid()
        invariant mReceiveBuffer.mBuffer == old(mReceiveBuffer.mBuffer) || fresh(mReceiveBuffer.mBuffer)
        invariant if failed then !again && Ran(v, log + [E.Failed]) else Ran(v, log)
        invariant forall i :: 0 <= i < |log| ==> log[i].Received?
        invariant mReadyState == if failed then E.CLOSED else v.ready
        invariant failed ==> socket.mClosed && !socket.readBlocked
        invariant !again && !failed ==> socket.readBlocked || PLENTY < |View().rx|
        invariant socket.taken == taken
        invariant arrived == v.arrived + got && socket.given == given + got && View().rx == v.rx + got
        decreases again, |socket.mInbox|
      {
        ghost var before := View();
        var bytes: seq<byte>;
        failed, bytes := ReceiveOne(socket);
        again := bytes != [];
        Associative(v.arrived, got, bytes);
        Associative(given, got, bytes);
        Associative(v.rx, got, bytes);
        got := got + bytes;
        if failed {
          E.RunSnoc(keys, v, log, E.Failed);
        } else if again {
          E.RunSnoc(keys, v, log, E.Received(bytes));
          log := log + [E.Received(bytes)];
        } else {
          E.ArriveNone(before);
        }
      }
      assert log + [] == log;
    }

    // The socket has taken n bytes from the front of the transmit buffer.
    method TakeOff(n: nat)
      requires Valid() && (mReadyState == E.OPEN || mReadyState == E.CLOSING) && 0 < n <= mTransmitBuffer.GetSize()
      modifies this`accepted, mTransmitBuffer`mStartLoc, mTransmitBuffer`mEndLoc
      ensures Valid() && View() == E.Step(keys, old(View()), E.Sent(n))
    {
      var tx := mTransmitBuffer;
      ghost var v := View();
      var part := tx.mBuffer[tx.mStartLoc..tx.mStartLoc + n];
      Slice(tx.mBuffer[..], tx.mStartLoc, tx.mEndLoc, 0, n);
      assert part == v.tx[0..n] == v.tx[..n];
      accepted := accepted + part;
      tx.Consume(n);
    }

    // One turn of the send loop; failed and n say what came of it.
    method SendOne(socket: Socket.Wsocket) returns (failed: bool, n: nat)
      requires Valid() && (mReadyState == E.OPEN || mReadyState == E.CLOSING) && mTransmitBuffer.GetSize() != 0
      modifies this`mReadyState, this`accepted, mTransmitBuffer`mStartLoc, mTransmitBuffer`mEndLoc, socket
      ensures Valid() && n <= |old(View()).tx| && (failed ==> n == 0)
      ensures socket.given == old(socket.given)
      ensures socket.taken == if n == 0 then old(socket.taken) else old(socket.taken) + old(View()).tx[..n]
      ensures failed ==> View() == E.Step(keys, old(View()), E.Failed)
      ensures !failed && n == 0 ==> View() == old(View()) && socket.writeBlocked
      ensures socket.readBlocked == old(socket.readBlocked)
      ensures n != 0 ==> View() == E.Step(keys, old(View()), E.Sent(n))
      ensures failed ==> socket.mClosed && !socket.writeBlocked
    {
      failed, n := false, 0;
      var tx := mTransmitBuffer;
      var buffer := tx.mBuffer[tx.mStartLoc..tx.mEndLoc];
      var ret := socket.Send(buffer);
      assert old(socket.taken) + buffer[..0] == old(socket.taken);
      if Socket.Breaks(ret, socket.mWouldBlock) {
        Fail(socket);
        failed := true;
      } else if ret > 0 {
        n := ret;
        TakeOff(n);
      }
    }

    // Since v and a socket that had taken so much, exactly this has left the transmit buffer for it.
    ghost predicate Moved(v: E.Endpoint, taken0: seq<byte>, taken: seq<byte>, sent: seq<byte>)
      requires Valid()
      reads this, mTransmitBuffer, mTransmitBuffer.mBuffer, mReceiveBuffer, mReceivedData
    {
      accepted == v.accepted + sent && taken == taken0 + sent && v.tx == sent + mTransmitBuffer.Contents()
    }

    // One turn of the send loop, added to the turns since v.
    method SendTurn(socket: Socket.Wsocket, ghost v: E.Endpoint, soFar: seq<E.Event>,
                    ghost taken0: seq<byte>, ghost sent0: seq<byte>)
      returns (log: seq<E.Event>, failed: bool, again: bool, ghost sent: seq<byte>)
      requires Valid() && (mReadyState == E.OPEN || mReadyState == E.CLOSING) && mTransmitBuffer.GetSize() != 0
      requires Ran(v, soFar) && Moved(v, taken0, socket.taken, sent0)
      requires forall i :: 0 <= i < |soFar| ==> soFar[i].Sent?
      modifies this`mReadyState, this`accepted, mTransmitBuffer`mStartLoc, mTransmitBuffer`mEndLoc, socket
      ensures Valid() && !(failed && again) && (again ==> mTransmitBuffer.GetSize() < old(mTransmitBuffer.GetSize()))
      ensures Ran(v, log + E.Just(failed, E.Failed)) && Moved(v, taken0, socket.taken, sent)
      ensures forall i :: 0 <= i < |log| ==> log[i].Sent?
      ensures mReadyState == if failed then E.CLOSED else old(mReadyState)
      ensures !again && !failed ==> socket.writeBlocked
      ensures socket.readBlocked == old(socket.readBlocked) && socket.given == old(socket.given)
      ensures failed ==> socket.mClosed && !socket.writeBlocked
    {
      log := soFar;
      ghost var before := View();
      var n: nat;
      failed, n := SendOne(socket);
      again := n != 0;
      sent := sent0;
      if again {
        MovedMore(v.accepted, taken0, sent0, before.tx, n);
        sent := sent0 + before.tx[..n];
        E.RunSnoc(keys, v, log, E.Sent(n));
        log := log + [E.Sent(n)];
      } else if failed {
        E.RunSnoc(keys, v, log, E.Failed);
      }
      assert log + [] == log;
    }

    static lemma MovedMore(accepted: seq<byte>, taken: seq<byte>, sent: seq<byte>, tx: seq<byte>, n: nat)
      requires n <= |tx|
      ensures accepted + (sent + tx[..n]) == (accepted + sent) + tx[..n]
      ensures taken + (sent + tx[..n]) == (taken + sent) + tx[..n]
      ensures sent + tx == (sent + tx[..n]) + tx[n..]
    {
    }

    // The send loop of poll.
    method SendLoop(socket: Socket.Wsocket) returns (log: seq<E.Event>, failed: bool)
      requires Valid() && (mReadyState == E.OPEN || mReadyState == E.CLOSING)
      modifies this`mReadyState, this`accepted, mTransmitBuffer`mStartLoc, mTransmitBuffer`mEndLoc, socket
      ensures Valid()
      ensures Ran(old(View()), log + E.Just(failed, E.Failed))
      ensures forall i :: 0 <= i < |log| ==> log[i].Sent?
      ensures mReadyState == if failed then E.CLOSED else old(mReadyState)
      ensures !failed ==> View().tx == [] || socket.writeBlocked
      ensures socket.readBlocked == old(socket.readBlocked) && socket.given == old(socket.given)
      ensures old(accepted) <= accepted && socket.taken == old(socket.taken) + accepted[|old(accepted)|..]
      ensures old(View()).tx == accepted[|old(accepted)|..] + View().tx
      ensures failed ==> socket.mClosed && !socket.writeBlocked
    {
      log, failed := [], false;
      ghost var taken := socket.taken;
      ghost var v, sent: seq<byte>, events: seq<E.Event> := View(), [], [];
      var again := true;
      while again && mTransmitBuffer.GetSize() != 0
        invariant Valid()
        invariant Ran(v, events) && events == log + E.Just(failed, E.Failed) && !(failed && again)
        invariant Moved(v, taken, socket.taken, sent)
        invariant forall i :: 0 <= i < |log| ==> log[i].Sent?
        invariant mReadyState == if failed then E.CLOSED else v.ready
        invariant failed ==> socket.mClosed && !socket.writeBlocked
        invariant !again && !failed ==> socket.writeBlocked
        invariant socket.readBlocked == old(socket.readBlocked) && socket.given == old(socket.given)
        decreases again, mTransmitBuffer.GetSize()
      {
        assert events == log;
        log, failed, again, sent := SendTurn(socket, v, log, taken, sent);
        events := log + E.Just(failed, E.Failed);
      }
      assert accepted[|v.accepted|..] == sent;
    }

    // The two loops, one after the other.
    method Transfer(socket: Socket.Wsocket) returns (log: E.PollLog)
      requires Valid() && (mReadyState == E.OPEN || mReadyState == E.CLOSING)
      modifies this`mReadyState, this`arrived, this`accepted, mTransmitBuffer`mStartLoc, mTransmitBuffer`mEndLoc,
        mReceiveBuffer, mReceiveBuffer.mBuffer, socket
      ensures Valid() && log.WellFormed() && !log.drained && !log.dispatched
      ensures mReceiveBuffer.mBuffer == old(mReceiveBuffer.mBuffer) || fresh(mReceiveBuffer.mBuffer)
      ensures Ran(old(View()), log.Events())
      ensures mReadyState == if log.failed then E.CLOSED else old(mReadyState)
      ensures !log.failed ==> socket.readBlocked || PLENTY < |old(View()).rx| + |arrived| - |old(arrived)|
      ensures !log.failed ==> socket.writeBlocked || (View().tx == [] && accepted == old(accepted) + old(View()).tx)
      ensures old(arrived) <= arrived && socket.given == old(socket.given) + arrived[|old(arrived)|..]
      ensures old(accepted) <= accepted && socket.taken == old(socket.taken) + accepted[|old(accepted)|..]
      ensures log.failed ==> socket.mClosed && !(socket.readBlocked && socket.writeBlocked)
      ensures E.Bearable(E.Arrive(old(View()), arrived[|old(arrived)|..])) ==> E.Bearable(View())
    {
      ghost var v := View();
      var received, failed := ReceiveLoop(socket);
      if failed {
        log := E.PollLog(received, [], true, false, false);
        assert [] + [E.Failed] == [E.Failed];
        E.TransferEvents(received, [], true);
      } else {
        assert received + [] == received;
        log := SendAfter(socket, v, received);
      }
    }

    // The send loop, after a receive loop that did not fail.
    method SendAfter(socket: Socket.Wsocket, ghost v: E.Endpoint, received: seq<E.Event>) returns (log: E.PollLog)
      requires Valid() && (mReadyState == E.OPEN || mReadyState == E.CLOSING) && Ran(v, received)
      modifies this`mReadyState, this`accepted, mTransmitBuffer`mStartLoc, mTransmitBuffer`mEndLoc, socket
      ensures Valid() && log.received == received && !log.drained && !log.dispatched
      ensures forall i :: 0 <= i < |log.sent| ==> log.sent[i].Sent?
      ensures Ran(v, log.Events())
      ensures mReadyState == if log.failed then E.CLOSED else old(mReadyState)
      ensures !log.failed ==> View().tx == [] || socket.writeBlocked
      ensures socket.readBlocked == old(socket.readBlocked) && socket.given == old(socket.given)
      ensures log.failed ==> socket.mClosed && !socket.writeBlocked
      ensures old(accepted) <= accepted && socket.taken == old(socket.taken) + accepted[|old(accepted)|..]
      ensures old(View()).tx == accepted[|old(accepted)|..] + View().tx
    {
      var sent, failed := SendLoop(socket);
      E.RunConcat(keys, v, received, sent + E.Just(failed, E.Failed));
      E.TransferEvents(received, sent, failed);
      log := E.PollLog(received, sent, failed, false, false);
    }

    // The end of poll: a closing connection with nothing left to send is closed, then frames are
    // dispatched when there is a callback.
    method FinishPoll(socket: Socket.Wsocket, callback: bool) returns (drained: bool, ok: bool)
      requires Valid() && (mReadyState == E.OPEN || mReadyState == E.CLOSING)
      modifies this`mReadyState, this`mDraws, this`queued, this`delivered, socket`mClosed,
        mTransmitBuffer, mTransmitBuffer.mBuffer, mReceiveBuffer`mStartLoc, mReceiveBuffer`mEndLoc, mReceiveBuffer.mBuffer,
        mReceivedData, mReceivedData.mBuffer
      ensures Valid()
      ensures mTransmitBuffer.mBuffer == old(mTransmitBuffer.mBuffer) || fresh(mTransmitBuffer.mBuffer)
      ensures mReceivedData.mBuffer == old(mReceivedData.mBuffer) || fresh(mReceivedData.mBuffer)
      ensures drained == (old(mReadyState) == E.CLOSING && old(View()).tx == []) && (drained ==> socket.mClosed)
      ensures ok ==> Ran(old(View()), E.Just(drained, E.Drained) + E.Just(callback, E.Dispatched))
      ensures ok ==> !(mReadyState == E.CLOSING && View().tx == [])
      ensures !ok ==> !E.Bearable(old(View()))
    {
      ok := true;
      ghost var v := View();
      drained := CloseDrained(socket);
      if callback {
        E.RunSnoc(keys, v, E.Just(drained, E.Drained), E.Dispatched);
        E.DispatchLeavesCloseQueued(keys, View());
        ok := DispatchBinary();
      } else {
        assert E.Just(drained, E.Drained) + [] == E.Just(drained, E.Drained);
      }
    }

    // A closing connection with nothing left to send is closed.
    method CloseDrained(socket: Socket.Wsocket) returns (drained: bool)
      requires Valid() && (mReadyState == E.OPEN || mReadyState == E.CLOSING)
      modifies this`mReadyState, socket`mClosed
      ensures Valid() && drained == (old(mReadyState) == E.CLOSING && old(View()).tx == []) && (drained ==> socket.mClosed)
      ensures Ran(old(View()), E.Just(drained, E.Drained))
      ensures mReadyState == if drained then E.CLOSED else old(mReadyState)
      ensures View() == old(View()).(ready := mReadyState)
    {
      drained := false;
      if mTransmitBuffer.GetSize() == 0 && mReadyState == E.CLOSING {
        E.RunOne(keys, View(), E.Drained);
        socket.Close();
        mReadyState := E.CLOSED;
        drained := true;
      }
    }

    // poll, once the connection has been made.
    method PollOpen(socket: Socket.Wsocket, callback: bool) returns (log: E.PollLog, ok: bool)
      requires Valid() && (mReadyState == E.OPEN || mReadyState == E.CLOSING)
      modifies this, mTransmitBuffer, mTransmitBuffer.mBuffer, mReceiveBuffer, mReceiveBuffer.mBuffer,
        mReceivedData, mReceivedData.mBuffer, socket
      ensures Valid()
      ensures ok ==> Ran(old(View()), log.Events())
      ensures log.WellFormed() && (!log.failed ==> log.dispatched == callback)
      ensures ok && !log.failed ==> !(mReadyState == E.CLOSING && View().tx == [])
      ensures !log.failed ==> socket.readBlocked || PLENTY < |old(View()).rx| + |arrived| - |old(arrived)|
      ensures !log.failed ==> socket.writeBlocked || accepted == old(accepted) + old(View()).tx
      ensures old(arrived) <= arrived && socket.given == old(socket.given) + arrived[|old(arrived)|..]
      ensures old(accepted) <= accepted && socket.taken == old(socket.taken) + accepted[|old(accepted)|..]
      ensures log.failed ==> socket.mClosed && !(socket.readBlocked && socket.writeBlocked)
      ensures !ok ==> !E.Bearable(E.Arrive(old(View()), arrived[|old(arrived)|..]))
    {
      ok := true;
      ghost var v := View();
      log := Transfer(socket);
      if !log.failed {
        ghost var done := log;
        var drained: bool;
        drained, ok := FinishPoll(socket, callback);
        log := log.(drained := drained, dispatched := callback);
        E.FinishEvents(done, drained, callback);
        if ok {
          E.RunConcat(keys, v, done.Events(), E.Just(drained, E.Drained) + E.Just(callback, E.Dispatched));
        }
      }
    }

    // The handshake has come to an end.
    method Conclude(made: bool)
      requires Valid() && mReadyState == E.CONNECTING
      modifies this`mReadyState
      ensures Valid() && Ran(old(View()), [Conclusion(made)])
      ensures mReadyState == if made then E.OPEN else E.CLOSED
    {
      E.RunOne(keys, View(), Conclusion(made));
      mReadyState := if made then E.OPEN else E.CLOSED;
    }

    // poll on a connection still being made: one byte of the handshake at most.
    method PollConnecting(socket: Socket.Wsocket, connector: Connector.Connector, timedOut: bool) returns (log: seq<E.Event>)
      requires Valid() && mReadyState == E.CONNECTING && connector.Valid() && connector.mOutcome == H.Waiting
      requires connector.mConnectionBuffer !in {mTransmitBuffer.mBuffer, mReceiveBuffer.mBuffer, mReceivedData.mBuffer}
      modifies this`mReadyState, connector, connector.mConnectionBuffer, socket
      ensures Valid() && connector.Valid()
      ensures |log| <= 1 && Ran(old(View()), log)
      ensures |old(socket.given)| <= |socket.given|
      ensures connector.View() == if timedOut then old(connector.View()).(outcome := H.Dropped)
                                  else H.FeedAll(old(connector.View()), socket.given[|old(socket.given)|..])
      ensures mReadyState == match connector.mOutcome case Waiting => E.CONNECTING case Opened => E.OPEN case Dropped => E.CLOSED
    {
      log := [];
      connector.ProcessConnection(socket, timedOut);
      if connector.mOutcome != H.Waiting {
        log := [Conclusion(connector.mOutcome == H.Opened)];
        Conclude(connector.mOutcome == H.Opened);
      }
    }

    // poll.
    method Poll(socket: Socket.Wsocket?, connector: Connector.Connector, callback: bool, timedOut: bool)
      returns (log: seq<E.Event>, ok: bool)
      requires Valid() && connector.Valid() && (mReadyState == E.CONNECTING ==> connector.mOutcome == H.Waiting)
      requires connector.mConnectionBuffer !in {mTransmitBuffer.mBuffer, mReceiveBuffer.mBuffer, mReceivedData.mBuffer}
      modifies this, mTransmitBuffer, mTransmitBuffer.mBuffer, mReceiveBuffer, mReceiveBuffer.mBuffer,
        mReceivedData, mReceivedData.mBuffer, connector, connector.mConnectionBuffer, if socket == null then {} else {socket}
      ensures Valid() && connector.Valid()
      ensures ok ==> Ran(old(View()), log)
      ensures socket == null || old(mReadyState) == E.CLOSED ==> log == [] && ok
      ensures old(arrived) <= arrived && old(accepted) <= accepted
      ensures socket != null && (old(mReadyState) == E.OPEN || old(mReadyState) == E.CLOSING) ==>
        && socket.given == old(socket.given) + arrived[|old(arrived)|..]
        && socket.taken == old(socket.taken) + accepted[|old(accepted)|..]
        && (E.Failed in log ==> socket.mClosed && !(socket.readBlocked && socket.writeBlocked))
        && (E.Failed !in log ==>
          && (E.Dispatched in log <==> callback)
          && (socket.readBlocked || PLENTY < |old(View()).rx| + |arrived| - |old(arrived)|)
          && (socket.writeBlocked || accepted == old(accepted) + old(View()).tx)
          && (ok ==> !(mReadyState == E.CLOSING && View().tx == [])))
        && (!ok ==> !E.Bearable(E.Arrive(old(View()), arrived[|old(arrived)|..])))
      ensures socket == null || old(mReadyState) == E.CONNECTING ==> ok
      ensures socket != null && old(mReadyState) == E.CONNECTING ==>
        && |old(socket.given)| <= |socket.given|
        && connector.View() == (if timedOut then old(connector.View()).(outcome := H.Dropped)
                                else H.FeedAll(old(connector.View()), socket.given[|old(socket.given)|..]))
        && mReadyState == match connector.mOutcome case Waiting => E.CONNECTING case Opened => E.OPEN case Dropped => E.CLOSED
    {
      log, ok := [], true;
      if socket == null {
        return;
      }
      if mReadyState == E.CONNECTING {
        log := PollConnecting(socket, connector, timedOut);
        return;
      }
      if mReadyState == E.CLOSED {
        return;
      }
      var pollLog: E.PollLog;
      pollLog, ok := PollOpen(socket, callback);
      E.InEvents(pollLog);
      log := pollLog.Events();
    }
  }
}
