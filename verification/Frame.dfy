// One frame on the wire: the encoder of sendData and the header parser of _dispatchBinary
// in ext/easywsclient/easywsclient.cpp (RFC 6455, section 5.2).
module Frame {
  import opened Bytes
  import opened FastXor

  const CONTINUATION: byte := 0
  const TEXT_FRAME: byte := 1
  const BINARY_FRAME: byte := 2
  const CLOSE: byte := 8
  const PING: byte := 9
  const PONG: byte := 10

  const MAX_HEADER: nat := 14

  // ---- Sending ----

  // The low k octets of a number, most significant first.
  function BigEndian(n: nat, k: nat): (s: seq<byte>)
    ensures |s| == k
    decreases k
  {
    if k == 0 then [] else BigEndian(n / 256, k - 1) + [ToByte(n % 256)]
  }

  function MaskBit(useMask: bool): byte {
    if useMask then 0x80 else 0
  }

  // The header up to the masking key.
  function LengthPart(opcode: byte, n: nat, useMask: bool): (h: seq<byte>)
    ensures |h| == if n < 126 then 2 else if n < 65536 then 4 else 10
  {
    if n < 126 then
      [0x80 | opcode, ToByte(n) | MaskBit(useMask)]
    else if n < 65536 then
      [0x80 | opcode, 126 | MaskBit(useMask)] + BigEndian(n, 2)
    else
      [0x80 | opcode, 127 | MaskBit(useMask)] + BigEndian(n, 8)
  }

  function Header(opcode: byte, n: nat, useMask: bool, key: Key): (h: seq<byte>)
    ensures |h| <= MAX_HEADER
  {
    LengthPart(opcode, n, useMask) + (if useMask then key else [])
  }

  // A frame handed to the transmit buffer. The source only ever sends unfragmented frames.
  datatype Outgoing = Outgoing(opcode: byte, payload: seq<byte>, useMask: bool, key: Key) {
    ghost predicate Valid() {
      opcode < 16 && |payload| + MAX_HEADER < U32
    }
  }

  function Encode(o: Outgoing): seq<byte>
    requires o.Valid()
  {
    Header(o.opcode, |o.payload|, o.useMask, o.key) + (if o.useMask then Mask(o.payload, o.key) else o.payload)
  }

  // ---- Receiving ----

  // size is the length of the whole frame; the payload is unmasked.
  datatype Incoming = Incoming(fin: bool, opcode: byte, masked: bool, payload: seq<byte>, size: nat)

  // Oversize is the edge of the model: the source truncates the length of such a frame to 32 bits.
  datatype Parsed = More | Oversize | Got(frame: Incoming)

  function Fin(d: seq<byte>): bool
    requires 2 <= |d|
  {
    d[0] & 0x80 == 0x80
  }

  function Opcode(d: seq<byte>): byte
    requires 2 <= |d|
  {
    d[0] & 0x0f
  }

  function Masked(d: seq<byte>): bool
    requires 2 <= |d|
  {
    d[1] & 0x80 == 0x80
  }

  function ShortLen(d: seq<byte>): nat
    requires 2 <= |d|
  {
    Val(d[1] & 0x7f)
  }

  function KeyOffset(d: seq<byte>): nat
    requires 2 <= |d|
  {
    2 + (if ShortLen(d) == 126 then 2 else 0) + (if ShortLen(d) == 127 then 8 else 0)
  }

  function HeaderSize(d: seq<byte>): nat
    requires 2 <= |d|
  {
    KeyOffset(d) + (if Masked(d) then 4 else 0)
  }

  function FromBigEndian(s: seq<byte>): nat {
    if s == [] then 0 else FromBigEndian(s[..|s| - 1]) * 256 + Val(s[|s| - 1])
  }

  function PayloadLen(d: seq<byte>): nat
    requires 2 <= |d| && HeaderSize(d) <= |d|
  {
    if ShortLen(d) < 126 then ShortLen(d)
    else if ShortLen(d) == 126 then FromBigEndian(d[2..4])
    else FromBigEndian(d[2..10])
  }

  function FrameKey(d: seq<byte>): Key
    requires 2 <= |d| && HeaderSize(d) <= |d|
  {
    if Masked(d) then d[KeyOffset(d)..KeyOffset(d) + 4] else [0, 0, 0, 0]
  }

  function Unmasked(d: seq<byte>, body: seq<byte>): seq<byte>
    requires 2 <= |d| && HeaderSize(d) <= |d|
  {
    if Masked(d) then Mask(body, FrameKey(d)) else body
  }

  function Parse(d: seq<byte>): Parsed {
    if |d| < 2 || |d| < HeaderSize(d) then More
    else if U32 <= PayloadLen(d) + MAX_HEADER then Oversize
    else
      var size := HeaderSize(d) + PayloadLen(d);
      if |d| < size then More
      else Got(Incoming(Fin(d), Opcode(d), Masked(d), Unmasked(d, d[HeaderSize(d)..size]), size))
  }

  lemma ParseSize(d: seq<byte>)
    requires Parse(d).Got?
    ensures var f := Parse(d).frame; 2 <= f.size <= |d| && |f.payload| + MAX_HEADER < U32 && f.opcode < 16
    ensures |Parse(d).frame.payload| + 2 <= Parse(d).frame.size
  {
    OpcodeLow(d[0]);
  }

  lemma OpcodeLow(b: byte)
    ensures b & 0x0f < 16
  {
  }

  // What follows a prefix never changes how the prefix is read.
  lemma ParseStable(d: seq<byte>, tail: seq<byte>)
    ensures Parse(d) != More ==> Parse(d + tail) == Parse(d)
  {
    if Parse(d) != More {
      var e := d + tail;
      HeaderStable(d, tail);
      SameHeader(d, e);
      if Parse(d).Got? {
        BodyStable(d, tail, HeaderSize(d), HeaderSize(d) + PayloadLen(d));
      }
    }
  }

  lemma HeaderStable(d: seq<byte>, tail: seq<byte>)
    requires 2 <= |d| && HeaderSize(d) <= |d|
    ensures HeaderSize(d + tail) == HeaderSize(d)
    ensures (d + tail)[..HeaderSize(d)] == d[..HeaderSize(d)]
  {
    assert (d + tail)[1] == d[1];
  }

  lemma BodyStable(d: seq<byte>, tail: seq<byte>, lo: nat, hi: nat)
    requires lo <= hi <= |d|
    ensures (d + tail)[lo..hi] == d[lo..hi]
  {
  }

  // A frame is read from its own bytes alone.
  lemma ParsePrefix(d: seq<byte>)
    requires Parse(d).Got?
    ensures Parse(d).frame.size <= |d| && Parse(d[..Parse(d).frame.size]) == Parse(d)
  {
    var size := Parse(d).frame.size;
    var p := d[..size];
    assert p + d[size..] == d;
    assert p[1] == d[1];
    HeaderStable(p, d[size..]);
    SameHeader(p, d);
    ParseStable(p, d[size..]);
  }

  lemma SameHeader(d: seq<byte>, e: seq<byte>)
    requires 2 <= |d| && 2 <= |e| && HeaderSize(d) <= |d| && HeaderSize(d) <= |e|
    requires e[..HeaderSize(d)] == d[..HeaderSize(d)]
    ensures HeaderSize(e) == HeaderSize(d) && Fin(e) == Fin(d) && Opcode(e) == Opcode(d) && Masked(e) == Masked(d)
    ensures PayloadLen(e) == PayloadLen(d) && FrameKey(e) == FrameKey(d)
  {
    var h := HeaderSize(d);
    assert forall i :: 0 <= i < h ==> e[i] == e[..h][i] == d[..h][i] == d[i];
    if ShortLen(d) == 126 {
      assert e[2..4] == d[2..4];
    } else if ShortLen(d) == 127 {
      assert e[2..10] == d[2..10];
    }
    if Masked(d) {
      assert e[h - 4..h] == d[h - 4..h];
    }
  }

  // ---- The layout of a frame ----

  // The three forms of the length field (RFC 6455, section 5.2).
  datatype Form = Short | Medium | Long

  function Limit(form: Form): nat {
    match form
    case Short => 126
    case Medium => 65536
    case Long => U32
  }

  // A frame as any peer may send it: first holds FIN, the reserved bits and the opcode.
  datatype Wire = Wire(first: byte, form: Form, masked: bool, key: Key, payload: seq<byte>) {
    ghost predicate Valid() {
      |payload| < Limit(form) && |payload| + MAX_HEADER < U32
    }
  }

  function Lead(first: byte, n: nat, masked: bool, form: Form): (h: seq<byte>)
    requires n < Limit(form)
    ensures 2 <= |h|
  {
    match form
    case Short => [first, ToByte(n) | MaskBit(masked)]
    case Medium => [first, 126 | MaskBit(masked)] + BigEndian(n, 2)
    case Long => [first, 127 | MaskBit(masked)] + BigEndian(n, 8)
  }

  function WireHeader(w: Wire): (h: seq<byte>)
    requires w.Valid()
    ensures 2 <= |h|
  {
    Lead(w.first, |w.payload|, w.masked, w.form) + (if w.masked then w.key else [])
  }

  function Octets(w: Wire): (d: seq<byte>)
    requires w.Valid()
    ensures 2 <= |d|
  {
    WireHeader(w) + (if w.masked then Mask(w.payload, w.key) else w.payload)
  }

  function Read(w: Wire): Incoming
    requires w.Valid()
  {
    Incoming(w.first & 0x80 == 0x80, w.first & 0x0f, w.masked, w.payload, |Octets(w)|)
  }

  // ---- Reading what was laid out ----

  lemma FlagBits(n: nat)
    requires n < 128
    ensures Val((ToByte(n) | 0x80) & 0x7f) == n && (ToByte(n) | 0x80) & 0x80 == 0x80
    ensures Val((ToByte(n) | 0) & 0x7f) == n && (ToByte(n) | 0) & 0x80 == 0
  {
    ToByteRoundTrip(n);
    LowBits(ToByte(n));
  }

  lemma LowBits(b: byte)
    requires Val(b) < 128
    ensures (b | 0x80) & 0x7f == b && (b | 0x80) & 0x80 == 0x80
    ensures (b | 0) & 0x7f == b && (b | 0) & 0x80 == 0
  {
  }

  predicate FitsIn(n: nat, k: nat)
    decreases k
  {
    if k == 0 then n == 0 else FitsIn(n / 256, k - 1)
  }

  lemma {:induction false} BigEndianRoundTrip(n: nat, k: nat)
    requires FitsIn(n, k)
    ensures FromBigEndian(BigEndian(n, k)) == n
    decreases k
  {
    if k != 0 {
      BigEndianRoundTrip(n / 256, k - 1);
      ToByteRoundTrip(n % 256);
      assert BigEndian(n, k)[..k - 1] == BigEndian(n / 256, k - 1);
    }
  }

  lemma {:induction false} SmallFits(n: nat, k: nat)
    requires n == 0
    ensures FitsIn(n, k)
    decreases k
  {
    if k != 0 {
      SmallFits(0, k - 1);
    }
  }

  lemma LengthsFit(n: nat)
    ensures n < 65536 ==> FitsIn(n, 2)
    ensures n < U32 ==> FitsIn(n, 8)
  {
    var n1 := n / 256;
    var n2 := n1 / 256;
    var n3 := n2 / 256;
    var n4 := n3 / 256;
    if n < 65536 {
      assert n2 == 0;
      assert FitsIn(n2, 0) && FitsIn(n1, 1);
    }
    if n < U32 {
      assert n4 == 0;
      SmallFits(n4, 4);
      assert FitsIn(n3, 5) && FitsIn(n2, 6) && FitsIn(n1, 7);
    }
  }

  // A length field of k octets behind the first two.
  lemma LengthField(d: seq<byte>, n: nat, k: nat)
    requires (k == 2 && n < 65536) || (k == 8 && n < U32)
    requires 2 + k <= |d| && d[2..2 + k] == BigEndian(n, k)
    ensures FromBigEndian(d[2..2 + k]) == n
  {
    LengthsFit(n);
    BigEndianRoundTrip(n, k);
  }

  // The number in the second octet.
  function ShortField(n: nat, form: Form): nat
    requires n < Limit(form)
  {
    match form
    case Short => n
    case Medium => 126
    case Long => 127
  }

  lemma FlagFields(d: seq<byte>, first: byte, n: nat, masked: bool, form: Form)
    requires n < Limit(form) && 2 <= |d| && d[..2] == Lead(first, n, masked, form)[..2]
    ensures d[0] == first && Masked(d) == masked && ShortLen(d) == ShortField(n, form)
  {
    var l := Lead(first, n, masked, form);
    assert d[0] == d[..2][0] == l[0] && d[1] == d[..2][1] == l[1];
    FlagBits(ShortField(n, form));
  }

  lemma LengthFields(d: seq<byte>, first: byte, n: nat, masked: bool, form: Form)
    requires n < Limit(form)
    requires var l := Lead(first, n, masked, form);
             |l| + (if masked then 4 else 0) <= |d| && d[..|l|] == l
    ensures d[0] == first && Masked(d) == masked
    ensures KeyOffset(d) == |Lead(first, n, masked, form)|
    ensures PayloadLen(d) == n
  {
    var l := Lead(first, n, masked, form);
    assert d[..2] == l[..2];
    FlagFields(d, first, n, masked, form);
    if form != Short {
      var k := |l| - 2;
      assert d[2..2 + k] == l[2..] == BigEndian(n, k);
      LengthField(d, n, k);
    }
  }

  lemma HeaderFields(w: Wire, tail: seq<byte>)
    requires w.Valid()
    ensures var d := WireHeader(w) + tail;
            && HeaderSize(d) == |WireHeader(w)|
            && d[0] == w.first && Masked(d) == w.masked
            && PayloadLen(d) == |w.payload|
            && (w.masked ==> FrameKey(d) == w.key)
  {
    var l := Lead(w.first, |w.payload|, w.masked, w.form);
    var d := WireHeader(w) + tail;
    assert d[..|l|] == l;
    LengthFields(d, w.first, |w.payload|, w.masked, w.form);
    if w.masked {
      assert d[|l|..|l| + 4] == w.key;
    }
  }

  // Every frame that can be laid out is read back, whatever follows it, and takes exactly its octets.
  lemma {:induction false} WireRoundTrip(w: Wire, tail: seq<byte>)
    requires w.Valid()
    ensures Parse(Octets(w) + tail) == Got(Read(w))
  {
    var h := WireHeader(w);
    var body := if w.masked then Mask(w.payload, w.key) else w.payload;
    var d := h + (body + tail);
    Associative(h, body, tail);
    HeaderFields(w, body + tail);
    MiddlePart(h, body, tail);
    MaskInvolution(w.payload, w.key);
  }

  lemma MiddlePart(a: seq<byte>, b: seq<byte>, c: seq<byte>)
    ensures (a + (b + c))[|a|..|a| + |b|] == b
  {
  }

  // ---- The round trip ----

  function Delivered(o: Outgoing): Incoming
    requires o.Valid()
  {
    Incoming(true, o.opcode, o.useMask, o.payload, |Encode(o)|)
  }

  // What the encoder lays out: FIN, no reserved bit, and the shortest form.
  function AsWire(o: Outgoing): Wire {
    var n := |o.payload|;
    Wire(0x80 | o.opcode, if n < 126 then Short else if n < 65536 then Medium else Long, o.useMask, o.key, o.payload)
  }

  lemma EncodeIsWire(o: Outgoing)
    requires o.Valid()
    ensures AsWire(o).Valid() && Octets(AsWire(o)) == Encode(o) && Read(AsWire(o)) == Delivered(o)
  {
    FirstOctet(o.opcode);
  }

  lemma FirstOctet(opcode: byte)
    requires opcode < 16
    ensures (0x80 | opcode) & 0x80 == 0x80 && (0x80 | opcode) & 0x0f == opcode
  {
  }

  // Decoding what was encoded, whatever follows it, gives it back and takes exactly its octets.
  lemma RoundTrip(o: Outgoing, tail: seq<byte>)
    requires o.Valid()
    ensures Parse(Encode(o) + tail) == Got(Delivered(o))
  {
    EncodeIsWire(o);
    WireRoundTrip(AsWire(o), tail);
  }

  // ---- Octet by octet ----

  // The length fields as the source writes them: each octet shifted out of the number.
  function TwoShifted(n: nat): seq<byte> {
    [ToByte(n / 0x100 % 256), ToByte(n % 256)]
  }

  function EightShifted(n: nat): seq<byte> {
    [ToByte(n / 0x100_0000_0000_0000 % 256), ToByte(n / 0x1_0000_0000_0000 % 256),
     ToByte(n / 0x100_0000_0000 % 256), ToByte(n / 0x1_0000_0000 % 256),
     ToByte(n / 0x100_0000 % 256), ToByte(n / 0x1_0000 % 256), ToByte(n / 0x100 % 256), ToByte(n % 256)]
  }

  lemma {:induction false} BigEndianTwo(n: nat)
    ensures BigEndian(n, 2) == TwoShifted(n)
  {
    assert BigEndian(n, 2) == BigEndian(n / 256, 1) + [ToByte(n % 256)];
    assert BigEndian(n / 256, 1) == BigEndian(n / 256 / 256, 0) + [ToByte(n / 256 % 256)];
  }

  // Four octets behind those of the number shifted by as many.
  lemma {:induction false} BigEndianFour(n: nat, k: nat)
    ensures BigEndian(n, k + 4) == BigEndian(n / 0x1_0000_0000, k) +
            [ToByte(n / 0x100_0000 % 256), ToByte(n / 0x1_0000 % 256), ToByte(n / 0x100 % 256), ToByte(n % 256)]
  {
    var n1 := n / 256;
    var n2 := n1 / 256;
    var n3 := n2 / 256;
    var n4 := n3 / 256;
    assert n2 == n / 0x1_0000 && n3 == n / 0x100_0000 && n4 == n / 0x1_0000_0000;
    assert BigEndian(n, k + 4) == BigEndian(n1, k + 3) + [ToByte(n % 256)];
    assert BigEndian(n1, k + 3) == BigEndian(n2, k + 2) + [ToByte(n1 % 256)];
    assert BigEndian(n2, k + 2) == BigEndian(n3, k + 1) + [ToByte(n2 % 256)];
    assert BigEndian(n3, k + 1) == BigEndian(n4, k) + [ToByte(n3 % 256)];
  }

  lemma {:induction false} BigEndianEight(n: nat)
    ensures BigEndian(n, 8) == EightShifted(n)
  {
    var m := n / 0x1_0000_0000;
    BigEndianFour(n, 4);
    BigEndianFour(m, 0);
    assert m / 0x100_0000 == n / 0x100_0000_0000_0000 && m / 0x1_0000 == n / 0x1_0000_0000_0000;
    assert m / 0x100 == n / 0x100_0000_0000;
    assert BigEndian(m / 0x1_0000_0000, 0) == [];
  }

  // And as it reads them: each octet shifted into its place.
  lemma {:induction false} FieldStep(d: seq<byte>, k: nat)
    requires 2 <= k < |d|
    ensures FromBigEndian(d[2..k + 1]) == FromBigEndian(d[2..k]) * 256 + Val(d[k])
  {
    assert d[2..k + 1][..|d[2..k + 1]| - 1] == d[2..k];
  }

  function TwoJoined(d: seq<byte>): nat
    requires 4 <= |d|
  {
    Val(d[2]) * 0x100 + Val(d[3])
  }

  function EightJoined(d: seq<byte>): nat
    requires 10 <= |d|
  {
    Val(d[2]) * 0x100_0000_0000_0000 + Val(d[3]) * 0x1_0000_0000_0000 + Val(d[4]) * 0x100_0000_0000 +
    Val(d[5]) * 0x1_0000_0000 + Val(d[6]) * 0x100_0000 + Val(d[7]) * 0x1_0000 + Val(d[8]) * 0x100 + Val(d[9])
  }

  lemma {:induction false} ReadTwo(d: seq<byte>)
    requires 4 <= |d|
    ensures FromBigEndian(d[2..4]) == TwoJoined(d)
  {
    assert FromBigEndian(d[2..2]) == 0;
    FieldStep(d, 2);
    FieldStep(d, 3);
  }

  lemma {:induction false} ReadEight(d: seq<byte>)
    requires 10 <= |d|
    ensures FromBigEndian(d[2..10]) == EightJoined(d)
  {
    ReadFour(d);
    FourSteps(d, 6);
  }

  lemma {:induction false} ReadFour(d: seq<byte>)
    requires 6 <= |d|
    ensures FromBigEndian(d[2..6]) == Val(d[2]) * 0x100_0000 + Val(d[3]) * 0x1_0000 + Val(d[4]) * 0x100 + Val(d[5])
  {
    assert FromBigEndian(d[2..2]) == 0;
    FourSteps(d, 2);
  }

  lemma {:induction false} FourSteps(d: seq<byte>, k: nat)
    requires 2 <= k && k + 4 <= |d|
    ensures FromBigEndian(d[2..k + 4]) ==
            FromBigEndian(d[2..k]) * 0x1_0000_0000 + Val(d[k]) * 0x100_0000 + Val(d[k + 1]) * 0x1_0000 + Val(d[k + 2]) * 0x100 + Val(d[k + 3])
  {
    FieldStep(d, k);
    FieldStep(d, k + 1);
    FieldStep(d, k + 2);
    FieldStep(d, k + 3);
  }

  // ---- Nothing else is read ----

  lemma ByteRoundTrip(b: byte)
    ensures ToByte(Val(b)) == b
  {
  }

  lemma {:induction false} BigEndianOf(s: seq<byte>)
    ensures BigEndian(FromBigEndian(s), |s|) == s
  {
    if s != [] {
      var k := |s| - 1;
      BigEndianOf(s[..k]);
      BigEndianSnoc(FromBigEndian(s[..k]), s[k], k);
      LastOctet(s);
    }
  }

  lemma {:induction false} LastOctet(s: seq<byte>)
    requires s != []
    ensures s == s[..|s| - 1] + [s[|s| - 1]]
    ensures FromBigEndian(s) == FromBigEndian(s[..|s| - 1]) * 256 + Val(s[|s| - 1])
  {
  }

  lemma {:induction false} BigEndianSnoc(high: nat, b: byte, k: nat)
    ensures BigEndian(high * 256 + Val(b), k + 1) == BigEndian(high, k) + [b]
  {
    ByteRoundTrip(b);
    Digits(high, Val(b));
  }

  lemma Digits(high: nat, low: nat)
    requires low < 256
    ensures (high * 256 + low) / 256 == high && (high * 256 + low) % 256 == low
  {
  }

  lemma SecondOctet(b: byte)
    ensures ToByte(Val(b & 0x7f)) | MaskBit(b & 0x80 == 0x80) == b
    ensures Val(b & 0x7f) == 126 ==> 126 | MaskBit(b & 0x80 == 0x80) == b
    ensures Val(b & 0x7f) == 127 ==> 127 | MaskBit(b & 0x80 == 0x80) == b
    ensures Val(b & 0x7f) < 128
  {
    ByteRoundTrip(b & 0x7f);
    Halves(b);
  }

  lemma Halves(b: byte)
    ensures (b & 0x7f) | (if b & 0x80 == 0x80 then 0x80 else 0) == b
    ensures b & 0x7f < 128
  {
  }

  // The frame at the head of d, taken apart.
  function WireOf(d: seq<byte>): Wire
    requires Parse(d).Got?
  {
    Wire(d[0], if ShortLen(d) < 126 then Short else if ShortLen(d) == 126 then Medium else Long,
         Masked(d), FrameKey(d), Parse(d).frame.payload)
  }

  lemma {:induction false} LeadOf(d: seq<byte>)
    requires 2 <= |d| && HeaderSize(d) <= |d| && PayloadLen(d) < U32
    ensures var form := if ShortLen(d) < 126 then Short else if ShortLen(d) == 126 then Medium else Long;
            PayloadLen(d) < Limit(form) && Lead(d[0], PayloadLen(d), Masked(d), form) == d[..KeyOffset(d)]
  {
    SecondOctet(d[1]);
    if ShortLen(d) == 126 {
      TwoOctets(d[2..4]);
      FieldOf(d, 2);
    } else if ShortLen(d) == 127 {
      FieldOf(d, 8);
    }
  }

  lemma {:induction false} FieldOf(d: seq<byte>, k: nat)
    requires 2 + k <= |d|
    ensures d[..2 + k] == [d[0], d[1]] + BigEndian(FromBigEndian(d[2..2 + k]), k)
  {
    BigEndianOf(d[2..2 + k]);
  }

  lemma ParsedParts(d: seq<byte>)
    requires Parse(d).Got?
    ensures 2 <= HeaderSize(d) && PayloadLen(d) + MAX_HEADER < U32
    ensures var f := Parse(d).frame;
            && f.size == HeaderSize(d) + PayloadLen(d) <= |d|
            && f.payload == Unmasked(d, d[HeaderSize(d)..f.size]) && |f.payload| == PayloadLen(d)
            && f.fin == (d[0] & 0x80 == 0x80) && f.opcode == d[0] & 0x0f && f.masked == Masked(d)
  {
  }

  lemma {:induction false} HeaderOf(d: seq<byte>)
    requires Parse(d).Got?
    ensures WireOf(d).Valid() && WireHeader(WireOf(d)) == d[..HeaderSize(d)]
  {
    ParsedParts(d);
    LeadOf(d);
    HeaderSplits(d);
  }

  lemma {:induction false} BodyOf(d: seq<byte>)
    requires Parse(d).Got?
    ensures var f := Parse(d).frame;
            HeaderSize(d) <= f.size <= |d| &&
            d[HeaderSize(d)..f.size] == if Masked(d) then Mask(f.payload, FrameKey(d)) else f.payload
  {
    ParsedParts(d);
    MaskInvolution(d[HeaderSize(d)..Parse(d).frame.size], FrameKey(d));
  }

  // Whatever is read as a frame is one, laid out as it is read.
  lemma {:induction false} ParsedIsWire(d: seq<byte>)
    requires Parse(d).Got?
    ensures var f := Parse(d).frame;
            f.size <= |d| && WireOf(d).Valid() && Octets(WireOf(d)) == d[..f.size] && Read(WireOf(d)) == f
  {
    ParsedParts(d);
    HeaderOf(d);
    BodyOf(d);
    assert d[..Parse(d).frame.size] == d[..HeaderSize(d)] + d[HeaderSize(d)..Parse(d).frame.size];
  }

  lemma HeaderSplits(d: seq<byte>)
    requires 2 <= |d| && HeaderSize(d) <= |d|
    ensures d[..HeaderSize(d)] == d[..KeyOffset(d)] + (if Masked(d) then FrameKey(d) else [])
  {
  }

  // A proper prefix of a frame is never taken for a frame.
  lemma PrefixIncomplete(o: Outgoing, n: nat)
    requires o.Valid() && n < |Encode(o)|
    ensures Parse(Encode(o)[..n]) == More
  {
    var p := Encode(o)[..n];
    ParseStable(p, Encode(o)[n..]);
    assert p + Encode(o)[n..] == Encode(o) + [];
    RoundTrip(o, []);
    if Parse(p).Got? {
      ParseSize(p);
    }
  }

  lemma TwoOctets(s: seq<byte>)
    requires |s| == 2
    ensures FromBigEndian(s) < 65536
  {
    assert s[..1][..0] == [];
    assert FromBigEndian(s[..1]) == Val(s[0]);
  }

  // No other header that means the same is shorter (RFC 6455, section 5.2).
  lemma MinimalHeader(o: Outgoing, d: seq<byte>)
    requires o.Valid()
    requires 2 <= |d| && HeaderSize(d) <= |d| && Masked(d) == o.useMask && PayloadLen(d) == |o.payload|
    ensures |Header(o.opcode, |o.payload|, o.useMask, o.key)| <= HeaderSize(d)
  {
    if ShortLen(d) == 126 {
      TwoOctets(d[2..4]);
    }
  }
}
