// The opening handshake: processConnection in ext/easywsclient/easywsclient.cpp reads one byte a
// time and acts on each line. The client's request and the server's reply are fixed texts.
module Handshake {
  import opened Bytes

  const LF: byte := 0x0a
  const CR: byte := 0x0d

  datatype Phase =
    | HTTP_STATUS | HCONNECTION_UPGRADE | HSEC_WEBSOCKET_ACCEPT | HSERVER_WEBSOCKET | HUPGRADE_WEBSOCKET | H
    | SERVER_CLIENT_STRINGS

  datatype Outcome = Waiting | Opened | Dropped

  // The texts the two sides exchange: what a server asks for, and the lines it answers with.
  datatype Texts = Texts(get: seq<byte>, answer: seq<seq<byte>>)

  // line holds the bytes of the current line, reply what a server has sent back.
  datatype Machine = Machine(
    texts: Texts, server: bool, phase: Phase, line: seq<byte>, outcome: Outcome, reply: seq<byte>)

  function Start(texts: Texts, server: bool): Machine {
    Machine(texts, server, HTTP_STATUS, [], Waiting, [])
  }

  // ---- Lines as C strings ----

  function CString(s: seq<byte>): seq<byte> {
    if s == [] || s[0] == 0 then [] else [s[0]] + CString(s[1..])
  }

  // The line as the source compares it: without its carriage return, up to the first NUL.
  function Text(line: seq<byte>): seq<byte> {
    CString(if line != [] && line[|line| - 1] == CR then line[..|line| - 1] else line)
  }

  predicate IsSpace(b: byte) {
    b == 0x20 || 0x09 <= b <= 0x0d
  }

  function SkipSpaces(s: seq<byte>): seq<byte> {
    if s != [] && IsSpace(s[0]) then SkipSpaces(s[1..]) else s
  }

  predicate IsDigit(b: byte) {
    0x30 <= b <= 0x39
  }

  function Number(s: seq<byte>, n: nat): nat {
    if s != [] && IsDigit(s[0]) then Number(s[1..], 10 * n + Val(s[0] & 0x0f)) else n
  }

  // sscanf(text, "HTTP/1.1 %d", &status) converts, and to 101.
  predicate Status101(text: seq<byte>) {
    && |text| >= 8 && text[..8] == Ascii("HTTP/1.1")
    && var s := SkipSpaces(text[8..]);
       var t := if s != [] && s[0] == 0x2b then s[1..] else s;
       t != [] && IsDigit(t[0]) && Number(t, 0) == 101
  }

  function CrLf(): seq<byte> {
    [CR, LF]
  }

  function JoinLines(lines: seq<seq<byte>>): seq<byte> {
    if lines == [] then [] else lines[0] + CrLf() + JoinLines(lines[1..])
  }

  // ---- The machine ----

  function OnLine(m: Machine, text: seq<byte>): Machine {
    match m.phase
    case SERVER_CLIENT_STRINGS => if text == [] then m.(outcome := Opened) else m
    case HTTP_STATUS =>
      if m.server then
        if text == m.texts.get then m.(phase := SERVER_CLIENT_STRINGS, reply := m.reply + JoinLines(m.texts.answer))
        else m.(outcome := Dropped)
      else
        if Status101(text) then m.(phase := HCONNECTION_UPGRADE) else m.(outcome := Dropped)
    case HCONNECTION_UPGRADE => m.(phase := HSEC_WEBSOCKET_ACCEPT)
    case HSEC_WEBSOCKET_ACCEPT => m.(phase := HSERVER_WEBSOCKET)
    case HSERVER_WEBSOCKET => m.(phase := HUPGRADE_WEBSOCKET)
    case HUPGRADE_WEBSOCKET => m.(phase := H)
    case H => m.(outcome := Opened)
  }

  const MAX_INDEX: nat := 255

  function Feed(m: Machine, b: byte): Machine {
    if b == LF then OnLine(m.(line := []), Text(m.line))
    else
      var longer := m.(line := m.line + [b]);
      if |longer.line| == MAX_INDEX then longer.(outcome := Dropped) else longer
  }

  // Bytes are taken only while the connection is being made.
  function FeedAll(m: Machine, d: seq<byte>): Machine
    decreases |d|
  {
    if d == [] || m.outcome != Waiting then m else FeedAll(Feed(m, d[0]), d[1..])
  }

  function Left(m: Machine, d: seq<byte>): seq<byte>
    decreases |d|
  {
    if d == [] || m.outcome != Waiting then d else Left(Feed(m, d[0]), d[1..])
  }

  lemma {:induction false} FeedSplit(m: Machine, a: seq<byte>, b: seq<byte>)
    ensures FeedAll(m, a + b) == FeedAll(FeedAll(m, a), b)
    ensures FeedAll(m, a).outcome == Waiting ==> Left(m, a + b) == Left(FeedAll(m, a), b) && Left(m, a) == []
    ensures FeedAll(m, a).outcome != Waiting ==> Left(m, a + b) == Left(m, a) + b
    decreases |a|
  {
    if a == [] || m.outcome != Waiting {
      if a == [] {
        assert a + b == b;
      }
    } else {
      assert (a + b)[1..] == a[1..] + b;
      FeedSplit(Feed(m, a[0]), a[1..], b);
    }
  }

  // On any input the index stays below 255 while the connection is being made.
  lemma {:induction false} IndexBounded(m: Machine, d: seq<byte>)
    requires m.outcome == Waiting ==> |m.line| < MAX_INDEX
    ensures FeedAll(m, d).outcome == Waiting ==> |FeedAll(m, d).line| < MAX_INDEX
    ensures FeedAll(m, d).outcome == Opened && m.outcome == Waiting ==> FeedAll(m, d).line == []
    decreases |d|
  {
    if d != [] && m.outcome == Waiting {
      IndexBounded(Feed(m, d[0]), d[1..]);
    }
  }

  // ---- Whole lines ----

  predicate Plain(l: seq<byte>) {
    |l| <= 253 && forall i :: 0 <= i < |l| ==> l[i] != LF
  }

  lemma {:induction false} FeedPlain(m: Machine, l: seq<byte>)
    requires m.outcome == Waiting && |m.line| + |l| < MAX_INDEX
    requires forall i :: 0 <= i < |l| ==> l[i] != LF
    ensures FeedAll(m, l) == m.(line := m.line + l)
    decreases |l|
  {
    if l == [] {
      assert m.line + [] == m.line;
    } else {
      FeedPlain(Feed(m, l[0]), l[1..]);
      assert m.line + l == (m.line + [l[0]]) + l[1..];
    }
  }

  lemma {:induction false} FeedLf(m: Machine, tail: seq<byte>)
    requires m.outcome == Waiting
    ensures FeedAll(m, [LF] + tail) == FeedAll(OnLine(m.(line := []), Text(m.line)), tail)
    ensures Left(m, [LF] + tail) == Left(OnLine(m.(line := []), Text(m.line)), tail)
  {
    assert ([LF] + tail)[1..] == tail;
  }

  // ---- Any line, the first one above all ----

  predicate Unbroken(l: seq<byte>) {
    forall i :: 0 <= i < |l| ==> l[i] != LF
  }

  // Any bytes up to a line end, fewer than 255, are taken as one line.
  lemma {:induction false} FeedAnyLine(m: Machine, l: seq<byte>, tail: seq<byte>)
    requires m.outcome == Waiting && m.line == [] && |l| < 255 && Unbroken(l)
    ensures FeedAll(m, l + [LF] + tail) == FeedAll(OnLine(m, Text(l)), tail)
    ensures Left(m, l + [LF] + tail) == Left(OnLine(m, Text(l)), tail)
  {
    FeedPlain(m, l);
    assert [] + l == l;
    FeedSplit(m, l, [LF] + tail);
    assert l + [LF] + tail == l + ([LF] + tail);
    FeedLf(m.(line := l), tail);
    assert m.(line := l).(line := []) == m;
  }

  // A plain line and its line end are taken as one line.
  lemma {:induction false} FeedLine(m: Machine, l: seq<byte>, tail: seq<byte>)
    requires m.outcome == Waiting && m.line == [] && Plain(l)
    ensures FeedAll(m, l + CrLf() + tail) == FeedAll(OnLine(m, CString(l)), tail)
    ensures Left(m, l + CrLf() + tail) == Left(OnLine(m, CString(l)), tail)
  {
    var body := l + [CR];
    assert l + CrLf() + tail == body + [LF] + tail;
    assert body[..|body| - 1] == l;
    FeedAnyLine(m, body, tail);
  }

  // Without a line end the machine waits as long as there are fewer than 255, and then gives up.
  lemma {:induction false} FeedUnended(m: Machine, l: seq<byte>)
    requires m.outcome == Waiting && m.line == [] && Unbroken(l)
    ensures FeedAll(m, l).outcome == (if |l| < 255 then Waiting else Dropped) && FeedAll(m, l).reply == m.reply
  {
    if |l| < 255 {
      FeedPlain(m, l);
    } else {
      var head := l[..254];
      var rest := l[254..];
      assert head + rest == l;
      FeedPlain(m, head);
      assert [] + head == head;
      FeedSplit(m, head, rest);
      FeedLast(m.(line := head), rest);
    }
  }

  lemma {:induction false} FeedLast(m: Machine, rest: seq<byte>)
    requires m.outcome == Waiting && |m.line| == 254 && rest != [] && rest[0] != LF
    ensures FeedAll(m, rest).outcome == Dropped && FeedAll(m, rest).reply == m.reply
  {
    var g := Feed(m, rest[0]);
    assert g.outcome == Dropped;
    assert FeedAll(g, rest[1..]) == g;
  }

  // A server replies to the request line it asks for, and drops the connection on any other.
  lemma {:induction false} ServerDecides(texts: Texts, l: seq<byte>, tail: seq<byte>)
    requires |l| < 255 && Unbroken(l)
    ensures var m := FeedAll(Start(texts, true), l + [LF] + tail);
            if Text(l) == texts.get then JoinLines(texts.answer) <= m.reply
            else m.outcome == Dropped && m.reply == [] && m.phase == HTTP_STATUS
    ensures Text(l) != texts.get ==> Left(Start(texts, true), l + [LF] + tail) == tail
  {
    var m := Start(texts, true);
    FeedAnyLine(m, l, tail);
    var g := OnLine(m, Text(l));
    if Text(l) == texts.get {
      assert [] + JoinLines(texts.answer) == JoinLines(texts.answer);
      ReplyGrows(g, tail);
    } else {
      assert FeedAll(g, tail) == g;
    }
  }

  lemma {:induction false} ReplyGrows(m: Machine, d: seq<byte>)
    ensures m.reply <= FeedAll(m, d).reply
    decreases |d|
  {
    if d != [] && m.outcome == Waiting {
      ReplyGrows(Feed(m, d[0]), d[1..]);
    }
  }

  // A client goes on after a line with status 101, and drops the connection on any other.
  lemma {:induction false} ClientDecides(texts: Texts, l: seq<byte>, tail: seq<byte>)
    requires |l| < 255 && Unbroken(l)
    ensures var m := FeedAll(Start(texts, false), l + [LF] + tail);
            if Status101(Text(l)) then m == FeedAll(Start(texts, false).(phase := HCONNECTION_UPGRADE), tail)
            else m.outcome == Dropped && m.phase == HTTP_STATUS
  {
    var m := Start(texts, false);
    FeedAnyLine(m, l, tail);
    var g := OnLine(m, Text(l));
    if !Status101(Text(l)) {
      assert FeedAll(g, tail) == g;
    }
  }

  // A line without NUL is its text, without the carriage return it may end in.
  lemma LineText(l: seq<byte>)
    requires forall i :: 0 <= i < |l| ==> l[i] != 0
    ensures Text(l) == if l != [] && l[|l| - 1] == 0x0d then l[..|l| - 1] else l
  {
    NoNul(l);
    NoNul(if l != [] && l[|l| - 1] == CR then l[..|l| - 1] else l);
  }

  // ---- A status of 101 ----

  predicate AllSpaces(s: seq<byte>) {
    forall i :: 0 <= i < |s| ==> IsSpace(s[i])
  }

  predicate AllZeros(s: seq<byte>) {
    forall i :: 0 <= i < |s| ==> s[i] == 0x30
  }

  predicate NoDigit(s: seq<byte>) {
    s == [] || s[0] < 0x30 || 0x39 < s[0]
  }

  // The digits 101 behind any zeros.
  function Digits101(zeros: seq<byte>, rest: seq<byte>): seq<byte> {
    zeros + ([0x31, 0x30, 0x31] + rest)
  }

  lemma DigitVal(b: byte)
    ensures IsDigit(b) ==> Val(b & 0x0f) <= 9 && (Val(b & 0x0f) == 0 <==> b == 0x30) && (Val(b & 0x0f) == 1 <==> b == 0x31)
  {
    assert IsDigit(b) ==> b & 0x0f <= 9 && (b & 0x0f == 0 <==> b == 0x30) && (b & 0x0f == 1 <==> b == 0x31);
  }

  lemma {:induction false} NumberAtLeast(s: seq<byte>, n: nat)
    ensures n <= Number(s, n)
    decreases |s|
  {
    if s != [] && IsDigit(s[0]) {
      NumberAtLeast(s[1..], 10 * n + Val(s[0] & 0x0f));
    }
  }

  lemma {:induction false} Not101(s: seq<byte>, n: nat)
    requires 2 <= n <= 9 || 11 <= n <= 100
    ensures Number(s, n) != 101
    decreases |s|
  {
    if s != [] && IsDigit(s[0]) {
      DigitVal(s[0]);
      var next := 10 * n + Val(s[0] & 0x0f);
      NumberAtLeast(s[1..], next);
      if n <= 9 {
        Not101(s[1..], next);
      }
    }
  }

  lemma {:induction false} Ends101(s: seq<byte>)
    ensures Number(s, 101) == 101 <==> NoDigit(s)
  {
    if s != [] && IsDigit(s[0]) {
      NumberAtLeast(s[1..], 1010 + Val(s[0] & 0x0f));
    }
  }

  lemma {:induction false} After10(s: seq<byte>)
    ensures Number(s, 10) == 101 <==> s != [] && s[0] == 0x31 && NoDigit(s[1..])
  {
    if s != [] && IsDigit(s[0]) {
      DigitVal(s[0]);
      var d := Val(s[0] & 0x0f);
      if d == 1 {
        Ends101(s[1..]);
      } else if d == 0 {
        Not101(s[1..], 100);
      } else {
        NumberAtLeast(s[1..], 100 + d);
      }
    }
  }

  lemma {:induction false} After1(s: seq<byte>)
    ensures Number(s, 1) == 101 <==> |s| >= 2 && s[0] == 0x30 && s[1] == 0x31 && NoDigit(s[2..])
  {
    if s != [] && IsDigit(s[0]) {
      DigitVal(s[0]);
      var d := Val(s[0] & 0x0f);
      if d == 0 {
        After10(s[1..]);
        if |s| >= 2 {
          assert s[1..][1..] == s[2..];
        }
      } else {
        Not101(s[1..], 10 + d);
      }
    }
  }

  // A number reads 101 exactly when it is written as these digits behind zeros.
  lemma {:induction false} NumberIs101(s: seq<byte>) returns (zeros: seq<byte>, rest: seq<byte>)
    requires Number(s, 0) == 101
    ensures s == Digits101(zeros, rest) && AllZeros(zeros) && NoDigit(rest)
    decreases |s|
  {
    DigitVal(s[0]);
    var d := Val(s[0] & 0x0f);
    if d == 0 {
      zeros, rest := NumberIs101(s[1..]);
      assert s == [s[0]] + s[1..];
      assert [s[0]] + Digits101(zeros, rest) == Digits101([s[0]] + zeros, rest);
      zeros := [s[0]] + zeros;
    } else if d == 1 {
      After1(s[1..]);
      zeros, rest := [], s[3..];
      assert s[1..][2..] == s[3..];
      assert s == [0x31, 0x30, 0x31] + rest;
    } else {
      Not101(s[1..], d);
      assert false;
    }
  }

  lemma {:induction false} NumberOf101(zeros: seq<byte>, rest: seq<byte>)
    requires AllZeros(zeros) && NoDigit(rest)
    ensures Number(Digits101(zeros, rest), 0) == 101
  {
    var s := Digits101(zeros, rest);
    DigitVal(0x30);
    DigitVal(0x31);
    if zeros == [] {
      var t := s[1..];
      assert s[0] == 0x31 && t[0] == 0x30 && t[1] == 0x31 && t[2..] == rest;
      After1(t);
    } else {
      assert s[1..] == Digits101(zeros[1..], rest);
      NumberOf101(zeros[1..], rest);
    }
  }

  // A status line as it has to be: white space, a plus sign or none, and the number 101.
  function StatusOf(spaces: seq<byte>, plus: bool, zeros: seq<byte>, rest: seq<byte>): seq<byte> {
    Ascii("HTTP/1.1") + (spaces + ((if plus then [0x2b] else []) + Digits101(zeros, rest)))
  }

  lemma {:induction false} SkipAll(spaces: seq<byte>, s: seq<byte>)
    requires AllSpaces(spaces) && (s == [] || !IsSpace(s[0]))
    ensures SkipSpaces(spaces + s) == s
  {
    if spaces == [] {
      assert spaces + s == s;
    } else {
      assert (spaces + s)[1..] == spaces[1..] + s;
      SkipAll(spaces[1..], s);
    }
  }

  lemma {:induction false} Skipped(s: seq<byte>) returns (spaces: seq<byte>)
    ensures AllSpaces(spaces) && s == spaces + SkipSpaces(s)
  {
    if s != [] && IsSpace(s[0]) {
      var more := Skipped(s[1..]);
      spaces := [s[0]] + more;
      assert s == [s[0]] + s[1..];
    } else {
      spaces := [];
    }
  }

  lemma Status101Made(spaces: seq<byte>, plus: bool, zeros: seq<byte>, rest: seq<byte>)
    requires AllSpaces(spaces) && AllZeros(zeros) && NoDigit(rest)
    ensures Status101(StatusOf(spaces, plus, zeros, rest))
  {
    var digits := Digits101(zeros, rest);
    var s := (if plus then [0x2b] else []) + digits;
    var text := StatusOf(spaces, plus, zeros, rest);
    assert digits[0] == 0x30 || digits[0] == 0x31;
    assert text[..8] == Ascii("HTTP/1.1") && text[8..] == spaces + s;
    SkipAll(spaces, s);
    assert plus ==> s[1..] == digits;
    assert !plus ==> s == digits;
    NumberOf101(zeros, rest);
  }

  lemma Status101Parts(text: seq<byte>) returns (spaces: seq<byte>, plus: bool, zeros: seq<byte>, rest: seq<byte>)
    requires Status101(text)
    ensures text == StatusOf(spaces, plus, zeros, rest) && AllSpaces(spaces) && AllZeros(zeros) && NoDigit(rest)
  {
    var s := SkipSpaces(text[8..]);
    spaces := Skipped(text[8..]);
    plus := s != [] && s[0] == 0x2b;
    var t := if plus then s[1..] else s;
    zeros, rest := NumberIs101(t);
    assert s == (if plus then [0x2b] else []) + t;
    assert text == text[..8] + text[8..];
  }

  // In plain octets.
  lemma HandshakeOctets()
    ensures LF == 10 && CR == 13 && CrLf() == [13, 10] && MAX_INDEX == 255
    ensures GET_LINE == "GET / HTTP/1.1" && STATUS_LINE == "HTTP/1.1 101 Switching Protocols"
  {
  }

  lemma SourceLines()
    ensures SourceTexts().get == Ascii("GET / HTTP/1.1")
    ensures SourceTexts().answer ==
            [Ascii("HTTP/1.1 101 Switching Protocols"), Ascii("HConnection: upgrade"),
             Ascii("HSec-WebSocket-Accept: ") + Ascii("HSmrc0sMlYUkAGmm5OPpG2HaGWk="),
             Ascii("HServer: WebSocket++/0.7.0"), Ascii("HUpgrade: websocket"), []]
  {
  }

  lemma VersionOctets()
    ensures var v := Ascii("HTTP/1.1");
            && v[0] == ToByte(0x48) && v[1] == v[2] == ToByte(0x54) && v[3] == ToByte(0x50)
            && v[4] == ToByte(0x2f) && v[5] == v[7] == ToByte(0x31) && v[6] == ToByte(0x2e)
  {
  }

  // The first line of some bytes.
  function FirstLineLength(d: seq<byte>): (n: nat)
    ensures n <= |d| && Unbroken(d[..n]) && (n < |d| ==> d[n] == LF)
  {
    if d == [] || d[0] == LF then 0
    else
      var n := 1 + FirstLineLength(d[1..]);
      assert forall i :: 0 < i < n ==> d[i] == d[1..][..n - 1][i - 1];
      n
  }

  // A server that has replied or opened has had its request line first, whatever the bytes.
  lemma {:induction false} OnlyOnRequest(texts: Texts, d: seq<byte>)
    ensures var m := FeedAll(Start(texts, true), d); var n := FirstLineLength(d);
            m.reply != [] || m.outcome == Opened ==> n < |d| && n < 255 && Text(d[..n]) == texts.get
  {
    var n := FirstLineLength(d);
    if n < |d| && n < 255 {
      assert d == d[..n] + [LF] + d[n + 1..];
      ServerDecides(texts, d[..n], d[n + 1..]);
    } else if n == |d| {
      assert d[..n] == d;
      FeedUnended(Start(texts, true), d);
    } else {
      LongFirstLine(Start(texts, true), d, n);
    }
  }

  lemma {:induction false} LongFirstLine(m: Machine, d: seq<byte>, n: nat)
    requires m.outcome == Waiting && m.line == [] && 255 <= n <= |d| && Unbroken(d[..n])
    ensures FeedAll(m, d).outcome == Dropped && FeedAll(m, d).reply == m.reply
  {
    assert d == d[..n] + d[n..];
    FeedUnended(m, d[..n]);
    FeedSplit(m, d[..n], d[n..]);
  }

  // And a client that has opened has had a status 101.
  lemma {:induction false} OnlyOn101(texts: Texts, d: seq<byte>)
    ensures var m := FeedAll(Start(texts, false), d); var n := FirstLineLength(d);
            m.outcome == Opened ==> n < |d| && n < 255 && Status101(Text(d[..n]))
  {
    var n := FirstLineLength(d);
    if n < |d| && n < 255 {
      assert d == d[..n] + [LF] + d[n + 1..];
      ClientDecides(texts, d[..n], d[n + 1..]);
    } else if n == |d| {
      assert d[..n] == d;
      FeedUnended(Start(texts, false), d);
    } else {
      LongFirstLine(Start(texts, false), d, n);
    }
  }

  predicate Header(l: seq<byte>) {
    Plain(l) && l != [] && l[0] != 0
  }

  function Request(texts: Texts, headers: seq<seq<byte>>): seq<byte> {
    texts.get + CrLf() + (JoinLines(headers) + CrLf())
  }

  // The request line is read back as it is; the answer is six lines, the first a 101 status.
  predicate Proper(texts: Texts) {
    && Plain(texts.get) && CString(texts.get) == texts.get
    && |texts.answer| == 6 && (forall i :: 0 <= i < 6 ==> Plain(texts.answer[i]))
    && Status101(CString(texts.answer[0]))
  }

  lemma {:induction false} NoNul(s: seq<byte>)
    requires forall i :: 0 <= i < |s| ==> s[i] != 0
    ensures CString(s) == s
  {
    if s != [] {
      NoNul(s[1..]);
    }
  }

  lemma {:induction false} SkipHeaders(m: Machine, headers: seq<seq<byte>>, tail: seq<byte>)
    requires m.outcome == Waiting && m.line == [] && m.phase == SERVER_CLIENT_STRINGS
    requires forall i :: 0 <= i < |headers| ==> Header(headers[i])
    ensures FeedAll(m, JoinLines(headers) + CrLf() + tail) == m.(outcome := Opened)
    ensures Left(m, JoinLines(headers) + CrLf() + tail) == tail
    decreases |headers|
  {
    if headers == [] {
      assert [] + CrLf() + tail == JoinLines(headers) + CrLf() + tail;
      FeedLine(m, [], tail);
    } else {
      var rest := JoinLines(headers[1..]) + CrLf() + tail;
      assert JoinLines(headers) + CrLf() + tail == headers[0] + CrLf() + rest;
      FeedLine(m, headers[0], rest);
      SkipHeaders(m, headers[1..], tail);
    }
  }

  // A server opens on the request it asks for, answers it, and leaves what follows alone.
  lemma ServerReads(texts: Texts, headers: seq<seq<byte>>, tail: seq<byte>)
    requires Proper(texts) && forall i :: 0 <= i < |headers| ==> Header(headers[i])
    ensures FeedAll(Start(texts, true), Request(texts, headers) + tail)
         == Machine(texts, true, SERVER_CLIENT_STRINGS, [], Opened, JoinLines(texts.answer))
    ensures Left(Start(texts, true), Request(texts, headers) + tail) == tail
  {
    var rest := JoinLines(headers) + CrLf() + tail;
    assert Request(texts, headers) + tail == texts.get + CrLf() + rest;
    FeedLine(Start(texts, true), texts.get, rest);
    assert [] + JoinLines(texts.answer) == JoinLines(texts.answer);
    SkipHeaders(OnLine(Start(texts, true), texts.get), headers, tail);
  }

  // A client opens after a 101 status line and five more lines, whatever these say.
  lemma ClientReads(texts: Texts, lines: seq<seq<byte>>, tail: seq<byte>)
    requires |lines| == 6 && forall i :: 0 <= i < 6 ==> Plain(lines[i])
    requires Status101(CString(lines[0]))
    ensures FeedAll(Start(texts, false), JoinLines(lines) + tail) == Machine(texts, false, H, [], Opened, [])
    ensures Left(Start(texts, false), JoinLines(lines) + tail) == tail
  {
    var m := Start(texts, false);
    FirstLine(m, lines, tail);
    FiveLines(m.(phase := HCONNECTION_UPGRADE), lines[1..], tail);
  }

  lemma FiveLines(m: Machine, lines: seq<seq<byte>>, tail: seq<byte>)
    requires m.outcome == Waiting && m.line == [] && m.phase == HCONNECTION_UPGRADE
    requires |lines| == 5 && forall i :: 0 <= i < 5 ==> Plain(lines[i])
    ensures FeedAll(m, JoinLines(lines) + tail) == m.(phase := H, outcome := Opened)
    ensures Left(m, JoinLines(lines) + tail) == tail
  {
    var l2 := lines[1..];
    var l3 := l2[1..];
    var l4 := l3[1..];
    var l5 := l4[1..];
    FirstLine(m, lines, tail);
    FirstLine(m.(phase := HSEC_WEBSOCKET_ACCEPT), l2, tail);
    FirstLine(m.(phase := HSERVER_WEBSOCKET), l3, tail);
    FirstLine(m.(phase := HUPGRADE_WEBSOCKET), l4, tail);
    FirstLine(m.(phase := H), l5, tail);
    assert JoinLines(l5[1..]) + tail == tail;
  }

  lemma FirstLine(m: Machine, lines: seq<seq<byte>>, tail: seq<byte>)
    requires m.outcome == Waiting && m.line == [] && lines != [] && Plain(lines[0])
    ensures FeedAll(m, JoinLines(lines) + tail) == FeedAll(OnLine(m, CString(lines[0])), JoinLines(lines[1..]) + tail)
    ensures Left(m, JoinLines(lines) + tail) == Left(OnLine(m, CString(lines[0])), JoinLines(lines[1..]) + tail)
  {
    var rest := JoinLines(lines[1..]) + tail;
    assert JoinLines(lines) + tail == lines[0] + CrLf() + rest;
    FeedLine(m, lines[0], rest);
  }

  // ---- Both sides at once ----

  // taken and frames are histories: bytes each machine has consumed, and bytes each side has
  // sent as frames after its own connection opened.
  datatype Pair = Pair(
    server: Machine, client: Machine, toServer: seq<byte>, toClient: seq<byte>,
    serverTaken: nat, clientTaken: nat, serverFrames: seq<byte>, clientFrames: seq<byte>)

  function Connecting(texts: Texts, headers: seq<seq<byte>>): Pair {
    Pair(Start(texts, true), Start(texts, false), Request(texts, headers), [], 0, 0, [], [])
  }

  datatype Event = ServerTakes | ClientTakes | ServerSends(bytes: seq<byte>) | ClientSends(bytes: seq<byte>)

  predicate Enabled(p: Pair, ev: Event) {
    match ev
    case ServerTakes => p.server.outcome == Waiting && p.toServer != []
    case ClientTakes => p.client.outcome == Waiting && p.toClient != []
    case ServerSends(_) => p.server.outcome == Opened
    case ClientSends(_) => p.client.outcome == Opened
  }

  function Step(p: Pair, ev: Event): Pair
    requires Enabled(p, ev)
  {
    match ev
    case ServerTakes =>
      var m := Feed(p.server, p.toServer[0]);
      var said := if |p.server.reply| <= |m.reply| then m.reply[|p.server.reply|..] else [];
      p.(server := m, toServer := p.toServer[1..], serverTaken := p.serverTaken + 1, toClient := p.toClient + said)
    case ClientTakes =>
      p.(client := Feed(p.client, p.toClient[0]), toClient := p.toClient[1..], clientTaken := p.clientTaken + 1)
    case ServerSends(bytes) => p.(toClient := p.toClient + bytes, serverFrames := p.serverFrames + bytes)
    case ClientSends(bytes) => p.(toServer := p.toServer + bytes, clientFrames := p.clientFrames + bytes)
  }

  predicate IsRun(p: Pair, evs: seq<Event>)
    decreases |evs|
  {
    evs == [] || (Enabled(p, evs[0]) && IsRun(Step(p, evs[0]), evs[1..]))
  }

  function After(p: Pair, evs: seq<Event>): Pair
    requires IsRun(p, evs)
    decreases |evs|
  {
    if evs == [] then p else After(Step(p, evs[0]), evs[1..])
  }

  // A machine that has consumed n bytes of a text it reads to the end.
  ghost predicate Reading(start: Machine, text: seq<byte>, n: nat, m: Machine) {
    && n <= |text| && m == FeedAll(start, text[..n])
    && FeedAll(start, text).outcome == Opened && Left(start, text) == []
  }

  lemma ReadingProgress(start: Machine, text: seq<byte>, n: nat, m: Machine)
    requires Reading(start, text, n, m)
    ensures m.outcome == if n < |text| then Waiting else Opened
  {
    FeedSplit(start, text[..n], text[n..]);
    assert text[..n] + text[n..] == text;
  }

  lemma ReadingStep(start: Machine, text: seq<byte>, n: nat, m: Machine)
    requires Reading(start, text, n, m) && n < |text|
    ensures Reading(start, text, n + 1, Feed(m, text[n]))
  {
    ReadingProgress(start, text, n, m);
    FeedSplit(start, text[..n], [text[n]]);
    assert text[..n + 1] == text[..n] + [text[n]];
    assert [text[n]][1..] == [];
  }

  // A server has answered, all at once, from the moment it is past the request line.
  ghost predicate Serving(texts: Texts, m: Machine) {
    && m.server && m.texts == texts
    && (m.phase == HTTP_STATUS || m.phase == SERVER_CLIENT_STRINGS)
    && m.reply == (if m.phase == HTTP_STATUS then [] else JoinLines(texts.answer))
    && (m.outcome == Opened ==> m.phase == SERVER_CLIENT_STRINGS)
  }

  lemma ServingStep(texts: Texts, m: Machine, b: byte)
    requires Serving(texts, m) && m.outcome == Waiting
    ensures Serving(texts, Feed(m, b)) && m.reply <= Feed(m, b).reply
  {
    assert [] + JoinLines(texts.answer) == JoinLines(texts.answer);
  }

  ghost predicate PairInv(texts: Texts, headers: seq<seq<byte>>, p: Pair) {
    var request, answer := Request(texts, headers), JoinLines(texts.answer);
    && Reading(Start(texts, true), request, p.serverTaken, p.server) && Serving(texts, p.server)
    && Reading(Start(texts, false), answer, p.clientTaken, p.client)
    && p.toServer == request[p.serverTaken..] + p.clientFrames
    && (p.clientFrames != [] ==> p.client.outcome == Opened)
    && p.clientTaken <= |p.server.reply|
    && p.toClient == p.server.reply[p.clientTaken..] + p.serverFrames
    && (p.serverFrames != [] ==> p.server.outcome == Opened)
  }

  lemma {:induction false} ServerTakesKeeps(texts: Texts, headers: seq<seq<byte>>, p: Pair)
    requires PairInv(texts, headers, p) && Enabled(p, ServerTakes)
    ensures PairInv(texts, headers, Step(p, ServerTakes))
  {
    var request, n := Request(texts, headers), p.serverTaken;
    ReadingProgress(Start(texts, true), request, n, p.server);
    ReadingStep(Start(texts, true), request, n, p.server);
    assert p.toServer[0] == request[n];
    assert p.toServer[1..] == request[n + 1..] + p.clientFrames;
    ServingStep(texts, p.server, request[n]);
    assert p.serverFrames == [];
    Said(p.server.reply, Feed(p.server, request[n]).reply, p.clientTaken);
  }

  lemma Said(before: seq<byte>, after: seq<byte>, taken: nat)
    requires before <= after && taken <= |before|
    ensures before[taken..] + [] + after[|before|..] == after[taken..] + []
  {
  }

  lemma ClientTakesKeeps(texts: Texts, headers: seq<seq<byte>>, p: Pair)
    requires PairInv(texts, headers, p) && Enabled(p, ClientTakes)
    ensures PairInv(texts, headers, Step(p, ClientTakes))
  {
    var answer, n := JoinLines(texts.answer), p.clientTaken;
    ReadingProgress(Start(texts, false), answer, n, p.client);
    var reply := p.server.reply;
    assert p.serverFrames != [] ==> reply == answer;
    assert |p.toClient| == |reply| - n + |p.serverFrames|;
    assert n < |reply|;
    ReadingStep(Start(texts, false), answer, n, p.client);
    assert p.toClient[0] == answer[n];
    assert p.toClient[1..] == reply[n + 1..] + p.serverFrames;
  }

  lemma StepKeeps(texts: Texts, headers: seq<seq<byte>>, p: Pair, ev: Event)
    requires PairInv(texts, headers, p) && Enabled(p, ev)
    ensures PairInv(texts, headers, Step(p, ev))
  {
    match ev
    case ServerTakes => ServerTakesKeeps(texts, headers, p);
    case ClientTakes => ClientTakesKeeps(texts, headers, p);
    case ServerSends(bytes) => Associative(p.server.reply[p.clientTaken..], p.serverFrames, bytes);
    case ClientSends(bytes) => Associative(Request(texts, headers)[p.serverTaken..], p.clientFrames, bytes);
  }

  lemma {:induction false} RunKeeps(texts: Texts, headers: seq<seq<byte>>, p: Pair, evs: seq<Event>)
    requires PairInv(texts, headers, p) && IsRun(p, evs)
    ensures PairInv(texts, headers, After(p, evs))
    decreases |evs|
  {
    if evs != [] {
      StepKeeps(texts, headers, p, evs[0]);
      RunKeeps(texts, headers, Step(p, evs[0]), evs[1..]);
    }
  }

  lemma ConnectingInv(texts: Texts, headers: seq<seq<byte>>)
    requires Proper(texts) && forall i :: 0 <= i < |headers| ==> Header(headers[i])
    ensures PairInv(texts, headers, Connecting(texts, headers))
  {
    var request, answer := Request(texts, headers), JoinLines(texts.answer);
    ServerReads(texts, headers, []);
    ClientReads(texts, texts.answer, []);
    assert request + [] == request && answer + [] == answer;
    assert request[..0] == [] && answer[..0] == [];
    assert request[0..] == request;
  }

  // However the two machines and the frames that follow interleave: neither side drops the
  // connection; while a side is not open some machine has a byte to take; and a side that is open
  // has taken exactly the handshake, so what waits for it is exactly the other side's frames.
  lemma Agreement(texts: Texts, headers: seq<seq<byte>>, evs: seq<Event>)
    requires Proper(texts) && forall i :: 0 <= i < |headers| ==> Header(headers[i])
    requires IsRun(Connecting(texts, headers), evs)
    ensures var p := After(Connecting(texts, headers), evs);
            && p.server.outcome != Dropped && p.client.outcome != Dropped
            && (p.server.outcome == Waiting ==> Enabled(p, ServerTakes))
            && (p.server.outcome == Opened && p.client.outcome == Waiting ==> Enabled(p, ClientTakes))
            && (p.server.outcome == Opened ==> p.toServer == p.clientFrames)
            && (p.client.outcome == Opened ==> p.toClient == p.serverFrames)
  {
    ConnectingInv(texts, headers);
    RunKeeps(texts, headers, Connecting(texts, headers), evs);
    var p := After(Connecting(texts, headers), evs);
    ReadingProgress(Start(texts, true), Request(texts, headers), p.serverTaken, p.server);
    ReadingProgress(Start(texts, false), JoinLines(texts.answer), p.clientTaken, p.client);
  }

  // ---- The source's own texts ----

  predicate Printable(s: string) {
    forall i :: 0 <= i < |s| ==> ' ' <= s[i] < 128 as char
  }

  lemma AsciiPlain(s: string)
    requires |s| <= 253 && Printable(s)
    ensures Plain(Ascii(s)) && CString(Ascii(s)) == Ascii(s)
  {
    forall i | 0 <= i < |s|
      ensures Ascii(s)[i] != LF && Ascii(s)[i] != 0
    {
      ToByteRoundTrip(s[i] as int % 256);
    }
    NoNul(Ascii(s));
  }

  const GET_LINE := "GET / HTTP/1.1"
  const STATUS_LINE := "HTTP/1.1 101 Switching Protocols"
  const CONNECTION_LINE := "HConnection: upgrade"
  const SERVER_LINE := "HServer: WebSocket++/0.7.0"
  const UPGRADE_LINE := "HUpgrade: websocket"
  const ACCEPT_NAME := "HSec-WebSocket-Accept: "
  const ACCEPT_KEY := "HSmrc0sMlYUkAGmm5OPpG2HaGWk="

  function SourceTexts(): Texts {
    Texts(Ascii(GET_LINE),
          [Ascii(STATUS_LINE), Ascii(CONNECTION_LINE), Ascii(ACCEPT_NAME) + Ascii(ACCEPT_KEY),
           Ascii(SERVER_LINE), Ascii(UPGRADE_LINE), []])
  }

  lemma GetPlain()
    ensures Plain(Ascii(GET_LINE)) && CString(Ascii(GET_LINE)) == Ascii(GET_LINE)
  {
    assert Printable(GET_LINE);
    AsciiPlain(GET_LINE);
  }

  lemma StatusPlain()
    ensures Plain(Ascii(STATUS_LINE)) && CString(Ascii(STATUS_LINE)) == Ascii(STATUS_LINE)
  {
    assert Printable(STATUS_LINE);
    AsciiPlain(STATUS_LINE);
  }

  lemma AcceptPlain()
    ensures Plain(Ascii(ACCEPT_NAME) + Ascii(ACCEPT_KEY))
  {
    AcceptKeyPlain();
    assert Printable(ACCEPT_NAME);
    AsciiPlain(ACCEPT_NAME);
  }

  lemma AcceptKeyPlain()
    ensures Plain(Ascii(ACCEPT_KEY))
  {
    assert Printable(ACCEPT_KEY);
    AsciiPlain(ACCEPT_KEY);
  }

  lemma ConnectionPlain()
    ensures Plain(Ascii(CONNECTION_LINE))
  {
    assert Printable(CONNECTION_LINE);
    AsciiPlain(CONNECTION_LINE);
  }

  lemma ServerPlain()
    ensures Plain(Ascii(SERVER_LINE))
  {
    assert Printable(SERVER_LINE);
    AsciiPlain(SERVER_LINE);
  }

  lemma UpgradePlain()
    ensures Plain(Ascii(UPGRADE_LINE))
  {
    assert Printable(UPGRADE_LINE);
    AsciiPlain(UPGRADE_LINE);
  }

  lemma Number101(t: seq<byte>)
    requires |t| >= 4 && t[0] == 0x31 && t[1] == 0x30 && t[2] == 0x31 && !IsDigit(t[3])
    ensures Number(t, 0) == 101
  {
    assert Val(t[0] & 0x0f) == 1 && Val(t[1] & 0x0f) == 0 && Val(t[2] & 0x0f) == 1;
    assert Number(t, 0) == Number(t[1..], 1) == Number(t[1..][1..], 10) == Number(t[1..][1..][1..], 101);
  }

  lemma Status101Line(text: seq<byte>)
    requires |text| >= 13 && text[..8] == Ascii("HTTP/1.1") && text[8] == 0x20
    requires text[9] == 0x31 && text[10] == 0x30 && text[11] == 0x31 && text[12] == 0x20
    ensures Status101(text)
  {
    var s := text[8..];
    var t := s[1..];
    assert SkipSpaces(s) == SkipSpaces(t) == t;
    Number101(t);
  }

  lemma StatusString(s: string)
    requires |s| >= 13 && s[..8] == "HTTP/1.1" && s[8] == s[12] == ' ' && s[9] == s[11] == '1' && s[10] == '0'
    ensures Status101(Ascii(s))
  {
    var text := Ascii(s);
    AsciiPrefix(s, 8);
    assert text[8] == ToByte(32) && text[9] == ToByte(49) && text[10] == ToByte(48) && text[11] == ToByte(49) && text[12] == ToByte(32);
    Status101Line(text);
  }

  lemma SourceStatus()
    ensures Status101(Ascii(STATUS_LINE))
  {
    StatusOctets();
    assert STATUS_LINE[..8] == "HTTP/1.1";
    StatusString(STATUS_LINE);
  }

  lemma StatusOctets()
    ensures STATUS_LINE[8] == STATUS_LINE[12] == ' ' && STATUS_LINE[9] == STATUS_LINE[11] == '1' && STATUS_LINE[10] == '0'
  {
  }

  lemma AsciiPrefix(s: string, n: nat)
    requires n <= |s|
    ensures Ascii(s)[..n] == Ascii(s[..n])
  {
  }

  lemma MakeProper(texts: Texts, l0: seq<byte>, l1: seq<byte>, l2: seq<byte>, l3: seq<byte>, l4: seq<byte>)
    requires texts.answer == [l0, l1, l2, l3, l4, []]
    requires Plain(texts.get) && CString(texts.get) == texts.get
    requires Plain(l0) && Plain(l1) && Plain(l2) && Plain(l3) && Plain(l4)
    requires CString(l0) == l0 && Status101(l0)
    ensures Proper(texts)
  {
    var a := texts.answer;
    assert a[0] == l0 && a[1] == l1 && a[2] == l2 && a[3] == l3 && a[4] == l4 && a[5] == [];
    forall i | 0 <= i < 6
      ensures Plain(a[i])
    {
      assert i == 0 || i == 1 || i == 2 || i == 3 || i == 4 || i == 5;
    }
  }

  lemma SourceProper()
    ensures Proper(SourceTexts())
  {
    GetPlain();
    StatusPlain();
    AcceptPlain();
    ConnectionPlain();
    ServerPlain();
    UpgradePlain();
    SourceStatus();
    MakeProper(SourceTexts(), Ascii(STATUS_LINE), Ascii(CONNECTION_LINE), Ascii(ACCEPT_NAME) + Ascii(ACCEPT_KEY),
               Ascii(SERVER_LINE), Ascii(UPGRADE_LINE));
  }
}
