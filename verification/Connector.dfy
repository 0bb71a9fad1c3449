// The fields of WebSocketImpl that make the connection, and processConnection:
// ext/easywsclient/easywsclient.cpp. Handshake.dfy says what they are to do.
module Connector {
  import opened Bytes
  import H = Handshake
  import Socket

  const BUFFER_LENGTH: nat := 256

  // Where the terminating NUL of a C string lies.
  method StrLen(s: array<byte>, limit: nat) returns (n: nat)
    requires limit < s.Length && s[limit] == 0
    ensures n <= limit && s[..n] == H.CString(s[..])
  {
    n := 0;
    while s[n] != 0
      invariant n <= limit
      invariant H.CString(s[..]) == s[..n] + H.CString(s[n..])
      decreases limit - n
    {
      assert s[n..][1..] == s[n + 1..];
      assert s[..n] + [s[n]] == s[..n + 1];
      n := n + 1;
    }
    assert s[n..][0] == 0;
    assert s[..n] + [] == s[..n];
  }

  lemma {:induction false} CStringStops(l: seq<byte>, junk: seq<byte>)
    ensures H.CString(l + [0] + junk) == H.CString(l)
  {
    if l == [] {
      assert ([] + [0] + junk)[0] == 0;
    } else {
      assert (l + [0] + junk)[1..] == l[1..] + [0] + junk;
      CStringStops(l[1..], junk);
    }
  }

  class Connector {
    const texts: H.Texts
    const mIsServerClient: bool
    const mConnectionBuffer: array<byte>
    var mConnectionIndex: nat
    var mConnectionPhase: H.Phase
    var mOutcome: H.Outcome
    ghost var reply: seq<byte>

    constructor (texts: H.Texts, isServerClient: bool)
      ensures Valid() && fresh(mConnectionBuffer) && View() == H.Start(texts, isServerClient)
    {
      this.texts := texts;
      mIsServerClient := isServerClient;
      mConnectionBuffer := new byte[BUFFER_LENGTH];
      mConnectionIndex, mConnectionPhase, mOutcome := 0, H.HTTP_STATUS, H.Waiting;
      reply := [];
    }

    ghost predicate Valid()
      reads this
    {
      && mConnectionBuffer.Length == BUFFER_LENGTH
      && mConnectionIndex <= H.MAX_INDEX
      && (mOutcome == H.Waiting ==> mConnectionIndex < H.MAX_INDEX)
    }

    ghost function View(): H.Machine
      requires Valid()
      reads this, mConnectionBuffer
    {
      H.Machine(texts, mIsServerClient, mConnectionPhase, mConnectionBuffer[..mConnectionIndex], mOutcome, reply)
    }

    // Everything added to the reply has been handed to the socket, and nothing else.
    ghost predicate Said(oldReply: seq<byte>, before: seq<byte>, after: seq<byte>)
      reads this
    {
      oldReply <= reply && after == before + reply[|oldReply|..]
    }

    // Sends one line; a result short of the whole line is ignored, as in the source.
    method SocketSendString(socket: Socket.Wsocket, line: seq<byte>)
      modifies socket
      ensures socket.given == old(socket.given) && socket.offered == old(socket.offered) + (line + H.CrLf())
    {
      var _ := socket.Send(line + H.CrLf());
    }

    // The byte at mConnectionIndex has just been received.
    method TakeByte(socket: Socket.Wsocket)
      requires Valid() && mOutcome == H.Waiting
      modifies this, mConnectionBuffer, socket
      ensures Valid() && socket.given == old(socket.given)
      ensures View() == H.Feed(old(View()), old(mConnectionBuffer[mConnectionIndex]))
      ensures Said(old(reply), old(socket.offered), socket.offered)
    {
      ghost var line := mConnectionBuffer[..mConnectionIndex];
      if mConnectionBuffer[mConnectionIndex] == H.LF {
        var text := EndLine();
        OnLine(socket, text);
      } else {
        assert mConnectionBuffer[..mConnectionIndex + 1] == line + [mConnectionBuffer[mConnectionIndex]];
        mConnectionIndex := mConnectionIndex + 1;
        if mConnectionIndex == H.MAX_INDEX {
          mOutcome := H.Dropped;
        }
      }
    }

    // Replaces the line end by NULs and starts a new line; returns the C string.
    method EndLine() returns (text: seq<byte>)
      requires Valid() && mOutcome == H.Waiting
      modifies this`mConnectionIndex, mConnectionBuffer
      ensures Valid() && mConnectionIndex == 0
      ensures text == H.Text(old(mConnectionBuffer[..mConnectionIndex]))
    {
      ghost var line := mConnectionBuffer[..mConnectionIndex];
      ghost var junk := mConnectionBuffer[mConnectionIndex + 1..];
      var limit := mConnectionIndex;
      mConnectionBuffer[limit] := 0;
      assert mConnectionBuffer[..] == line + [0] + junk;
      CStringStops(line, junk);
      if limit > 0 {
        if mConnectionBuffer[limit - 1] == H.CR {
          mConnectionBuffer[limit - 1] := 0;
          assert mConnectionBuffer[..] == line[..limit - 1] + [0] + ([0] + junk);
          CStringStops(line[..limit - 1], [0] + junk);
        }
      }
      mConnectionIndex := 0;
      var n := StrLen(mConnectionBuffer, limit);
      text := mConnectionBuffer[..n];
    }

    method OnLine(socket: Socket.Wsocket, text: seq<byte>)
      requires Valid() && mOutcome == H.Waiting && mConnectionIndex == 0
      modifies this, socket
      ensures Valid() && socket.given == old(socket.given)
      ensures View() == H.OnLine(old(View()), text)
      ensures Said(old(reply), old(socket.offered), socket.offered)
    {
      var ok := false;
      match mConnectionPhase {
        case SERVER_CLIENT_STRINGS =>
          ok := true;
          if text == [] {
            mOutcome := H.Opened;
          }
        case HTTP_STATUS =>
          if mIsServerClient {
            if text == texts.get {
              ok := true;
              var i := 0;
              while i < |texts.answer|
                invariant 0 <= i <= |texts.answer|
                invariant socket.given == old(socket.given)
                invariant socket.offered + H.JoinLines(texts.answer[i..]) == old(socket.offered) + H.JoinLines(texts.answer)
                invariant unchanged(this)
              {
                assert texts.answer[i..][1..] == texts.answer[i + 1..];
                SocketSendString(socket, texts.answer[i]);
                i := i + 1;
              }
              assert texts.answer[|texts.answer|..] == [];
              assert socket.offered + [] == socket.offered;
              reply := reply + H.JoinLines(texts.answer);
              mConnectionPhase := H.SERVER_CLIENT_STRINGS;
            }
          } else {
            if H.Status101(text) {
              ok := true;
              mConnectionPhase := H.HCONNECTION_UPGRADE;
            }
          }
        case HCONNECTION_UPGRADE =>
          ok := true;
          mConnectionPhase := H.HSEC_WEBSOCKET_ACCEPT;
        case HSEC_WEBSOCKET_ACCEPT =>
          ok := true;
          mConnectionPhase := H.HSERVER_WEBSOCKET;
        case HSERVER_WEBSOCKET =>
          ok := true;
          mConnectionPhase := H.HUPGRADE_WEBSOCKET;
        case HUPGRADE_WEBSOCKET =>
          ok := true;
          mConnectionPhase := H.H;
        case H =>
          ok := true;
          mOutcome := H.Opened;
      }
      if !ok {
        mOutcome := H.Dropped;
      }
    }

    // processConnection: at most one byte a call; timedOut is the clock's verdict.
    method ProcessConnection(socket: Socket.Wsocket, timedOut: bool)
      requires Valid() && mOutcome == H.Waiting
      modifies this, mConnectionBuffer, socket
      ensures Valid()
      ensures |old(socket.given)| <= |socket.given| <= |old(socket.given)| + 1
      ensures timedOut ==> View() == old(View()).(outcome := H.Dropped) && socket.given == old(socket.given)
      ensures Said(old(reply), old(socket.offered), socket.offered)
      ensures !timedOut ==> View() == H.FeedAll(old(View()), socket.given[|old(socket.given)|..])
    {
      if timedOut {
        mOutcome := H.Dropped;
        return;
      }
      ghost var line := mConnectionBuffer[..mConnectionIndex];
      ghost var was := |socket.given|;
      var v := socket.Receive(mConnectionBuffer, mConnectionIndex, 1);
      ghost var got := socket.given[was..];
      assert mConnectionBuffer[..mConnectionIndex] == line;
      if v > 0 {
        assert mConnectionBuffer[mConnectionIndex] == got[0] && got[1..] == [];
        TakeByte(socket);
      }
    }
  }
}
