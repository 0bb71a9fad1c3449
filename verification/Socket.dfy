// A socket as WebSocketImpl sees one: an oracle that gives and takes bytes, blocks or breaks.
module Socket {
  import opened Bytes

  // Up to so many bytes of these; nothing for now; or no more at all.
  datatype Arrival = Gives(bytes: seq<byte>) | RBlocks | RBreaks
  datatype Departure = Takes(n: nat) | SBlocks | SBreaks

  // A result on which poll gives the connection up.
  predicate Breaks(ret: int, wouldBlock: bool) {
    ret <= 0 && !(ret < 0 && wouldBlock)
  }

  class Wsocket {
    var mInbox: seq<Arrival>     // what the next calls of receive will do
    var mOutbox: seq<Departure>    // what the next calls of send will do
    var mWouldBlock: bool         // wouldBlock() || inProgress() after a call that failed
    var mClosed: bool
    ghost var given: seq<byte>    // all bytes received from it
    ghost var offered: seq<byte>  // all bytes send was called with
    ghost var taken: seq<byte>    // those it has accepted
    ghost var readBlocked: bool   // the last receive would have blocked
    ghost var writeBlocked: bool  // the last send would have blocked

    constructor (inbox: seq<Arrival>, outbox: seq<Departure>)
      ensures given == offered == taken == []
    {
      mInbox, mOutbox, mWouldBlock, mClosed := inbox, outbox, false, false;
      given, offered, taken, readBlocked, writeBlocked := [], [], [], false, false;
    }

    // A count of bytes written to dest, 0 when the connection is closed, -1 on failure.
    method Receive(dest: array<byte>, at: nat, maxLen: nat) returns (ret: int)
      requires at + maxLen <= dest.Length
      modifies this, dest
      ensures -1 <= ret <= maxLen && offered == old(offered) && taken == old(taken) && mClosed == old(mClosed) && mOutbox == old(mOutbox)
      ensures ret > 0 ==> |mInbox| < |old(mInbox)|
      ensures readBlocked == (ret < 0 && mWouldBlock) && writeBlocked == old(writeBlocked)
      ensures |old(given)| <= |given| && given[..|old(given)|] == old(given)
      ensures |given[|old(given)|..]| == if ret > 0 then ret else 0
      ensures dest[..] == Splice(old(dest[..]), at, given[|old(given)|..])
    {
      ret := -1;
      mWouldBlock := true;
      if mInbox != [] {
        var next := mInbox[0];
        mInbox := mInbox[1..];
        match next
        case Gives(bytes) =>
          var n := Min(|bytes|, maxLen);
          CopyInto(dest, at, bytes[..n]);
          given := given + bytes[..n];
          ret := n;
        case RBlocks =>
        case RBreaks => mWouldBlock := false;
      }
      readBlocked := ret < 0 && mWouldBlock;
    }

    // A count of bytes taken from the front of data, 0 when closed, -1 on failure.
    method Send(data: seq<byte>) returns (ret: int)
      modifies this
      ensures -1 <= ret <= |data| && given == old(given) && mClosed == old(mClosed) && mInbox == old(mInbox)
      ensures writeBlocked == (ret < 0 && mWouldBlock) && readBlocked == old(readBlocked)
      ensures offered == old(offered) + data
      ensures taken == old(taken) + data[..if ret > 0 then ret else 0]
    {
      offered := offered + data;
      ret := -1;
      mWouldBlock := true;
      if mOutbox != [] {
        var next := mOutbox[0];
        mOutbox := mOutbox[1..];
        match next
        case Takes(n) =>
          ret := Min(n, |data|);
          taken := taken + data[..ret];
        case SBlocks =>
        case SBreaks => mWouldBlock := false;
      }
      writeBlocked := ret < 0 && mWouldBlock;
    }

    method Close()
      modifies this`mClosed
      ensures mClosed
    {
      mClosed := true;
    }
  }
}
